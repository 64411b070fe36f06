/**
 * The frontend's auth store: the signed-in user and access token held in
 * memory, and the refresh token kept in the `refresh_token` cookie.
 */
module AuthStore {
  import opened Wrappers

  /** The `{ id, email, name }` the backend returns for a user. */
  datatype UserProfile = UserProfile(id: string, email: string, name: string)

  datatype SameSite = Strict | Lax | NoRestriction

  /** A cookie's value and the attributes js-cookie writes with it. */
  datatype Cookie = Cookie(value: string, expiresInDays: nat, secure: bool, sameSite: SameSite)

  /** The attributes setAuth writes the refresh token with: seven days, secure, same-site strict. */
  function RefreshCookie(token: string): (c: Cookie)
    ensures c.value == token && c.expiresInDays == 7 && c.secure && c.sameSite == Strict
  {
    Cookie(token, 7, true, Strict)
  }

  /** Everything the store holds. */
  datatype Session = Session(user: Option<UserProfile>, accessToken: Option<string>, refreshCookie: Option<Cookie>)

  /** The state after logout, and the initial one when no cookie is set. */
  const SignedOut: Session := Session(None, None, None)

  class Store {
    var user: Option<UserProfile>
    var accessToken: Option<string>
    /** The `refresh_token` cookie in the browser's jar. */
    var refreshCookie: Option<Cookie>

    function Snapshot(): Session
      reads this
    {
      Session(user, accessToken, refreshCookie)
    }

    /** The store starts with no user and no access token; the cookie jar is the browser's. */
    constructor (jar: Option<Cookie>)
      ensures user == None && accessToken == None && refreshCookie == jar
    {
      user, accessToken, refreshCookie := None, None, jar;
    }

    /** setAuth: the user and access token, and the refresh token written to its cookie. */
    method SetAuth(u: UserProfile, access: string, refresh: string)
      modifies this
      ensures Snapshot() == Session(Some(u), Some(access), Some(RefreshCookie(refresh)))
    {
      user := Some(u);
      accessToken := Some(access);
      refreshCookie := Some(RefreshCookie(refresh));
    }

    /** setAccessToken: the access token alone. */
    method SetAccessToken(t: string)
      modifies this`accessToken
      ensures Snapshot() == old(Snapshot()).(accessToken := Some(t))
    {
      accessToken := Some(t);
    }

    /**
     * logout: the cookie removed and both fields cleared. The new state does
     * not depend on the old one, so a second logout changes nothing.
     */
    method Logout()
      modifies this
      ensures Snapshot() == SignedOut
    {
      refreshCookie := None;
      user, accessToken := None, None;
    }
  }
}
