/**
 * AuthService: the user table and the seven operations that read and rewrite
 * a user's password hash, refresh token, reset token and last-login time.
 *
 * jsonwebtoken and bcrypt are abstracted. A signed token is the value of its
 * claims, issue time and expiry (jsonwebtoken is deterministic, so equal
 * claims signed in the same second give the same token); any other string a
 * caller presents is `Text`, which never verifies. A bcrypt hash is an ideal
 * salted one-way value that only `Compare` can test a password against. The
 * clock (in seconds), the salt and whether an email was delivered are
 * parameters.
 */
module Auth {
  import opened Wrappers
  import Folds

  /** `'7d'`: the refresh token's lifetime, and the module default used for access tokens. */
  const TokenLifetime: int := 7 * 24 * 60 * 60
  /** `'15m'`: the reset token's lifetime. */
  const ResetLifetime: int := 15 * 60

  datatype Claims = Claims(sub: nat, email: Option<string>)

  datatype Token =
    | Jwt(claims: Claims, issuedAt: int, expiresAt: int)
    | Text(text: string)

  /** JavaScript truthiness of the presented token: anything but the empty string (or nothing). */
  predicate Present(t: Token) {
    t != Text("")
  }

  /** `jwt.sign(claims, { expiresIn })` at time `now`. */
  function Sign(claims: Claims, now: int, lifetime: int): Token {
    Jwt(claims, now, now + lifetime)
  }

  /** `jwt.verify`: our signature and not yet expired (expired once `now >= exp`). */
  function Verify(t: Token, now: int): Option<Claims> {
    if t.Jwt? && now < t.expiresAt then Some(t.claims) else None
  }

  /** A bcrypt hash: the salt and the password it was made from, reachable only through Compare. */
  datatype PasswordHash = Bcrypt(salt: nat, secret: string)

  /** `bcrypt.hash(password, 10)` with the salt it draws. */
  function Hash(password: string, salt: nat): PasswordHash {
    Bcrypt(salt, password)
  }

  /** `bcrypt.compare(password, hash)`. */
  predicate Compare(password: string, h: PasswordHash) {
    h.secret == password
  }

  /** A password matches a hash exactly when the hash was made from it, whatever the salt. */
  lemma HashCompare(p: string, q: string, salt: nat)
    ensures Compare(p, Hash(q, salt)) <==> p == q
  {
  }

  datatype User = User(
    id: nat,
    email: string,
    password: PasswordHash,
    name: string,
    refreshToken: Option<Token>,
    resetToken: Option<Token>,
    lastLogin: Option<int>)

  /** The `{ id, email, name }` the service hands back. */
  datatype PublicUser = PublicUser(id: nat, email: string, name: string)

  function Public(u: User): PublicUser {
    PublicUser(u.id, u.email, u.name)
  }

  datatype RegisterDto = RegisterDto(email: string, password: string, name: string)
  datatype LoginDto = LoginDto(email: string, password: string)
  datatype ChangePasswordDto = ChangePasswordDto(email: string, oldPassword: string, newPassword: string)

  datatype RegisterResponse = RegisterResponse(message: string, user: PublicUser)
  datatype LoginResponse = LoginResponse(accessToken: Token, refreshToken: Token, user: PublicUser)

  datatype AuthError =
    | Unauthorized(message: string)
    | BadRequest(message: string)
    /** An error of jwt.verify, rethrown unchanged by refreshToken. */
    | InvalidJwt
    /** The database's unique constraint on email. */
    | DuplicateEmail
    /** The mail transport threw; the database writes before it stay. */
    | EmailFailed

  /** The user table and the next id it will assign. */
  datatype AuthDb = AuthDb(users: seq<User>, nextId: nat)

  /** An operation's new table and what it returns or throws. */
  datatype Outcome<T> = Outcome(db: AuthDb, result: Result<T, AuthError>)

  predicate HasEmail(users: seq<User>, email: string) {
    exists i :: 0 <= i < |users| && users[i].email == email
  }

  predicate HasId(users: seq<User>, id: nat) {
    exists i :: 0 <= i < |users| && users[i].id == id
  }

  /** Emails and ids are unique (the schema's constraints) and ids are below the next one. */
  predicate ValidDb(db: AuthDb) {
    (forall i, j :: 0 <= i < j < |db.users| ==> db.users[i].email != db.users[j].email) &&
    (forall i, j :: 0 <= i < j < |db.users| ==> db.users[i].id != db.users[j].id) &&
    (forall i :: 0 <= i < |db.users| ==> db.users[i].id < db.nextId)
  }

  /** `findUnique({ where: { email } })` as a position. */
  function EmailIndex(users: seq<User>, email: string): (k: Option<nat>)
    ensures k.Some? <==> HasEmail(users, email)
    ensures k.Some? ==> k.value < |users| && users[k.value].email == email
  {
    Folds.IndexWhere(users, (u: User) => u.email == email)
  }

  /** `findUnique({ where: { id } })` as a position. */
  function IdIndex(users: seq<User>, id: nat): (k: Option<nat>)
    ensures k.Some? <==> HasId(users, id)
    ensures k.Some? ==> k.value < |users| && users[k.value].id == id
  {
    Folds.IndexWhere(users, (u: User) => u.id == id)
  }

  /** Rewriting one row without touching its id or email keeps the table valid. */
  lemma RewriteKeepsValid(db: AuthDb, k: nat, u: User)
    requires k < |db.users| && u.id == db.users[k].id && u.email == db.users[k].email
    ensures ValidDb(db) ==> ValidDb(db.(users := db.users[k := u]))
  {
  }

  // ---------------------------------------------------------------------------
  // The operations, as transitions of the table
  // ---------------------------------------------------------------------------

  /** register: hash, insert, send the welcome email (a failure there still leaves the user). */
  function RegisterStep(db: AuthDb, dto: RegisterDto, salt: nat, welcomeSent: bool): (o: Outcome<RegisterResponse>)
    ensures ValidDb(db) ==> ValidDb(o.db)
  {
    if HasEmail(db.users, dto.email) then Outcome(db, Err(DuplicateEmail))
    else
      var u := User(db.nextId, dto.email, Hash(dto.password, salt), dto.name, None, None, None);
      var users := db.users + [u];
      assert forall i :: 0 <= i < |db.users| ==> users[i] == db.users[i];
      Outcome(AuthDb(users, db.nextId + 1),
              if welcomeSent then Ok(RegisterResponse("User registered successfully", Public(u)))
              else Err(EmailFailed))
  }

  /** login: the same error for an unknown email and a wrong password. */
  function LoginStep(db: AuthDb, dto: LoginDto, now: int): (o: Outcome<LoginResponse>)
    ensures ValidDb(db) ==> ValidDb(o.db)
  {
    match EmailIndex(db.users, dto.email)
    case None => Outcome(db, Err(Unauthorized("Invalid credentials")))
    case Some(k) =>
      var u := db.users[k];
      if !Compare(dto.password, u.password) then Outcome(db, Err(Unauthorized("Invalid credentials")))
      else
        var access := Sign(Claims(u.id, Some(u.email)), now, TokenLifetime);
        var refresh := Sign(Claims(u.id, None), now, TokenLifetime);
        var u' := u.(refreshToken := Some(refresh), lastLogin := Some(now));
        RewriteKeepsValid(db, k, u');
        Outcome(db.(users := db.users[k := u']), Ok(LoginResponse(access, refresh, Public(u))))
  }

  /** refreshToken: a new access token for a presented token equal to the stored one. It writes nothing. */
  function RefreshStep(db: AuthDb, token: Token, now: int): Result<Token, AuthError> {
    if !Present(token) then Err(BadRequest("No token provided"))
    else
      match Verify(token, now)
      case None => Err(InvalidJwt)
      case Some(c) =>
        match IdIndex(db.users, c.sub)
        case None => Err(Unauthorized("Invalid refresh token"))
        case Some(k) =>
          var u := db.users[k];
          if u.refreshToken != Some(token) then Err(Unauthorized("Invalid refresh token"))
          else Ok(Sign(Claims(u.id, Some(u.email)), now, TokenLifetime))
  }

  /** logout: clear the refresh token of the token's subject; every failure is 'Invalid token'. */
  function LogoutStep(db: AuthDb, token: Token, now: int): (o: Outcome<string>)
    ensures ValidDb(db) ==> ValidDb(o.db)
  {
    match Verify(token, now)
    case None => Outcome(db, Err(Unauthorized("Invalid token")))
    case Some(c) =>
      match IdIndex(db.users, c.sub)
      case None => Outcome(db, Err(Unauthorized("Invalid token")))
      case Some(k) =>
        var u' := db.users[k].(refreshToken := None);
        RewriteKeepsValid(db, k, u');
        Outcome(db.(users := db.users[k := u']), Ok("Logged out successfully"))
  }

  /** forgotPassword: store a 15-minute reset token, then mail it. */
  function ForgotStep(db: AuthDb, email: string, now: int, resetMailSent: bool): (o: Outcome<string>)
    ensures ValidDb(db) ==> ValidDb(o.db)
  {
    match EmailIndex(db.users, email)
    case None => Outcome(db, Err(BadRequest("User does not exist")))
    case Some(k) =>
      var u := db.users[k];
      var u' := u.(resetToken := Some(Sign(Claims(u.id, None), now, ResetLifetime)));
      RewriteKeepsValid(db, k, u');
      Outcome(db.(users := db.users[k := u']),
              if resetMailSent then Ok("Password reset link sent to email") else Err(EmailFailed))
  }

  /** resetPassword: a verified token equal to the stored reset token replaces the hash and is cleared. */
  function ResetStep(db: AuthDb, token: Token, newPassword: string, now: int, salt: nat): (o: Outcome<string>)
    ensures ValidDb(db) ==> ValidDb(o.db)
  {
    match Verify(token, now)
    case None => Outcome(db, Err(Unauthorized("Token expired or invalid")))
    case Some(c) =>
      match IdIndex(db.users, c.sub)
      case None => Outcome(db, Err(Unauthorized("Invalid token")))
      case Some(k) =>
        var u := db.users[k];
        if u.resetToken != Some(token) then Outcome(db, Err(Unauthorized("Invalid token")))
        else
          var u' := u.(password := Hash(newPassword, salt), resetToken := None);
          RewriteKeepsValid(db, k, u');
          Outcome(db.(users := db.users[k := u']), Ok("Password reset successful"))
  }

  /** changePassword: a known email and the right old password replace the hash, and nothing else. */
  function ChangeStep(db: AuthDb, dto: ChangePasswordDto, salt: nat): (o: Outcome<string>)
    ensures ValidDb(db) ==> ValidDb(o.db)
  {
    match EmailIndex(db.users, dto.email)
    case None => Outcome(db, Err(Unauthorized("Invalid user")))
    case Some(k) =>
      var u := db.users[k];
      if !Compare(dto.oldPassword, u.password) then Outcome(db, Err(Unauthorized("Old password incorrect")))
      else
        var u' := u.(password := Hash(dto.newPassword, salt));
        RewriteKeepsValid(db, k, u');
        Outcome(db.(users := db.users[k := u']), Ok("Password changed successfully"))
  }

  // ---------------------------------------------------------------------------
  // Properties of the transitions
  // ---------------------------------------------------------------------------

  /** In a valid table a row is the only one with its email, and the one findUnique finds. */
  lemma EmailIndexUnique(db: AuthDb, email: string, i: nat)
    requires ValidDb(db) && i < |db.users| && db.users[i].email == email
    ensures EmailIndex(db.users, email) == Some(i)
  {
  }

  lemma IdIndexUnique(db: AuthDb, id: nat, i: nat)
    requires ValidDb(db) && i < |db.users| && db.users[i].id == id
    ensures IdIndex(db.users, id) == Some(i)
  {
  }

  /**
   * register refuses a taken email and changes nothing; otherwise it appends
   * one row with a fresh id whose hash matches the given password and no
   * other, with no tokens, and returns only its id, email and name. A failed
   * welcome email makes it throw, with the row already written.
   */
  lemma RegisterStoresHash(db: AuthDb, dto: RegisterDto, salt: nat, welcomeSent: bool)
    ensures HasEmail(db.users, dto.email) ==> RegisterStep(db, dto, salt, welcomeSent) == Outcome(db, Err(DuplicateEmail))
    ensures !HasEmail(db.users, dto.email) ==>
      var o := RegisterStep(db, dto, salt, welcomeSent);
      |o.db.users| == |db.users| + 1 && o.db.users[..|db.users|] == db.users &&
      o.db.nextId == db.nextId + 1 &&
      var u := o.db.users[|db.users|];
      u.id == db.nextId && u.email == dto.email && u.name == dto.name &&
      (forall p :: Compare(p, u.password) <==> p == dto.password) &&
      u.refreshToken.None? && u.resetToken.None? && u.lastLogin.None? &&
      (o.result.Ok? <==> welcomeSent) &&
      (o.result.Ok? ==> o.result.value.user == PublicUser(u.id, u.email, u.name)) &&
      (o.result.Err? ==> o.result.error == EmailFailed)
  {
    if !HasEmail(db.users, dto.email) {
      var o := RegisterStep(db, dto, salt, welcomeSent);
      assert o.db.users == db.users + [o.db.users[|db.users|]];
    }
  }

  /** Whether the email belongs to a user whose hash matches the password. */
  predicate CredentialsMatch(users: seq<User>, dto: LoginDto) {
    exists i :: 0 <= i < |users| && users[i].email == dto.email && Compare(dto.password, users[i].password)
  }

  /**
   * login fails exactly when the credentials do not match a user, and then
   * with one and the same error whichever the reason, leaving the table as
   * it was.
   */
  lemma LoginFailsAlike(db: AuthDb, dto: LoginDto, now: int)
    requires ValidDb(db)
    ensures LoginStep(db, dto, now).result.Err? <==> !CredentialsMatch(db.users, dto)
    ensures LoginStep(db, dto, now).result.Err? ==>
      LoginStep(db, dto, now) == Outcome(db, Err(Unauthorized("Invalid credentials")))
  {
    if CredentialsMatch(db.users, dto) {
      var i :| 0 <= i < |db.users| && db.users[i].email == dto.email && Compare(dto.password, db.users[i].password);
      EmailIndexUnique(db, dto.email, i);
    }
  }

  /**
   * A successful login stores the refresh token it returns and the login
   * time in that user's row and changes nothing else; both tokens name the
   * user, and the access token also carries the email.
   */
  lemma LoginSetsSession(db: AuthDb, dto: LoginDto, now: int)
    requires LoginStep(db, dto, now).result.Ok?
    ensures HasEmail(db.users, dto.email)
    ensures
      var o := LoginStep(db, dto, now);
      var k := EmailIndex(db.users, dto.email).value;
      var u := db.users[k];
      var res := o.result.value;
      o.db == db.(users := db.users[k := u.(refreshToken := Some(res.refreshToken), lastLogin := Some(now))]) &&
      Verify(res.refreshToken, now) == Some(Claims(u.id, None)) &&
      Verify(res.accessToken, now) == Some(Claims(u.id, Some(u.email))) &&
      res.user == Public(u)
  {
  }

  /**
   * refreshToken refuses an empty token as a bad request, and otherwise
   * succeeds exactly when the token verifies and equals the refresh token
   * stored for its subject; what it returns is an access token for that user.
   */
  lemma RefreshNeedsStoredToken(db: AuthDb, token: Token, now: int)
    requires ValidDb(db)
    ensures !Present(token) ==> RefreshStep(db, token, now) == Err(BadRequest("No token provided"))
    ensures RefreshStep(db, token, now).Ok? <==>
      Present(token) && Verify(token, now).Some? &&
      exists i :: 0 <= i < |db.users| && db.users[i].id == Verify(token, now).value.sub &&
        db.users[i].refreshToken == Some(token)
    ensures RefreshStep(db, token, now).Ok? ==>
      var sub := Verify(token, now).value.sub;
      var u := db.users[IdIndex(db.users, sub).value];
      Verify(RefreshStep(db, token, now).value, now) == Some(Claims(sub, Some(u.email)))
  {
    if Present(token) && Verify(token, now).Some? {
      var sub := Verify(token, now).value.sub;
      if i :| 0 <= i < |db.users| && db.users[i].id == sub && db.users[i].refreshToken == Some(token) {
        IdIndexUnique(db, sub, i);
      }
    }
  }

  /**
   * The refresh token a login returns works until it expires, as often as it
   * is presented: refreshing does not rotate it.
   */
  lemma LoginThenRefresh(db: AuthDb, dto: LoginDto, now: int, later: int)
    requires ValidDb(db) && LoginStep(db, dto, now).result.Ok?
    requires now <= later < now + TokenLifetime
    ensures RefreshStep(LoginStep(db, dto, now).db, LoginStep(db, dto, now).result.value.refreshToken, later).Ok?
  {
    var o := LoginStep(db, dto, now);
    var k := EmailIndex(db.users, dto.email).value;
    IdIndexUnique(o.db, db.users[k].id, k);
  }

  /**
   * logout fails exactly when the token does not verify or names no user,
   * always as 'Invalid token' and without writing; when it succeeds, no token
   * of that user can be refreshed any more.
   */
  lemma LogoutRevokes(db: AuthDb, token: Token, now: int, presented: Token, later: int)
    requires ValidDb(db)
    ensures LogoutStep(db, token, now).result.Ok? <==>
      Verify(token, now).Some? && HasId(db.users, Verify(token, now).value.sub)
    ensures LogoutStep(db, token, now).result.Err? ==>
      LogoutStep(db, token, now) == Outcome(db, Err(Unauthorized("Invalid token")))
    ensures (LogoutStep(db, token, now).result.Ok? && Verify(presented, later).Some? &&
      Verify(presented, later).value.sub == Verify(token, now).value.sub) ==>
      RefreshStep(LogoutStep(db, token, now).db, presented, later).Err?
  {
    var o := LogoutStep(db, token, now);
    if o.result.Ok? {
      var sub := Verify(token, now).value.sub;
      var k := IdIndex(db.users, sub).value;
      IdIndexUnique(o.db, sub, k);
    }
  }

  /**
   * forgotPassword refuses an unknown email and changes nothing; otherwise it
   * stores a reset token for the user valid for fifteen minutes and changes
   * nothing else, and a failed email makes it throw with the token already stored.
   */
  lemma ForgotStoresResetToken(db: AuthDb, email: string, now: int, resetMailSent: bool)
    ensures !HasEmail(db.users, email) ==>
      ForgotStep(db, email, now, resetMailSent) == Outcome(db, Err(BadRequest("User does not exist")))
    ensures HasEmail(db.users, email) ==>
      var o := ForgotStep(db, email, now, resetMailSent);
      var k := EmailIndex(db.users, email).value;
      var u := db.users[k];
      o.db == db.(users := db.users[k := u.(resetToken := o.db.users[k].resetToken)]) &&
      o.db.users[k].resetToken.Some? &&
      (forall t :: t < now + ResetLifetime <==> Verify(o.db.users[k].resetToken.value, t) == Some(Claims(u.id, None))) &&
      (o.result.Ok? <==> resetMailSent) &&
      (o.result.Err? ==> o.result.error == EmailFailed)
  {
  }

  /**
   * resetPassword succeeds exactly when the token verifies and equals the
   * reset token stored for its subject; it then replaces the hash with one of
   * the new password, clears the reset token, and changes nothing else.
   */
  lemma ResetNeedsStoredToken(db: AuthDb, token: Token, newPassword: string, now: int, salt: nat)
    requires ValidDb(db)
    ensures ResetStep(db, token, newPassword, now, salt).result.Ok? <==>
      Verify(token, now).Some? &&
      exists i :: 0 <= i < |db.users| && db.users[i].id == Verify(token, now).value.sub &&
        db.users[i].resetToken == Some(token)
    ensures ResetStep(db, token, newPassword, now, salt).result.Err? ==>
      ResetStep(db, token, newPassword, now, salt).db == db &&
      ResetStep(db, token, newPassword, now, salt).result.error.Unauthorized?
    ensures ResetStep(db, token, newPassword, now, salt).result.Ok? ==>
      var k := IdIndex(db.users, Verify(token, now).value.sub).value;
      var u := db.users[k];
      ResetStep(db, token, newPassword, now, salt).db ==
        db.(users := db.users[k := u.(password := Hash(newPassword, salt), resetToken := None)])
  {
    if Verify(token, now).Some? {
      var sub := Verify(token, now).value.sub;
      if i :| 0 <= i < |db.users| && db.users[i].id == sub && db.users[i].resetToken == Some(token) {
        IdIndexUnique(db, sub, i);
      }
    }
  }

  /** A reset token works once: presenting it again, at any time, fails. */
  lemma ResetSingleUse(db: AuthDb, token: Token, p: string, now: int, salt: nat, p2: string, later: int, salt2: nat)
    requires ValidDb(db) && ResetStep(db, token, p, now, salt).result.Ok?
    ensures ResetStep(ResetStep(db, token, p, now, salt).db, token, p2, later, salt2).result.Err?
  {
    var o := ResetStep(db, token, p, now, salt);
    var sub := Verify(token, now).value.sub;
    var k := IdIndex(db.users, sub).value;
    IdIndexUnique(o.db, sub, k);
  }

  /**
   * The token forgotPassword stores resets the password within fifteen
   * minutes, after which the new password logs in.
   */
  lemma ForgotThenReset(db: AuthDb, email: string, now: int, sent: bool, p: string, later: int, salt: nat, loginAt: int)
    requires ValidDb(db) && HasEmail(db.users, email)
    requires now <= later < now + ResetLifetime
    ensures
      var o := ForgotStep(db, email, now, sent);
      var token := o.db.users[EmailIndex(db.users, email).value].resetToken.value;
      var r := ResetStep(o.db, token, p, later, salt);
      r.result.Ok? && LoginStep(r.db, LoginDto(email, p), loginAt).result.Ok?
  {
    var o := ForgotStep(db, email, now, sent);
    var k := EmailIndex(db.users, email).value;
    IdIndexUnique(o.db, db.users[k].id, k);
    var r := ResetStep(o.db, o.db.users[k].resetToken.value, p, later, salt);
    EmailIndexUnique(r.db, email, k);
  }

  /**
   * changePassword fails for an unknown email or a wrong old password, with
   * distinct messages and without writing; otherwise it replaces only the
   * hash, leaving the refresh and reset tokens as they were, and from then on
   * the new password logs in and a different old one does not.
   */
  lemma ChangeOnlyPassword(db: AuthDb, dto: ChangePasswordDto, salt: nat, loginAt: int)
    requires ValidDb(db)
    ensures !HasEmail(db.users, dto.email) ==> ChangeStep(db, dto, salt) == Outcome(db, Err(Unauthorized("Invalid user")))
    ensures HasEmail(db.users, dto.email) ==>
      var k := EmailIndex(db.users, dto.email).value;
      var u := db.users[k];
      var o := ChangeStep(db, dto, salt);
      (!Compare(dto.oldPassword, u.password) ==> o == Outcome(db, Err(Unauthorized("Old password incorrect")))) &&
      (Compare(dto.oldPassword, u.password) ==>
        o.result == Ok("Password changed successfully") &&
        o.db == db.(users := db.users[k := u.(password := Hash(dto.newPassword, salt))]) &&
        LoginStep(o.db, LoginDto(dto.email, dto.newPassword), loginAt).result.Ok? &&
        (dto.oldPassword != dto.newPassword ==>
          LoginStep(o.db, LoginDto(dto.email, dto.oldPassword), loginAt).result.Err?))
  {
    if HasEmail(db.users, dto.email) {
      var k := EmailIndex(db.users, dto.email).value;
      var o := ChangeStep(db, dto, salt);
      EmailIndexUnique(o.db, dto.email, k);
    }
  }

  // ---------------------------------------------------------------------------
  // The service
  // ---------------------------------------------------------------------------

  class AuthService {
    var users: seq<User>
    var nextId: nat

    ghost predicate Valid()
      reads this
    {
      ValidDb(AuthDb(users, nextId))
    }

    constructor ()
      ensures Valid() && users == [] && nextId == 0
    {
      users, nextId := [], 0;
    }

    method Register(dto: RegisterDto, salt: nat, welcomeSent: bool) returns (r: Result<RegisterResponse, AuthError>)
      requires Valid()
      modifies this
      ensures Valid()
      ensures var o := RegisterStep(old(AuthDb(users, nextId)), dto, salt, welcomeSent);
        AuthDb(users, nextId) == o.db && r == o.result
    {
      if EmailIndex(users, dto.email).Some? {
        return Err(DuplicateEmail);
      }
      var hashed := Hash(dto.password, salt);
      var user := User(nextId, dto.email, hashed, dto.name, None, None, None);
      users := users + [user];
      nextId := nextId + 1;
      if !welcomeSent {
        return Err(EmailFailed);
      }
      r := Ok(RegisterResponse("User registered successfully", Public(user)));
    }

    method Login(dto: LoginDto, now: int) returns (r: Result<LoginResponse, AuthError>)
      requires Valid()
      modifies this`users
      ensures Valid()
      ensures var o := LoginStep(old(AuthDb(users, nextId)), dto, now);
        AuthDb(users, nextId) == o.db && r == o.result
    {
      var found := EmailIndex(users, dto.email);
      if found.None? {
        return Err(Unauthorized("Invalid credentials"));
      }
      var k := found.value;
      var user := users[k];
      if !Compare(dto.password, user.password) {
        return Err(Unauthorized("Invalid credentials"));
      }
      var access := Sign(Claims(user.id, Some(user.email)), now, TokenLifetime);
      var refresh := Sign(Claims(user.id, None), now, TokenLifetime);
      users := users[k := user.(refreshToken := Some(refresh), lastLogin := Some(now))];
      r := Ok(LoginResponse(access, refresh, Public(user)));
    }

    /** refreshToken reads the table and writes nothing: the method has no `modifies`. */
    method RefreshToken(token: Token, now: int) returns (r: Result<Token, AuthError>)
      ensures r == RefreshStep(AuthDb(users, nextId), token, now)
    {
      if !Present(token) {
        return Err(BadRequest("No token provided"));
      }
      var payload := Verify(token, now);
      if payload.None? {
        return Err(InvalidJwt);
      }
      var found := IdIndex(users, payload.value.sub);
      if found.None? || users[found.value].refreshToken != Some(token) {
        return Err(Unauthorized("Invalid refresh token"));
      }
      var user := users[found.value];
      r := Ok(Sign(Claims(user.id, Some(user.email)), now, TokenLifetime));
    }

    method Logout(token: Token, now: int) returns (r: Result<string, AuthError>)
      requires Valid()
      modifies this`users
      ensures Valid()
      ensures var o := LogoutStep(old(AuthDb(users, nextId)), token, now);
        AuthDb(users, nextId) == o.db && r == o.result
    {
      var payload := Verify(token, now);
      if payload.None? {
        return Err(Unauthorized("Invalid token"));
      }
      var found := IdIndex(users, payload.value.sub);
      if found.None? {
        return Err(Unauthorized("Invalid token"));
      }
      var k := found.value;
      users := users[k := users[k].(refreshToken := None)];
      r := Ok("Logged out successfully");
    }

    method ForgotPassword(email: string, now: int, resetMailSent: bool) returns (r: Result<string, AuthError>)
      requires Valid()
      modifies this`users
      ensures Valid()
      ensures var o := ForgotStep(old(AuthDb(users, nextId)), email, now, resetMailSent);
        AuthDb(users, nextId) == o.db && r == o.result
    {
      var found := EmailIndex(users, email);
      if found.None? {
        return Err(BadRequest("User does not exist"));
      }
      var k := found.value;
      var user := users[k];
      var token := Sign(Claims(user.id, None), now, ResetLifetime);
      users := users[k := user.(resetToken := Some(token))];
      if !resetMailSent {
        return Err(EmailFailed);
      }
      r := Ok("Password reset link sent to email");
    }

    method ResetPassword(token: Token, newPassword: string, now: int, salt: nat) returns (r: Result<string, AuthError>)
      requires Valid()
      modifies this`users
      ensures Valid()
      ensures var o := ResetStep(old(AuthDb(users, nextId)), token, newPassword, now, salt);
        AuthDb(users, nextId) == o.db && r == o.result
    {
      var payload := Verify(token, now);
      if payload.None? {
        return Err(Unauthorized("Token expired or invalid"));
      }
      var found := IdIndex(users, payload.value.sub);
      if found.None? || users[found.value].resetToken != Some(token) {
        return Err(Unauthorized("Invalid token"));
      }
      var k := found.value;
      var hashed := Hash(newPassword, salt);
      users := users[k := users[k].(password := hashed, resetToken := None)];
      r := Ok("Password reset successful");
    }

    method ChangePassword(dto: ChangePasswordDto, salt: nat) returns (r: Result<string, AuthError>)
      requires Valid()
      modifies this`users
      ensures Valid()
      ensures var o := ChangeStep(old(AuthDb(users, nextId)), dto, salt);
        AuthDb(users, nextId) == o.db && r == o.result
    {
      var found := EmailIndex(users, dto.email);
      if found.None? {
        return Err(Unauthorized("Invalid user"));
      }
      var k := found.value;
      var user := users[k];
      if !Compare(dto.oldPassword, user.password) {
        return Err(Unauthorized("Old password incorrect"));
      }
      var hashed := Hash(dto.newPassword, salt);
      users := users[k := user.(password := hashed)];
      r := Ok("Password changed successfully");
    }

    /** validateUser: the row with that id, if any. */
    function ValidateUser(id: nat): (u: Option<User>)
      reads this
      ensures u.Some? <==> HasId(users, id)
      ensures u.Some? ==> u.value in users && u.value.id == id
    {
      match IdIndex(users, id)
      case None => None
      case Some(k) => Some(users[k])
    }
  }
}
