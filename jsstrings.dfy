/**
 * The two lengths the program gives a string. A Dafny string is a sequence of
 * Unicode scalar values, so `|s|` counts code points; neither measure below is
 * that count.
 *
 * JavaScript's `.length`, which zod's `.min(n)` compares, counts UTF-16 code
 * units: a character outside the Basic Multilingual Plane is a surrogate pair
 * and counts two. validator.js's `isLength`, which class-validator's
 * @MinLength calls, takes `.length`, subtracts one per surrogate pair and one
 * per presentation selector (U+FE0E, U+FE0F): one per character, and nothing
 * for a selector.
 */
module JsStrings {

  /** A character that UTF-16 writes as a surrogate pair. */
  predicate Astral(c: char) {
    c as int >= 0x10000
  }

  /** The text and emoji presentation selectors U+FE0E and U+FE0F. */
  predicate PresentationSelector(c: char) {
    c == '\U{FE0E}' || c == '\U{FE0F}'
  }

  /** `s.length`: UTF-16 code units. */
  function Utf16Length(s: string): nat {
    if s == [] then 0 else (if Astral(s[0]) then 2 else 1) + Utf16Length(s[1..])
  }

  /** validator.js `isLength`'s count: characters, not counting presentation selectors. */
  function ValidatorLength(s: string): nat {
    if s == [] then 0 else (if PresentationSelector(s[0]) then 0 else 1) + ValidatorLength(s[1..])
  }

  /** No astral character and no presentation selector: all three counts agree. */
  predicate Plain(s: string) {
    forall i :: 0 <= i < |s| ==> !Astral(s[i]) && !PresentationSelector(s[i])
  }

  /**
   * validator.js never counts more than the characters, and `.length` never
   * fewer. The counts agree when the characters give them no reason to differ.
   * A selector makes isLength shorter, and an all-astral string is twice as
   * long in UTF-16.
   */
  lemma {:induction false} LengthMeasures(s: string)
    ensures ValidatorLength(s) <= |s| <= Utf16Length(s)
    ensures Utf16Length(s) == 0 <==> s == []
    ensures (forall i :: 0 <= i < |s| ==> !Astral(s[i])) ==> Utf16Length(s) == |s|
    ensures (forall i :: 0 <= i < |s| ==> Astral(s[i])) ==> Utf16Length(s) == 2 * |s|
    ensures (forall i :: 0 <= i < |s| ==> !PresentationSelector(s[i])) ==> ValidatorLength(s) == |s|
    ensures (exists i :: 0 <= i < |s| && PresentationSelector(s[i])) ==> ValidatorLength(s) < |s|
    ensures Plain(s) ==> ValidatorLength(s) == |s| == Utf16Length(s)
  {
    if s != [] {
      LengthMeasures(s[1..]);
      assert forall i :: 1 <= i < |s| ==> s[i] == s[1..][i - 1];
      if exists i :: 0 <= i < |s| && PresentationSelector(s[i]) {
        var i :| 0 <= i < |s| && PresentationSelector(s[i]);
        if i > 0 {
          assert PresentationSelector(s[1..][i - 1]);
        }
      }
    }
  }
}
