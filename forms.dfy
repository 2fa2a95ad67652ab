/** The form validators of frontend/src/navbar.js and frontend/src/Profile.js: the
    email regular expression, the five password-criteria regular expressions and the
    password match, each giving a flag and the error text shown beside the field.
    A JavaScript value that may be `undefined` is an `Option<string>`. */
module Forms {
  import opened Common

  /** What a validator sets: the flag and the error text. */
  datatype Check = Check(ok: bool, error: string)

  /** The characters JavaScript's `\s` class matches. */
  predicate IsJsWhitespace(c: char)
  {
    || '\t' <= c <= '\r'
    || c == ' ' || c == '\U{A0}' || c == '\U{1680}'
    || '\U{2000}' <= c <= '\U{200A}'
    || c == '\U{2028}' || c == '\U{2029}' || c == '\U{202F}' || c == '\U{205F}' || c == '\U{3000}'
    || c == '\U{FEFF}'
  }

  /** The characters JavaScript's `.` does not match. */
  predicate IsLineTerminator(c: char)
  {
    c == '\n' || c == '\r' || c == '\U{2028}' || c == '\U{2029}'
  }

  /** `String(v)` as a regular expression's `test` applies it: `undefined` is tested
      as the nine letters "undefined". */
  function JsString(v: Option<string>): string
  {
    if v.None? then "undefined" else v.value
  }

  // ---------------------------------------------------------------- email

  /** `[^\s@]+` matches all of `t`. */
  predicate OneOrMoreNotSpaceOrAt(t: string)
  {
    |t| > 0 && forall k :: 0 <= k < |t| ==> !IsJsWhitespace(t[k]) && t[k] != '@'
  }

  /** `^[^\s@]+@[^\s@]+\.[^\s@]+$` matches `s` with its `@` at `i` and its `\.` at `j`.
      Without the `u` flag the expression reads UTF-16 code units, but no surrogate is
      whitespace, `@` or `.`, so reading characters gives the same answer. */
  predicate EmailMatchAt(s: string, i: nat, j: nat)
  {
    && i < j < |s|
    && OneOrMoreNotSpaceOrAt(s[..i]) && s[i] == '@'
    && OneOrMoreNotSpaceOrAt(s[i + 1..j]) && s[j] == '.'
    && OneOrMoreNotSpaceOrAt(s[j + 1..])
  }

  predicate EmailMatches(s: string)
  {
    exists i, j :: 0 <= i < j < |s| && EmailMatchAt(s, i, j)
  }

  /** The `@` at `i` is the only one in `s`, and the local part before it is not empty. */
  predicate SingleAt(s: string, i: nat)
  {
    0 < i < |s| && s[i] == '@' && forall k :: 0 <= k < |s| && k != i ==> s[k] != '@'
  }

  /** The domain after the `@` at `i` has a `.` that is neither its first nor its last
      character. */
  predicate InnerDot(s: string, i: nat)
  {
    exists j :: i + 1 < j < |s| - 1 && s[j] == '.'
  }

  /** The shape of an accepted address in plain terms. */
  predicate EmailShape(s: string)
  {
    (forall k :: 0 <= k < |s| ==> !IsJsWhitespace(s[k])) && exists i :: 0 <= i < |s| && SingleAt(s, i) && InnerDot(s, i)
  }

  lemma EmailMatchHasShape(s: string, i: nat, j: nat)
    requires EmailMatchAt(s, i, j)
    ensures EmailShape(s)
  {
    forall k | 0 <= k < |s| && k != i && k != j
      ensures !IsJsWhitespace(s[k]) && s[k] != '@'
    {
      if k < i {
        assert s[..i][k] == s[k];
      } else if k < j {
        assert s[i + 1..j][k - i - 1] == s[k];
      } else {
        assert s[j + 1..][k - j - 1] == s[k];
      }
    }
    assert SingleAt(s, i);
    assert s[j + 1..][0] == s[j + 1];
    assert InnerDot(s, i);
  }

  lemma EmailShapeMatches(s: string, i: nat, j: nat)
    requires forall k :: 0 <= k < |s| ==> !IsJsWhitespace(s[k])
    requires SingleAt(s, i) && i + 1 < j < |s| - 1 && s[j] == '.'
    ensures EmailMatchAt(s, i, j)
  {
    assert forall k :: 0 <= k < i ==> s[..i][k] == s[k];
    assert forall k :: i + 1 <= k < j ==> s[k] == s[i + 1..j][k - (i + 1)];
    assert forall k :: j + 1 <= k < |s| ==> s[k] == s[j + 1..][k - (j + 1)];
  }

  /** The email expression accepts exactly the addresses without whitespace that have
      one `@`, a non-empty local part, and a `.` inside the domain. */
  lemma EmailMatchesIff(s: string)
    ensures EmailMatches(s) <==> EmailShape(s)
  {
    if EmailMatches(s) {
      var i, j :| 0 <= i < j < |s| && EmailMatchAt(s, i, j);
      EmailMatchHasShape(s, i, j);
    }
    if EmailShape(s) {
      var i :| 0 <= i < |s| && SingleAt(s, i) && InnerDot(s, i);
      var j :| i + 1 < j < |s| - 1 && s[j] == '.';
      EmailShapeMatches(s, i, j);
    }
  }

  const EmailMessage: string := "Please enter a valid email address."

  /** `validateEmail`'s flag and text for the address `email`. */
  function ValidateEmail(email: string): (c: Check)
    ensures c.ok <==> EmailShape(email)
    ensures c.error == "" <==> c.ok
  {
    EmailMatchesIff(email);
    if EmailMatches(email) then Check(true, "") else Check(false, EmailMessage)
  }

  // ---------------------------------------------------------------- password criteria

  /** The UTF-16 code units JavaScript stores for `s`: a character above U+FFFF is a
      surrogate pair. A regular expression without the `u` flag and a string spread both
      work unit by unit. */
  function Utf16(s: string): (u: seq<int>)
    ensures |u| >= |s|
    ensures forall k :: 0 <= k < |u| ==> 0 <= u[k] < 0x1_0000
  {
    if s == [] then []
    else
      var c := s[0] as int;
      (if c < 0x1_0000 then [c] else [0xD800 + (c - 0x1_0000) / 0x400, 0xDC00 + (c - 0x1_0000) % 0x400])
      + Utf16(s[1..])
  }

  /** The code units JavaScript's `.` does not match. */
  predicate IsLineTerminatorUnit(u: int)
  {
    u == 0x0A || u == 0x0D || u == 0x2028 || u == 0x2029
  }

  /** Without line terminators among the characters, there are none among the units:
      surrogates are never line terminators. */
  lemma {:induction false} Utf16NoBreaks(s: string)
    requires forall k :: 0 <= k < |s| ==> !IsLineTerminator(s[k])
    ensures forall k :: 0 <= k < |Utf16(s)| ==> !IsLineTerminatorUnit(Utf16(s)[k])
  {
    if s != [] {
      assert !IsLineTerminator(s[0]);
      Utf16NoBreaks(s[1..]);
    }
  }

  /** A string without characters above U+FFFF has one unit per character. */
  lemma {:induction false} Utf16OfBmp(s: string)
    requires forall k :: 0 <= k < |s| ==> (s[k] as int) < 0x1_0000
    ensures |Utf16(s)| == |s|
  {
    if s != [] {
      Utf16OfBmp(s[1..]);
    }
  }

  /** `/.{7,}/` matches at unit `i`: seven units from `i` on, none a line terminator. */
  predicate RunAt(u: seq<int>, i: nat)
  {
    i + 7 <= |u| && forall k :: i <= k < i + 7 ==> !IsLineTerminatorUnit(u[k])
  }

  predicate MinLengthMatches(s: string)
  {
    exists i :: 0 <= i <= |Utf16(s)| && RunAt(Utf16(s), i)
  }

  predicate HasUpper(s: string) { exists k :: 0 <= k < |s| && IsAsciiUpper(s[k]) }

  predicate HasLower(s: string) { exists k :: 0 <= k < |s| && IsAsciiLower(s[k]) }

  predicate HasDigit(s: string) { exists k :: 0 <= k < |s| && IsAsciiDigit(s[k]) }

  /** `/[^A-Za-z0-9]/`: any other character, whitespace and line breaks included. The
      class tests units, but a character has a unit outside the class exactly when it is
      outside the class itself, so the four class tests are stated on characters. */
  predicate HasSpecial(s: string) { exists k :: 0 <= k < |s| && !IsAsciiAlnum(s[k]) }

  predicate PasswordCriteria(s: string)
  {
    MinLengthMatches(s) && HasUpper(s) && HasLower(s) && HasDigit(s) && HasSpecial(s)
  }

  const CriteriaMessage: string :=
    "Password must meet all criteria: at least 8 characters, including one uppercase letter, one lowercase letter, one number, and one special symbol."

  /** `validatePasswordCriteria`'s flag and text for the tested value. */
  function ValidatePasswordCriteria(password: string): (c: Check)
    ensures c.ok <==> PasswordCriteria(password)
    ensures c.error == "" <==> c.ok
  {
    if PasswordCriteria(password) then Check(true, "") else Check(false, CriteriaMessage)
  }

  /** For a password without line breaks the length test asks for seven code units:
      seven characters below U+10000, one fewer than the message states, and fewer
      characters when some lie above U+FFFF and count twice. */
  lemma MinLengthIsSeven(s: string)
    requires forall k :: 0 <= k < |s| ==> !IsLineTerminator(s[k])
    ensures MinLengthMatches(s) <==> |Utf16(s)| >= 7
    ensures (forall k :: 0 <= k < |s| ==> (s[k] as int) < 0x1_0000) ==> (MinLengthMatches(s) <==> |s| >= 7)
  {
    Utf16NoBreaks(s);
    if |Utf16(s)| >= 7 {
      assert RunAt(Utf16(s), 0);
    }
    if forall k :: 0 <= k < |s| ==> (s[k] as int) < 0x1_0000 {
      Utf16OfBmp(s);
    }
  }

  /** A line break splits the length test: the units on either side of it are not
      counted together, so a password of any length whose line breaks leave no seven
      units in a row is refused. */
  lemma LineBreaksSplitRuns(s: string)
    requires forall k :: 0 <= k < |Utf16(s)| && k % 6 == 5 ==> IsLineTerminatorUnit(Utf16(s)[k])
    ensures !MinLengthMatches(s)
  {
    var u := Utf16(s);
    forall i: nat | i + 7 <= |u| ensures !RunAt(u, i) {
      var k := i + (5 - i % 6);
      assert k % 6 == 5;
      assert i <= k < i + 7;
      assert IsLineTerminatorUnit(u[k]);
    }
  }

  /** A seven-character password with the four kinds of character meets the criteria. */
  lemma SevenCharactersAccepted(s: string)
    requires |s| == 7 && forall k :: 0 <= k < |s| ==> !IsLineTerminator(s[k])
    requires HasUpper(s) && HasLower(s) && HasDigit(s) && HasSpecial(s)
    ensures PasswordCriteria(s)
  {
    MinLengthIsSeven(s);
  }

  /** A character above U+FFFF counts two units, so six characters, one of them above
      U+FFFF, pass the length test, and with the other three kinds of character they
      meet the criteria. */
  lemma AstralCharacterCountsTwice(s: string, c: char)
    requires |s| == 5 && forall k :: 0 <= k < |s| ==> !IsLineTerminator(s[k])
    requires HasUpper(s) && HasLower(s) && HasDigit(s)
    requires (c as int) >= 0x1_0000
    ensures PasswordCriteria(s + [c])
  {
    var t := s + [c];
    assert t[5] == c && !IsAsciiAlnum(t[5]);
    assert !IsLineTerminator(c);
    assert forall k :: 0 <= k < |t| ==> !IsLineTerminator(t[k]);
    Utf16Snoc(s, c);
    MinLengthIsSeven(t);
    assert HasUpper(t) && HasLower(t) && HasDigit(t) by {
      var a :| 0 <= a < |s| && IsAsciiUpper(s[a]);
      var b :| 0 <= b < |s| && IsAsciiLower(s[b]);
      var d :| 0 <= d < |s| && IsAsciiDigit(s[d]);
      assert t[a] == s[a] && t[b] == s[b] && t[d] == s[d];
    }
  }

  /** Appending a character appends its units. */
  lemma {:induction false} Utf16Snoc(s: string, c: char)
    ensures |Utf16(s + [c])| == |Utf16(s)| + (if (c as int) < 0x1_0000 then 1 else 2)
  {
    if s == [] {
      assert [c][1..] == [];
    } else {
      assert (s + [c])[1..] == s[1..] + [c];
      Utf16Snoc(s[1..], c);
    }
  }

  /** The value `undefined`, tested as "undefined", never meets the criteria. */
  lemma UndefinedFailsCriteria()
    ensures !PasswordCriteria(JsString(None))
  {
    var u := JsString(None);
    assert forall k :: 0 <= k < |u| ==> IsAsciiLower(u[k]);
  }

  // ---------------------------------------------------------------- match

  const MatchMessage: string := "Passwords do not match."

  /** `validatePasswordsMatch(password, confirmationPassword)`: strict equality, under
      which two `undefined` values are equal. */
  function ValidatePasswordsMatch(password: Option<string>, confirmation: Option<string>): (c: Check)
    ensures c.ok <==> password == confirmation
    ensures c.error == "" <==> c.ok
  {
    if password == confirmation then Check(true, "") else Check(false, MatchMessage)
  }
}
