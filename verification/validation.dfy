/**
 * `validateUserFields` and the two regular expressions it uses, written out
 * by hand over strings.
 */
module Validation {
  import opened JsValues

  /** One error per field, in the order the validator reports them. */
  datatype FieldError = NameError | AddressError | EmailError | PasswordError

  /** The text the validator pushes for each error. */
  function ErrorText(e: FieldError): string
  {
    match e
    case NameError => "Name must be between 20 and 60 characters."
    case AddressError => "Address is required and must be at most 400 characters."
    case EmailError => "Invalid email address."
    case PasswordError => "Password must be 8-16 chars, include at least one uppercase and one special character."
  }

  /** Position of a field's check in the validator. */
  function Rank(e: FieldError): nat
  {
    match e
    case NameError => 0
    case AddressError => 1
    case EmailError => 2
    case PasswordError => 3
  }

  datatype UserFields = UserFields(name: Field, email: Field, address: Field, password: Field)

  // ---------------------------------------------------------------------
  // Character classes of the two patterns
  // ---------------------------------------------------------------------

  /** `\s` in a JavaScript regular expression. */
  predicate IsWhitespace(c: char)
  {
    c == ' ' || c == '\t' || c == '\n' || c == '\r' || c == '\U{000B}' || c == '\U{000C}'
    || c == '\U{00A0}' || c == '\U{1680}' || ('\U{2000}' <= c <= '\U{200A}')
    || c == '\U{2028}' || c == '\U{2029}' || c == '\U{202F}' || c == '\U{205F}'
    || c == '\U{3000}' || c == '\U{FEFF}'
  }

  /** The characters `.` does not match: the line terminators. */
  predicate IsLineTerminator(c: char)
  {
    c == '\n' || c == '\r' || c == '\U{2028}' || c == '\U{2029}'
  }

  predicate IsUpper(c: char)
  {
    'A' <= c <= 'Z'
  }

  /** The bracket class of the password pattern. */
  predicate IsSpecial(c: char)
  {
    c in "!@#$%^&*()_+-={}[]|:;\"'<>,.?/"
  }

  /** `[^\s@]` accepts the character. */
  predicate IsPlain(c: char)
  {
    !IsWhitespace(c) && c != '@'
  }

  predicate AllPlain(t: string)
  {
    forall i | 0 <= i < |t| :: IsPlain(t[i])
  }

  // ---------------------------------------------------------------------
  // The e-mail pattern  ^[^\s@]+@[^\s@]+\.[^\s@]+$
  // ---------------------------------------------------------------------

  /** The index of the first `c` in `s`, or `|s|` when there is none. */
  function FirstIndexOf(s: string, c: char): (i: nat)
    ensures i <= |s|
    ensures i < |s| ==> s[i] == c
    ensures forall k :: 0 <= k < i ==> s[k] != c
  {
    if s == [] then 0
    else if s[0] == c then 0
    else 1 + FirstIndexOf(s[1..], c)
  }

  /** `t` has a `.` that is neither its first nor its last character. */
  predicate HasInnerDot(t: string)
  {
    exists k | 1 <= k < |t| - 1 :: t[k] == '.'
  }

  /** The e-mail check as a scan: split at the first `@`; the part before it is
      non-empty and plain, the rest is plain and has an inner dot. */
  predicate IsEmail(s: string): (b: bool)
    // the shortest accepted address has the shape a@b.c
    ensures b ==> 5 <= |s| && '@' in s
  {
    var at := FirstIndexOf(s, '@');
    0 < at < |s| && AllPlain(s[..at]) && AllPlain(s[at + 1..]) && HasInnerDot(s[at + 1..])
  }

  /** The pattern read literally: `s` splits as `a@b.c` at positions `at` and
      `dot`, with `a`, `b` and `c` non-empty runs of `[^\s@]`. */
  ghost predicate EmailSplit(s: string, at: int, dot: int)
  {
    && 0 < at && at + 1 < dot && dot + 1 < |s|
    && s[at] == '@' && s[dot] == '.'
    && AllPlain(s[..at]) && AllPlain(s[at + 1..dot]) && AllPlain(s[dot + 1..])
  }

  ghost predicate EmailPatternMatches(s: string)
  {
    exists at, dot :: EmailSplit(s, at, dot)
  }

  /** Every string the scan accepts matches the regular expression. */
  lemma ScanAcceptsOnlyMatches(s: string)
    requires IsEmail(s)
    ensures EmailPatternMatches(s)
  {
    var at := FirstIndexOf(s, '@');
    var rest := s[at + 1..];
    var k :| 1 <= k < |rest| - 1 && rest[k] == '.';
    var dot := at + 1 + k;
    assert s[at + 1..dot] == rest[..k];
    assert s[dot + 1..] == rest[k + 1..];
    assert EmailSplit(s, at, dot);
  }

  /** Every match of the regular expression is accepted by the scan: the only
      `@` is the one the pattern places, and the part after it is plain. */
  lemma MatchesAreAccepted(s: string)
    requires EmailPatternMatches(s)
    ensures IsEmail(s)
  {
    var at, dot :| EmailSplit(s, at, dot);
    assert forall k :: 0 <= k < at ==> s[k] == s[..at][k];
    assert FirstIndexOf(s, '@') == at;
    var rest := s[at + 1..];
    assert rest == s[at + 1..dot] + [s[dot]] + s[dot + 1..];
    assert forall i :: 0 <= i < |rest| ==> IsPlain(rest[i]) by {
      forall i | 0 <= i < |rest|
        ensures IsPlain(rest[i])
      {
        if i < dot - at - 1 {
          assert rest[i] == s[at + 1..dot][i];
        } else if i > dot - at - 1 {
          assert rest[i] == s[dot + 1..][i - (dot - at)];
        }
      }
    }
    assert rest[dot - at - 1] == '.';
  }

  /** The scan accepts exactly the strings the regular expression matches. */
  lemma EmailScanMatchesPattern(s: string)
    ensures IsEmail(s) <==> EmailPatternMatches(s)
  {
    if IsEmail(s) {
      ScanAcceptsOnlyMatches(s);
    }
    if EmailPatternMatches(s) {
      MatchesAreAccepted(s);
    }
  }

  // ---------------------------------------------------------------------
  // The password pattern  ^(?=.*[A-Z])(?=.*[special]).{8,16}$
  // ---------------------------------------------------------------------

  predicate NoLineTerminator(t: string)
  {
    forall i | 0 <= i < |t| :: !IsLineTerminator(t[i])
  }

  /** A look-ahead `(?=.*X)` at the start of `s`: some character of class X is
      reached by `.*`, that is, with no line terminator before it. */
  ghost predicate LookaheadFinds(s: string, upper: bool)
  {
    exists i :: 0 <= i < |s| && (if upper then IsUpper(s[i]) else IsSpecial(s[i]))
      && NoLineTerminator(s[..i])
  }

  /** The pattern read literally. `.` matches one UTF-16 code unit, so the
      bounds are on the JavaScript length. */
  ghost predicate PasswordPatternMatches(s: string)
  {
    && LookaheadFinds(s, true) && LookaheadFinds(s, false)
    && 8 <= Utf16Length(s) <= 16 && NoLineTerminator(s)
  }

  /** The password check as a scan: 8 to 16 code units, no line terminator,
      an upper-case letter and a special character somewhere. */
  predicate IsPassword(s: string): (b: bool)
    // 8 to 16 code units are 4 to 16 characters
    ensures b ==> 4 <= |s| <= 16
  {
    && 8 <= Utf16Length(s) <= 16
    && NoLineTerminator(s)
    && (exists i | 0 <= i < |s| :: IsUpper(s[i]))
    && (exists i | 0 <= i < |s| :: IsSpecial(s[i]))
  }

  lemma {:induction false} PasswordCheckMatchesPattern(s: string)
    ensures IsPassword(s) <==> PasswordPatternMatches(s)
  {
    if IsPassword(s) {
      var u :| 0 <= u < |s| && IsUpper(s[u]);
      var p :| 0 <= p < |s| && IsSpecial(s[p]);
      assert forall i :: 0 <= i < u ==> s[..u][i] == s[i];
      assert forall i :: 0 <= i < p ==> s[..p][i] == s[i];
      assert NoLineTerminator(s[..u]) && NoLineTerminator(s[..p]);
      assert LookaheadFinds(s, true);
      assert LookaheadFinds(s, false);
    }
  }

  // ---------------------------------------------------------------------
  // The four field checks and the validator
  // ---------------------------------------------------------------------

  /** Fails on a falsy name or one outside 20..60 characters. */
  predicate NameValid(name: Field): (b: bool)
    ensures b ==> name.Text? && 10 <= |name.s| <= 60
    // for text without astral characters the bounds are on the characters
    ensures name.Text? && (forall i | 0 <= i < |name.s| :: !IsAstral(name.s[i])) ==>
      (b <==> 20 <= |name.s| <= 60)
  {
    Truthy(name) && 20 <= Utf16Length(name.s) <= 60
  }

  /** Fails on a falsy address or one over 400 characters. */
  predicate AddressValid(address: Field): (b: bool)
    ensures b ==> address.Text? && 1 <= |address.s| <= 400
    ensures address.Text? && (forall i | 0 <= i < |address.s| :: !IsAstral(address.s[i])) ==>
      (b <==> 1 <= |address.s| <= 400)
  {
    Truthy(address) && Utf16Length(address.s) <= 400
  }

  predicate EmailValid(email: Field): (b: bool)
    // a string matching the e-mail pattern, and nothing else
    ensures b <==> email.Text? && EmailPatternMatches(email.s)
  {
    EmailScanMatchesPattern(ToJsString(email));
    Truthy(email) && IsEmail(email.s)
  }

  /** Only an absent password escapes the check; `null` is tested as "null". */
  predicate PasswordValid(password: Field): (b: bool)
    // an explicit null is rejected like any string that misses the pattern
    ensures b <==> password == Undefined || (password.Text? && PasswordPatternMatches(password.s))
  {
    PasswordCheckMatchesPattern(ToJsString(password));
    NullIsNoPassword();
    password == Undefined || IsPassword(ToJsString(password))
  }

  /** `String(null)` is "null", which has no upper-case letter. */
  lemma NullIsNoPassword()
    ensures !IsPassword(ToJsString(Null))
  {
    var t := ToJsString(Null);
    assert t == "null";
    forall i | 0 <= i < |t|
      ensures !IsUpper(t[i])
    {
    }
  }

  predicate AllValid(f: UserFields)
  {
    NameValid(f.name) && AddressValid(f.address) && EmailValid(f.email) && PasswordValid(f.password)
  }

  /** The error `e` when its check failed, nothing otherwise. */
  function ErrorIf(failed: bool, e: FieldError): seq<FieldError>
  {
    if failed then [e] else []
  }

  /** The errors of the four checks, given which of them failed, in check order. */
  function ErrorsFor(badName: bool, badAddress: bool, badEmail: bool, badPassword: bool): (errs: seq<FieldError>)
    ensures |errs| <= 4
    ensures forall i, j :: 0 <= i < j < |errs| ==> Rank(errs[i]) < Rank(errs[j])
    ensures NameError in errs <==> badName
    ensures AddressError in errs <==> badAddress
    ensures EmailError in errs <==> badEmail
    ensures PasswordError in errs <==> badPassword
  {
    ErrorIf(badName, NameError) + ErrorIf(badAddress, AddressError)
    + ErrorIf(badEmail, EmailError) + ErrorIf(badPassword, PasswordError)
  }

  /** The list `validateUserFields` returns: one error per failing field, in the
      order name, address, email, password; empty exactly when all pass. */
  function FieldErrors(f: UserFields): (errs: seq<FieldError>)
    ensures |errs| <= 4
    ensures forall i, j :: 0 <= i < j < |errs| ==> Rank(errs[i]) < Rank(errs[j])
    ensures NameError in errs <==> !NameValid(f.name)
    ensures AddressError in errs <==> !AddressValid(f.address)
    ensures EmailError in errs <==> !EmailValid(f.email)
    ensures PasswordError in errs <==> !PasswordValid(f.password)
    ensures errs == [] <==> AllValid(f)
  {
    var errs := ErrorsFor(!NameValid(f.name), !AddressValid(f.address),
                          !EmailValid(f.email), !PasswordValid(f.password));
    assert errs == [] <==> AllValid(f) by {
      if errs != [] {
        assert errs[0] in errs;
      }
    }
    errs
  }

  /** `validateUserFields`: four checks in turn, each pushing its message. */
  method ValidateUserFields(f: UserFields) returns (errors: seq<FieldError>)
    ensures errors == FieldErrors(f)
  {
    ghost var badName, badAddress := !NameValid(f.name), !AddressValid(f.address);
    ghost var badEmail, badPassword := !EmailValid(f.email), !PasswordValid(f.password);
    errors := [];
    if !NameValid(f.name) {
      errors := errors + [NameError];
    }
    assert errors == ErrorIf(badName, NameError);
    if !AddressValid(f.address) {
      errors := errors + [AddressError];
    }
    assert errors == ErrorIf(badName, NameError) + ErrorIf(badAddress, AddressError);
    if !EmailValid(f.email) {
      errors := errors + [EmailError];
    }
    assert errors == ErrorIf(badName, NameError) + ErrorIf(badAddress, AddressError)
                     + ErrorIf(badEmail, EmailError);
    if f.password != Undefined {
      if !IsPassword(ToJsString(f.password)) {
        errors := errors + [PasswordError];
      }
    }
    assert errors == ErrorsFor(badName, badAddress, badEmail, badPassword);
  }

  // ---------------------------------------------------------------------
  // The fixed fields the change-password route validates a new password with
  // ---------------------------------------------------------------------

  const DummyName: string := Repeat('x', 20)
  const DummyEmail: string := "a@a.com"
  const DummyAddress: string := "addr"

  function PasswordOnlyFields(password: Field): UserFields
  {
    UserFields(Text(DummyName), Text(DummyEmail), Text(DummyAddress), password)
  }

  /** The three fixed fields pass their checks. */
  lemma DummyFieldsPass()
    ensures NameValid(Text(DummyName))
    ensures AddressValid(Text(DummyAddress))
    ensures EmailValid(Text(DummyEmail))
  {
    DummyNamePasses();
    DummyAddressPasses();
    DummyEmailPasses();
  }

  lemma DummyNamePasses()
    ensures 20 <= Utf16Length(DummyName) <= 60
  {
    var s := DummyName;
    assert |s| == 20;
    forall i | 0 <= i < |s|
      ensures !IsAstral(s[i])
    {
      assert s[i] == 'x';
    }
  }

  lemma DummyAddressPasses()
    ensures Utf16Length(DummyAddress) <= 400
  {
  }

  lemma DummyEmailPasses()
    ensures IsEmail(DummyEmail)
  {
    var s := DummyEmail;
    assert s[0] != '@' && s[1] == '@';
    assert FirstIndexOf(s[1..], '@') == 0;
    assert FirstIndexOf(s, '@') == 1;
    assert s[..1] == "a" && s[2..] == "a.com";
    assert AllPlain("a");
    assert AllPlain("a.com");
    assert "a.com"[1] == '.';
  }

  /** So only the password rule can fail for the change-password fields. */
  lemma PasswordOnlyErrors(password: Field)
    ensures FieldErrors(PasswordOnlyFields(password))
            == if PasswordValid(password) then [] else [PasswordError]
  {
    DummyFieldsPass();
    var errs := FieldErrors(PasswordOnlyFields(password));
    if !PasswordValid(password) {
      assert errs == ErrorsFor(false, false, false, true);
    }
  }

  /** The validation of a new, non-empty password alone, with fixed stand-ins
      for the other fields: the only error possible is the password's. */
  method ValidateNewPassword(password: Field) returns (errors: seq<FieldError>)
    requires Truthy(password)
    ensures errors == if IsPassword(password.s) then [] else [PasswordError]
  {
    errors := ValidateUserFields(PasswordOnlyFields(password));
    PasswordOnlyErrors(password);
    assert PasswordValid(password) <==> IsPassword(password.s);
  }
}
