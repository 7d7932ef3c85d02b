/** The two credential validators of the session adapter: the e-mail shape test and the
    password strength report. Both are pure tests over the text of the input. */
module Auth {

  // ---------------------------------------------------------------------------------------------
  // E-mail: `/^[^\s@]+@[^\s@]+\.[^\s@]+$/.test(email)`

  /** JavaScript's `\s`: the WhiteSpace and LineTerminator code points. */
  predicate IsJsWhitespace(c: char) {
    || c == '\t' || c == '\n' || c == '\U{B}' || c == '\U{C}' || c == '\r' || c == ' '
    || c == '\U{A0}' || c == '\U{1680}' || ('\U{2000}' <= c <= '\U{200A}')
    || c == '\U{2028}' || c == '\U{2029}' || c == '\U{202F}' || c == '\U{205F}'
    || c == '\U{3000}' || c == '\U{FEFF}'
  }

  /** `[^\s@]` */
  predicate AddressChar(c: char) {
    !IsJsWhitespace(c) && c != '@'
  }

  /** `[^\s@]+` */
  predicate AddressRun(s: string) {
    |s| > 0 && forall c :: c in s ==> AddressChar(c)
  }

  /** The anchored pattern: one run, `@`, one run, `.`, one run, and nothing else. */
  ghost predicate MatchesEmailPattern(s: string) {
    exists local, host, tld ::
      AddressRun(local) && AddressRun(host) && AddressRun(tld) && s == local + "@" + host + "." + tld
  }

  /** Position of the first `c` in `s`, or `|s|` when there is none. */
  function IndexOf(s: string, c: char): (k: nat)
    ensures k <= |s|
    ensures k < |s| ==> s[k] == c
    ensures c !in s[..k]
  {
    if |s| == 0 then 0
    else if s[0] == c then 0
    else
      assert s[..1 + IndexOf(s[1..], c)] == [s[0]] + s[1..][..IndexOf(s[1..], c)];
      1 + IndexOf(s[1..], c)
  }

  /** Some `.` that is neither the first nor the last character. */
  predicate HasInnerDot(d: string) {
    exists j :: 0 < j < |d| - 1 && d[j] == '.'
  }

  predicate NoWhitespace(s: string) {
    forall c :: c in s ==> !IsJsWhitespace(c)
  }

  /** The e-mail test the way a backtracking match decides it: no whitespace; a first `@` that
      is not at the start; no second `@`; and after the `@`, a `.` with text on both sides. */
  function IsValidEmail(email: string): bool {
    var at := IndexOf(email, '@');
    && NoWhitespace(email)
    && 0 < at < |email|
    && '@' !in email[at + 1..]
    && HasInnerDot(email[at + 1..])
  }

  /** The first `c` of `p + [c] + w` is right after `p` when `p` has none. */
  lemma {:induction false} IndexOfAfterPiece(p: string, c: char, w: string)
    requires c !in p
    ensures IndexOf(p + [c] + w, c) == |p|
  {
    var s := p + [c] + w;
    if |p| > 0 {
      assert s[0] == p[0];
      assert s[1..] == p[1..] + [c] + w;
      IndexOfAfterPiece(p[1..], c, w);
    }
  }

  /** A non-empty slice of a whitespace-free string that has no `@` is a `[^\s@]+` run. */
  lemma RunInside(s: string, lo: nat, hi: nat)
    requires lo < hi <= |s| && '@' !in s[lo..hi] && NoWhitespace(s)
    ensures AddressRun(s[lo..hi])
  {
    forall c | c in s[lo..hi] ensures AddressChar(c) {
      var k :| 0 <= k < hi - lo && s[lo..hi][k] == c;
      assert s[lo + k] == c;
    }
  }

  /** A slice of a whitespace-free string is whitespace-free. */
  lemma NoWhitespaceTail(s: string, lo: nat)
    requires lo <= |s| && NoWhitespace(s)
    ensures NoWhitespace(s[lo..])
  {
    forall c | c in s[lo..] ensures !IsJsWhitespace(c) {
      var k :| 0 <= k < |s| - lo && s[lo..][k] == c;
      assert s[lo + k] == c;
    }
  }

  /** Cutting `s` at `at` and the rest at `j` puts the text back as `local @ host . tld`. */
  lemma Reassemble(s: string, at: nat, j: nat)
    requires at < |s| && s[at] == '@' && j + 1 < |s[at + 1..]| && s[at + 1..][j] == '.'
    ensures var d := s[at + 1..]; s == s[..at] + "@" + d[..j] + "." + d[j + 1..]
  {
    var d := s[at + 1..];
    assert d == d[..j] + "." + d[j + 1..];
    assert s == s[..at] + "@" + d;
  }

  /** Every string the test accepts is matched by the regular expression. */
  lemma AcceptedEmailMatchesPattern(s: string)
    requires IsValidEmail(s)
    ensures MatchesEmailPattern(s)
  {
    var at := IndexOf(s, '@');
    var d := s[at + 1..];
    var j :| 0 < j < |d| - 1 && d[j] == '.';
    Reassemble(s, at, j);
    assert s[0..at] == s[..at];
    assert d[..j] == d[0..j] && d[j + 1..] == d[j + 1..|d|];
    RunInside(s, 0, at);
    NoWhitespaceTail(s, at + 1);
    RunInside(d, 0, j);
    RunInside(d, j + 1, |d|);
    MatchedBy(s, s[..at], d[..j], d[j + 1..]);
  }

  /** Three runs joined by `@` and `.` match the pattern. */
  lemma MatchedBy(s: string, local: string, host: string, tld: string)
    requires AddressRun(local) && AddressRun(host) && AddressRun(tld)
    requires s == local + "@" + host + "." + tld
    ensures MatchesEmailPattern(s)
  {
  }

  /** Every string the regular expression matches is accepted by the test. */
  lemma PatternPassesEmailTest(local: string, host: string, tld: string)
    requires AddressRun(local) && AddressRun(host) && AddressRun(tld)
    ensures IsValidEmail(local + "@" + host + "." + tld)
  {
    var s := local + "@" + host + "." + tld;
    var d := host + "." + tld;
    assert '@' !in local && '@' !in host && '@' !in tld;
    assert s == local + ['@'] + d;
    IndexOfAfterPiece(local, '@', d);
    assert s[|local| + 1..] == d;
    assert d[|host|] == '.';
  }

  /** The test accepts exactly the strings the regular expression matches. */
  lemma IsValidEmailMatchesPattern(s: string)
    ensures IsValidEmail(s) <==> MatchesEmailPattern(s)
  {
    if IsValidEmail(s) {
      AcceptedEmailMatchesPattern(s);
    }
    if MatchesEmailPattern(s) {
      var local, host, tld :| AddressRun(local) && AddressRun(host) && AddressRun(tld)
                              && s == local + "@" + host + "." + tld;
      PatternPassesEmailTest(local, host, tld);
    }
  }

  /** Occurrences of `c` in `s`. */
  function CountChar(s: string, c: char): nat {
    if |s| == 0 then 0 else (if s[0] == c then 1 else 0) + CountChar(s[1..], c)
  }

  lemma {:induction false} CountCharAppend(s: string, t: string, c: char)
    ensures CountChar(s + t, c) == CountChar(s, c) + CountChar(t, c)
  {
    if |s| > 0 {
      assert (s + t)[0] == s[0];
      assert (s + t)[1..] == s[1..] + t;
      CountCharAppend(s[1..], t, c);
    } else {
      assert s + t == t;
    }
  }

  lemma {:induction false} CountCharAbsent(s: string, c: char)
    requires c !in s
    ensures CountChar(s, c) == 0
  {
    if |s| > 0 {
      CountCharAbsent(s[1..], c);
    }
  }

  /** What an accepted address looks like: exactly one `@`, a non-empty local part before it, a
      domain after it with a `.` that is neither its first nor its last character, and no
      whitespace anywhere. */
  lemma ValidEmailShape(s: string)
    requires IsValidEmail(s)
    ensures CountChar(s, '@') == 1
    ensures var at := IndexOf(s, '@'); at > 0 && HasInnerDot(s[at + 1..])
    ensures NoWhitespace(s)
  {
    var at := IndexOf(s, '@');
    assert s == s[..at] + [s[at]] + s[at + 1..];
    CountCharAppend(s[..at] + [s[at]], s[at + 1..], '@');
    CountCharAppend(s[..at], [s[at]], '@');
    CountCharAbsent(s[..at], '@');
    CountCharAbsent(s[at + 1..], '@');
  }

  // ---------------------------------------------------------------------------------------------
  // Password: `validatePassword(password)`

  datatype PasswordErrors = PasswordErrors(tooShort: bool, noUpperCase: bool, noLowerCase: bool, noNumbers: bool)

  datatype PasswordCheck = PasswordCheck(isValid: bool, errors: PasswordErrors)

  /** `password.length`: JavaScript counts UTF-16 code units, so a character outside the Basic
      Multilingual Plane counts twice. */
  function Utf16Length(s: string): (n: nat)
    ensures |s| <= n <= 2 * |s|
  {
    if |s| == 0 then 0 else (if s[0] as int > 0xFFFF then 2 else 1) + Utf16Length(s[1..])
  }

  lemma {:induction false} Utf16LengthAppend(s: string, t: string)
    ensures Utf16Length(s + t) == Utf16Length(s) + Utf16Length(t)
  {
    if |s| > 0 {
      assert (s + t)[0] == s[0];
      assert (s + t)[1..] == s[1..] + t;
      Utf16LengthAppend(s[1..], t);
    } else {
      assert s + t == t;
    }
  }

  /** `/[lo-hi]/.test(s)` */
  function HasCharIn(s: string, lo: char, hi: char): (b: bool)
    ensures b <==> exists i :: 0 <= i < |s| && lo <= s[i] <= hi
  {
    if |s| == 0 then false
    else if lo <= s[0] <= hi then true
    else
      assert forall i :: 1 <= i < |s| ==> s[i] == s[1..][i - 1];
      HasCharIn(s[1..], lo, hi)
  }

  /** `Object.values(errors)`, in declaration order. */
  function Flags(e: PasswordErrors): seq<bool> {
    [e.tooShort, e.noUpperCase, e.noLowerCase, e.noNumbers]
  }

  /** `flags.some(error => error)` */
  function AnyRaised(flags: seq<bool>): (b: bool)
    ensures b <==> exists i :: 0 <= i < |flags| && flags[i]
  {
    if |flags| == 0 then false
    else
      assert forall i :: 1 <= i < |flags| ==> flags[i] == flags[1..][i - 1];
      flags[0] || AnyRaised(flags[1..])
  }

  /** The strength report: each flag names one missing requirement, in ASCII ranges only, and the
      password is valid exactly when no flag is raised. */
  function ValidatePassword(password: string): (r: PasswordCheck)
    ensures r.errors.tooShort <==> Utf16Length(password) < 8
    ensures r.errors.noUpperCase <==> forall i :: 0 <= i < |password| ==> !('A' <= password[i] <= 'Z')
    ensures r.errors.noLowerCase <==> forall i :: 0 <= i < |password| ==> !('a' <= password[i] <= 'z')
    ensures r.errors.noNumbers <==> forall i :: 0 <= i < |password| ==> !('0' <= password[i] <= '9')
    ensures r.isValid <==> !r.errors.tooShort && !r.errors.noUpperCase && !r.errors.noLowerCase && !r.errors.noNumbers
  {
    var errors := PasswordErrors(
      tooShort := Utf16Length(password) < 8,
      noUpperCase := !HasCharIn(password, 'A', 'Z'),
      noLowerCase := !HasCharIn(password, 'a', 'z'),
      noNumbers := !HasCharIn(password, '0', '9'));
    assert Flags(errors)[0] == errors.tooShort && Flags(errors)[1] == errors.noUpperCase;
    assert Flags(errors)[2] == errors.noLowerCase && Flags(errors)[3] == errors.noNumbers;
    PasswordCheck(isValid := !AnyRaised(Flags(errors)), errors := errors)
  }

  /** Appending text never raises a flag that was clear, so a valid password stays valid. */
  lemma ExtendingKeepsPasswordValid(password: string, more: string)
    ensures var before, after := ValidatePassword(password).errors, ValidatePassword(password + more).errors;
      && (after.tooShort ==> before.tooShort)
      && (after.noUpperCase ==> before.noUpperCase)
      && (after.noLowerCase ==> before.noLowerCase)
      && (after.noNumbers ==> before.noNumbers)
    ensures ValidatePassword(password).isValid ==> ValidatePassword(password + more).isValid
  {
    Utf16LengthAppend(password, more);
    var longer := password + more;
    assert forall i :: 0 <= i < |password| ==> longer[i] == password[i];
  }
}
