/** String operations the source performs with `String.prototype.split`, `Array.prototype.pop`,
    `[0]` and template literals: splitting on one separator character, taking the first or the
    last piece, and writing a non-negative integer in decimal. */
module Text {

  /** `s.split(sep)` for a one-character separator: the maximal pieces between separators,
      always at least one (the empty string splits into `[""]`). */
  function Split(s: string, sep: char): (parts: seq<string>)
    ensures |parts| >= 1
    ensures forall p :: p in parts ==> sep !in p
  {
    if |s| == 0 then [""]
    else
      var rest := Split(s[1..], sep);
      if s[0] == sep then [""] + rest
      else [[s[0]] + rest[0]] + rest[1..]
  }

  /** `parts.join(sep)`. */
  function Join(parts: seq<string>, sep: char): string
    requires |parts| >= 1
  {
    if |parts| == 1 then parts[0] else parts[0] + [sep] + Join(parts[1..], sep)
  }

  /** Joining the pieces of a split gives back the original string. */
  lemma {:induction false} JoinSplit(s: string, sep: char)
    ensures Join(Split(s, sep), sep) == s
  {
    if |s| > 0 {
      var rest := Split(s[1..], sep);
      JoinSplit(s[1..], sep);
      if s[0] == sep {
        assert Split(s, sep)[1..] == rest;
      } else if |rest| > 1 {
        assert Split(s, sep)[1..] == rest[1..];
        assert Join(rest, sep) == rest[0] + [sep] + Join(rest[1..], sep);
        assert s == [s[0]] + s[1..];
      } else {
        assert s == [s[0]] + s[1..];
      }
    }
  }

  /** A string without the separator is a single piece. */
  lemma {:induction false} SplitWithoutSeparator(p: string, sep: char)
    requires sep !in p
    ensures Split(p, sep) == [p]
  {
    if |p| > 0 {
      SplitWithoutSeparator(p[1..], sep);
      assert p == [p[0]] + p[1..];
    }
  }

  /** Splitting `p + sep + w`, where `p` has no separator, yields `p` followed by the pieces of `w`. */
  lemma {:induction false} SplitAfterPiece(p: string, sep: char, w: string)
    requires sep !in p
    ensures Split(p + [sep] + w, sep) == [p] + Split(w, sep)
  {
    if |p| == 0 {
      assert p + [sep] + w == [sep] + w;
      assert ([sep] + w)[1..] == w;
    } else {
      var s := p + [sep] + w;
      assert s[0] == p[0];
      assert s[1..] == p[1..] + [sep] + w;
      SplitAfterPiece(p[1..], sep, w);
      assert [p[0]] + p[1..] == p;
    }
  }

  /** Splitting a join of separator-free pieces gives the pieces back. */
  lemma {:induction false} SplitJoin(parts: seq<string>, sep: char)
    requires |parts| >= 1
    requires forall p :: p in parts ==> sep !in p
    ensures Split(Join(parts, sep), sep) == parts
  {
    if |parts| == 1 {
      SplitWithoutSeparator(parts[0], sep);
    } else {
      assert parts[0] in parts;
      forall p | p in parts[1..] ensures sep !in p {
        assert p in parts;
      }
      SplitJoin(parts[1..], sep);
      SplitAfterPiece(parts[0], sep, Join(parts[1..], sep));
    }
  }

  /** A join of two or more pieces ends with the separator and the last piece. */
  lemma {:induction false} JoinLast(parts: seq<string>, sep: char)
    requires |parts| >= 2
    ensures Join(parts, sep) == Join(parts[..|parts| - 1], sep) + [sep] + parts[|parts| - 1]
  {
    if |parts| > 2 {
      JoinLast(parts[1..], sep);
      assert parts[1..][..|parts| - 2] == parts[..|parts| - 1][1..];
    } else {
      assert parts[..1] == [parts[0]];
    }
  }

  /** `s.split(sep).pop()`: the text after the last separator, or all of `s` when it has none. */
  function LastPiece(s: string, sep: char): string {
    var parts := Split(s, sep);
    parts[|parts| - 1]
  }

  /** `s.split(sep)[0]`: the text before the first separator, or all of `s` when it has none. */
  function FirstPiece(s: string, sep: char): string {
    Split(s, sep)[0]
  }

  /** The last piece has no separator, ends `s`, and is preceded by a separator unless it is all of `s`;
      it is all of `s` exactly when `s` has no separator. */
  lemma LastPieceIsAfterLastSeparator(s: string, sep: char)
    ensures var r := LastPiece(s, sep);
      && sep !in r
      && |r| <= |s| && s[|s| - |r|..] == r
      && (|r| < |s| ==> s[|s| - |r| - 1] == sep)
      && (|r| == |s| <==> sep !in s)
  {
    var parts := Split(s, sep);
    var r := parts[|parts| - 1];
    assert r in parts;
    JoinSplit(s, sep);
    if |parts| >= 2 {
      JoinLast(parts, sep);
      var front := Join(parts[..|parts| - 1], sep);
      assert s == front + [sep] + r;
      assert s[|s| - |r| - 1] == sep;
      assert s[|s| - |r|..] == r;
    }
  }

  /** The first piece has no separator, starts `s`, and is followed by a separator unless it is all of `s`;
      it is all of `s` exactly when `s` has no separator. */
  lemma FirstPieceIsBeforeFirstSeparator(s: string, sep: char)
    ensures var r := FirstPiece(s, sep);
      && sep !in r
      && |r| <= |s| && s[..|r|] == r
      && (|r| < |s| ==> s[|r|] == sep)
      && (|r| == |s| <==> sep !in s)
  {
    var parts := Split(s, sep);
    var r := parts[0];
    assert r in parts;
    JoinSplit(s, sep);
    if |parts| >= 2 {
      var back := Join(parts[1..], sep);
      assert s == r + [sep] + back;
      assert s[|r|] == sep;
      assert s[..|r|] == r;
    }
  }

  /** The last piece of `s` is `x` exactly when `s` is `x` or ends with a separator followed by `x`. */
  lemma LastPieceEquals(s: string, sep: char, x: string)
    requires sep !in x
    ensures LastPiece(s, sep) == x <==> (s == x || (|s| > |x| && s[|s| - |x| - 1] == sep && s[|s| - |x|..] == x))
  {
    LastPieceIsAfterLastSeparator(s, sep);
  }

  // Decimal text of a non-negative integer, as a template literal writes a JavaScript integer
  // (below 10^21, where JavaScript would switch to exponent notation).

  function DigitChar(d: nat): (c: char)
    requires d < 10
    ensures '0' <= c <= '9' && c as int - '0' as int == d
  {
    (d + '0' as int) as char
  }

  predicate AllDigits(s: string) {
    forall i :: 0 <= i < |s| ==> '0' <= s[i] <= '9'
  }

  /** The decimal digits of `n`, most significant first, without leading zeros. */
  function Decimal(n: nat): (s: string)
    ensures |s| >= 1 && AllDigits(s)
    ensures |s| > 1 ==> s[0] != '0'
  {
    if n < 10 then [DigitChar(n)] else Decimal(n / 10) + [DigitChar(n % 10)]
  }

  /** The value of a string of decimal digits. */
  function ParseDecimal(s: string): nat
    requires AllDigits(s)
  {
    if |s| == 0 then 0
    else 10 * ParseDecimal(s[..|s| - 1]) + (s[|s| - 1] as int - '0' as int)
  }

  /** Reading the decimal text of `n` gives `n` back. */
  lemma {:induction false} ParseDecimalOfDecimal(n: nat)
    ensures ParseDecimal(Decimal(n)) == n
  {
    if n >= 10 {
      var s := Decimal(n);
      assert s[..|s| - 1] == Decimal(n / 10);
      ParseDecimalOfDecimal(n / 10);
    }
  }

  /** Different numbers have different decimal text. */
  lemma DecimalInjective(m: nat, n: nat)
    requires Decimal(m) == Decimal(n)
    ensures m == n
  {
    ParseDecimalOfDecimal(m);
    ParseDecimalOfDecimal(n);
  }

  /** Decimal text contains neither `-` nor `.`. */
  lemma DecimalHasNoSeparators(n: nat)
    ensures '-' !in Decimal(n) && '.' !in Decimal(n)
  {
  }

  /** If `x + sep + u == y + sep + v` and neither `x` nor `y` contains `sep`, then the two
      decompositions are the same: the first separator fixes the split point. */
  lemma CutAtSeparator(x: string, u: string, y: string, v: string, sep: char)
    requires sep !in x && sep !in y
    requires x + [sep] + u == y + [sep] + v
    ensures x == y && u == v
  {
    SplitAfterPiece(x, sep, u);
    SplitAfterPiece(y, sep, v);
    var s := x + [sep] + u;
    assert x == FirstPiece(s, sep) == y;
    assert u == s[|x| + 1..] == v;
  }
}
