/**
 Models of the Go standard-library string routines the watcher relies on:
 strings.Split, strings.Join, strings.Trim/TrimSpace, strings.Fields and
 decimal formatting of unsigned integers (fmt's %d). Strings are sequences of
 characters; every input the watcher handles is ASCII, so characters and
 bytes coincide.
 */
module GoStrings {

  /** The characters for which Go's unicode.IsSpace holds. */
  const Whitespace: set<char> := {
    ' ', '\t', '\n', '\U{B}', '\U{C}', '\r', '\U{85}', '\U{A0}', '\U{1680}',
    '\U{2000}', '\U{2001}', '\U{2002}', '\U{2003}', '\U{2004}', '\U{2005}',
    '\U{2006}', '\U{2007}', '\U{2008}', '\U{2009}', '\U{200A}',
    '\U{2028}', '\U{2029}', '\U{202F}', '\U{205F}', '\U{3000}'
  }

  /** No character of `s` belongs to `cut`. */
  predicate Avoids(s: string, cut: set<char>) {
    forall i :: 0 <= i < |s| ==> s[i] !in cut
  }

  /** Number of characters of `s` that belong to `seps`. */
  function CountIn(s: string, seps: set<char>): nat
    decreases |s|
  {
    if |s| == 0 then 0
    else (if s[0] in seps then 1 else 0) + CountIn(s[1..], seps)
  }

  /**
   The pieces of `s` between separator characters. With a one-character set
   this is strings.Split: one more piece than there are separators, and no
   piece contains a separator.
   */
  function SplitAny(s: string, seps: set<char>): (parts: seq<string>)
    ensures |parts| == CountIn(s, seps) + 1
    ensures forall i :: 0 <= i < |parts| ==> Avoids(parts[i], seps)
    decreases |s|
  {
    if |s| == 0 then [""]
    else
      var rest := SplitAny(s[1..], seps);
      if s[0] in seps then [""] + rest
      else [[s[0]] + rest[0]] + rest[1..]
  }

  /** strings.Split(s, string(sep)). */
  function Split(s: string, sep: char): seq<string> {
    SplitAny(s, {sep})
  }

  /** strings.Join(parts, string(sep)). */
  function JoinWith(parts: seq<string>, sep: char): string
    decreases |parts|
  {
    if |parts| == 0 then ""
    else if |parts| == 1 then parts[0]
    else parts[0] + [sep] + JoinWith(parts[1..], sep)
  }

  /** A string free of separators is a single piece. */
  lemma {:induction false} SplitAvoiding(a: string, seps: set<char>)
    requires Avoids(a, seps)
    ensures SplitAny(a, seps) == [a]
    decreases |a|
  {
    if |a| > 0 {
      SplitAvoiding(a[1..], seps);
      assert [a[0]] + a[1..] == a;
    }
  }

  /** Splitting stops at the first separator. */
  lemma {:induction false} SplitAtSeparator(a: string, c: char, b: string, seps: set<char>)
    requires Avoids(a, seps) && c in seps
    ensures SplitAny(a + [c] + b, seps) == [a] + SplitAny(b, seps)
    decreases |a|
  {
    var s := a + [c] + b;
    if |a| == 0 {
      assert s[1..] == b;
    } else {
      assert s[1..] == a[1..] + [c] + b;
      SplitAtSeparator(a[1..], c, b, seps);
      assert [a[0]] + a[1..] == a;
    }
  }

  /** Splitting a join of separator-free pieces gives the pieces back. */
  lemma {:induction false} SplitJoin(parts: seq<string>, sep: char, seps: set<char>)
    requires |parts| >= 1 && sep in seps
    requires forall i :: 0 <= i < |parts| ==> Avoids(parts[i], seps)
    ensures SplitAny(JoinWith(parts, sep), seps) == parts
    decreases |parts|
  {
    if |parts| == 1 {
      SplitAvoiding(parts[0], seps);
    } else {
      SplitJoin(parts[1..], sep, seps);
      SplitAtSeparator(parts[0], sep, JoinWith(parts[1..], sep), seps);
      assert [parts[0]] + parts[1..] == parts;
    }
  }

  /** Joining the pieces of a split with the same separator restores the string. */
  lemma {:induction false} JoinSplit(s: string, sep: char)
    ensures JoinWith(Split(s, sep), sep) == s
    decreases |s|
  {
    if |s| > 0 {
      var rest := Split(s[1..], sep);
      JoinSplit(s[1..], sep);
      if s[0] == sep {
        assert ([""] + rest)[1..] == rest;
      } else if |rest| > 1 {
        assert ([[s[0]] + rest[0]] + rest[1..])[1..] == rest[1..];
        assert s == [s[0]] + s[1..];
      } else {
        assert s == [s[0]] + s[1..];
      }
    }
  }

  /** A separator occurs in `s` exactly when the split has more than one piece. */
  lemma {:induction false} SplitMany(s: string, sep: char)
    ensures |Split(s, sep)| >= 2 <==> sep in s
    decreases |s|
  {
    if |s| > 0 {
      SplitMany(s[1..], sep);
      assert sep in s <==> s[0] == sep || sep in s[1..];
    }
  }

  /** strings.TrimLeft: drops the leading characters that belong to `cut`. */
  function TrimLeft(s: string, cut: set<char>): (r: string)
    ensures |r| <= |s| && r == s[|s| - |r|..]
    ensures forall i :: 0 <= i < |s| - |r| ==> s[i] in cut
    ensures |r| > 0 ==> r[0] !in cut
    decreases |s|
  {
    if |s| > 0 && s[0] in cut then TrimLeft(s[1..], cut) else s
  }

  /** strings.TrimRight: drops the trailing characters that belong to `cut`. */
  function TrimRight(s: string, cut: set<char>): (r: string)
    ensures |r| <= |s| && r == s[..|r|]
    ensures forall i :: |r| <= i < |s| ==> s[i] in cut
    ensures |r| > 0 ==> r[|r| - 1] !in cut
    decreases |s|
  {
    if |s| > 0 && s[|s| - 1] in cut then TrimRight(s[..|s| - 1], cut) else s
  }

  /** strings.Trim(s, cutset). */
  function Trim(s: string, cut: set<char>): string {
    TrimRight(TrimLeft(s, cut), cut)
  }

  /** strings.TrimSpace. */
  function TrimSpace(s: string): string {
    Trim(s, Whitespace)
  }

  /** The non-empty pieces, in order. */
  function NonEmpty(parts: seq<string>): (r: seq<string>)
    ensures forall i :: 0 <= i < |r| ==> |r[i]| > 0
    decreases |parts|
  {
    if |parts| == 0 then []
    else if |parts[0]| == 0 then NonEmpty(parts[1..])
    else [parts[0]] + NonEmpty(parts[1..])
  }

  /** strings.Fields: the maximal runs of non-space characters. */
  function Fields(s: string): seq<string> {
    NonEmpty(SplitAny(s, Whitespace))
  }

  predicate IsDigit(c: char) {
    '0' <= c <= '9'
  }

  predicate AllDigits(s: string) {
    forall i :: 0 <= i < |s| ==> IsDigit(s[i])
  }

  function DigitValue(c: char): (d: nat)
    requires IsDigit(c)
    ensures d < 10
  {
    c as int - '0' as int
  }

  function DigitChar(d: nat): (c: char)
    requires d < 10
    ensures IsDigit(c) && DigitValue(c) == d
  {
    ('0' as int + d) as char
  }

  /** The value of a string of decimal digits (leading zeros allowed). */
  function DecimalValue(s: string): nat
    requires AllDigits(s)
    decreases |s|
  {
    if |s| == 0 then 0
    else DecimalValue(s[..|s| - 1]) * 10 + DigitValue(s[|s| - 1])
  }

  /**
   fmt's %d for a non-negative integer: the shortest decimal numeral, which
   has no leading zero unless it is "0", and whose value is `n`.
   */
  function Decimal(n: nat): (s: string)
    ensures |s| >= 1 && AllDigits(s)
    ensures s[0] == '0' ==> s == "0"
    ensures DecimalValue(s) == n
    decreases n
  {
    if n < 10 then [DigitChar(n)]
    else
      var s := Decimal(n / 10) + [DigitChar(n % 10)];
      assert s[..|s| - 1] == Decimal(n / 10);
      s
  }

  /** A canonical numeral (no leading zero) is the %d rendering of its value. */
  lemma {:induction false} DecimalCanonical(s: string)
    requires |s| >= 1 && AllDigits(s)
    requires |s| > 1 ==> s[0] != '0'
    ensures Decimal(DecimalValue(s)) == s
    decreases |s|
  {
    var g := s[..|s| - 1];
    var x := s[|s| - 1];
    if |s| == 1 {
      assert DecimalValue(s) == DigitValue(x);
      assert DigitChar(DigitValue(x)) == x;
    } else {
      assert g[0] == s[0];
      DecimalCanonical(g);
      if DecimalValue(g) == 0 {
        DecimalZero(g);
        assert false;
      }
      var v := DecimalValue(s);
      assert v / 10 == DecimalValue(g) && v % 10 == DigitValue(x);
      assert DigitChar(DigitValue(x)) == x;
      assert s == g + [x];
    }
  }

  /** A numeral of value zero consists of zeros only. */
  lemma {:induction false} DecimalZero(s: string)
    requires AllDigits(s) && DecimalValue(s) == 0
    ensures forall i :: 0 <= i < |s| ==> s[i] == '0'
    decreases |s|
  {
    if |s| > 0 {
      var g := s[..|s| - 1];
      DecimalZero(g);
      assert forall i :: 0 <= i < |s| - 1 ==> s[i] == g[i];
    }
  }

  /** Distinct numbers have distinct renderings. */
  lemma DecimalInjective(m: nat, n: nat)
    requires Decimal(m) == Decimal(n)
    ensures m == n
  {
    assert m == DecimalValue(Decimal(m));
  }
}
