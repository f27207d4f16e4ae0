/** String primitives of JavaScript that the application relies on:
    `String.prototype.trim`, `split` on a one-character separator,
    `toLowerCase` (on ASCII letters) and the decimal rendering and reading of
    numbers that property access on strings and `Number.prototype.toString`
    use. */
module Strings {
  import opened Wrappers

  /** The characters `trim` removes: ECMAScript WhiteSpace and LineTerminator. */
  predicate IsSpace(c: char) {
    || c == '\t' || c == '\n' || c == '\U{000B}' || c == '\U{000C}' || c == '\r'
    || c == ' ' || c == '\U{00A0}' || c == '\U{1680}' || ('\U{2000}' <= c <= '\U{200A}')
    || c == '\U{2028}' || c == '\U{2029}' || c == '\U{202F}' || c == '\U{205F}'
    || c == '\U{3000}' || c == '\U{FEFF}'
  }

  predicate AllSpace(s: string) {
    forall i :: 0 <= i < |s| ==> IsSpace(s[i])
  }

  /** Number of whitespace characters at the start of `s`. */
  function LeadingSpaces(s: string): (n: nat)
    ensures n <= |s|
    ensures forall i :: 0 <= i < n ==> IsSpace(s[i])
    ensures n == |s| || !IsSpace(s[n])
  {
    if s != [] && IsSpace(s[0]) then 1 + LeadingSpaces(s[1..]) else 0
  }

  /** Number of whitespace characters at the end of `s`. */
  function TrailingSpaces(s: string): (n: nat)
    ensures n <= |s|
    ensures forall i :: |s| - n <= i < |s| ==> IsSpace(s[i])
    ensures n == |s| || !IsSpace(s[|s| - 1 - n])
  {
    if s != [] && IsSpace(s[|s| - 1]) then 1 + TrailingSpaces(s[..|s| - 1]) else 0
  }

  /** `s.trim()`: whitespace removed from both ends. */
  function Trim(s: string): string {
    TrimEnd(TrimStart(s))
  }

  function TrimStart(s: string): string {
    if s != [] && IsSpace(s[0]) then TrimStart(s[1..]) else s
  }

  function TrimEnd(s: string): string {
    if s != [] && IsSpace(s[|s| - 1]) then TrimEnd(s[..|s| - 1]) else s
  }

  lemma {:induction false} TrimStartDrops(s: string)
    ensures TrimStart(s) == s[LeadingSpaces(s)..]
  {
    if s != [] && IsSpace(s[0]) {
      TrimStartDrops(s[1..]);
    }
  }

  lemma {:induction false} TrimEndDrops(s: string)
    ensures TrimEnd(s) == s[..|s| - TrailingSpaces(s)]
  {
    if s != [] && IsSpace(s[|s| - 1]) {
      TrimEndDrops(s[..|s| - 1]);
    }
  }

  /** What `trim` returns: the longest infix of `s` that neither starts nor
      ends with whitespace, obtained by dropping only whitespace on both
      sides; it is empty exactly when `s` is all whitespace. */
  lemma TrimSpec(s: string)
    ensures var r := Trim(s);
      && LeadingSpaces(s) + |r| <= |s|
      && r == s[LeadingSpaces(s)..LeadingSpaces(s) + |r|]
      && AllSpace(s[..LeadingSpaces(s)]) && AllSpace(s[LeadingSpaces(s) + |r|..])
      && (r == [] || (!IsSpace(r[0]) && !IsSpace(r[|r| - 1])))
      && (r == [] <==> AllSpace(s))
  {
    var a := LeadingSpaces(s);
    var t := s[a..];
    TrimStartDrops(s);
    TrimEndDrops(t);
    var r := t[..|t| - TrailingSpaces(t)];
    assert Trim(s) == r;
    assert r != [] ==> r[0] == s[a];
  }

  /** Trimming twice is trimming once. */
  lemma TrimIdempotent(s: string)
    ensures Trim(Trim(s)) == Trim(s)
  {
    var r := Trim(s);
    TrimSpec(s);
    TrimUnique(r, 0, r);
  }

  /** Whitespace padding on either side does not change the trimmed value,
      so `" alice "` and `"alice"` are the same input after `trim`. */
  lemma TrimPadded(p: string, s: string, q: string)
    requires AllSpace(p) && AllSpace(q)
    ensures Trim(p + s + q) == Trim(s)
  {
    var w := p + s + q;
    var r := Trim(s);
    TrimSpec(s);
    var a := LeadingSpaces(s);
    var b := |p| + a;
    assert w[b..b + |r|] == r by {
      assert w[|p|..|p| + |s|] == s;
    }
    assert AllSpace(w[..b]) by {
      assert w[..b] == p + s[..a];
    }
    assert AllSpace(w[b + |r|..]) by {
      assert w[b + |r|..] == s[a + |r|..] + q;
    }
    TrimUnique(w, b, r);
  }

  /** `Trim` is determined by its postcondition: an infix with whitespace
      around it and none at its ends is the trimmed value. */
  lemma TrimUnique(s: string, a: nat, r: string)
    requires a + |r| <= |s| && s[a..a + |r|] == r
    requires AllSpace(s[..a]) && AllSpace(s[a + |r|..])
    requires r == [] || (!IsSpace(r[0]) && !IsSpace(r[|r| - 1]))
    ensures Trim(s) == r
  {
    if r == [] {
      assert AllSpace(s) by {
        forall i | 0 <= i < |s| ensures IsSpace(s[i]) {
          if i < a { assert s[i] == s[..a][i]; } else { assert s[i] == s[a..][i - a]; }
        }
      }
      TrimSpec(s);
    } else {
      assert s[a] == r[0];
      assert forall i :: 0 <= i < a ==> s[i] == s[..a][i];
      LeadingSpacesExact(s, a);
      var t := s[a..];
      var n := |t| - |r|;
      assert t[|t| - 1 - n] == r[|r| - 1];
      assert forall i :: |t| - n <= i < |t| ==> t[i] == s[a + |r|..][i - |r|];
      TrailingSpacesExact(t, n);
      assert t[..|t| - n] == r;
      TrimStartDrops(s);
      TrimEndDrops(t);
    }
  }

  lemma {:induction false} LeadingSpacesExact(s: string, n: nat)
    requires n < |s| && !IsSpace(s[n])
    requires forall i :: 0 <= i < n ==> IsSpace(s[i])
    ensures LeadingSpaces(s) == n
  {
    if n > 0 {
      assert s[1..][n - 1] == s[n];
      LeadingSpacesExact(s[1..], n - 1);
    }
  }

  lemma {:induction false} TrailingSpacesExact(s: string, n: nat)
    requires n < |s| && !IsSpace(s[|s| - 1 - n])
    requires forall i :: |s| - n <= i < |s| ==> IsSpace(s[i])
    ensures TrailingSpaces(s) == n
  {
    if n > 0 {
      var s' := s[..|s| - 1];
      assert s'[|s'| - 1 - (n - 1)] == s[|s| - 1 - n];
      TrailingSpacesExact(s', n - 1);
    }
  }

  /** `s.split(sep)` for a one-character separator: the maximal pieces of `s`
      between occurrences of `sep`; an empty `s` gives one empty piece. */
  function Split(s: string, sep: char): (parts: seq<string>)
    ensures |parts| >= 1
    ensures forall i :: 0 <= i < |parts| ==> sep !in parts[i]
    ensures Join(parts, sep) == s
    ensures |parts| == 1 <==> sep !in s
  {
    if s == [] then [[]]
    else
      var rest := Split(s[1..], sep);
      if s[0] == sep then [[]] + rest
      else
        assert sep in s[1..] ==> sep in s;
        [[s[0]] + rest[0]] + rest[1..]
  }

  /** `parts.join(sep)`, the reference that `Split` inverts. */
  function Join(parts: seq<string>, sep: char): string
    requires |parts| >= 1
  {
    if |parts| == 1 then parts[0] else parts[0] + [sep] + Join(parts[1..], sep)
  }

  /** Splitting a joined sequence of separator-free pieces gives back the pieces. */
  lemma {:induction false} SplitJoin(parts: seq<string>, sep: char)
    requires |parts| >= 1
    requires forall i :: 0 <= i < |parts| ==> sep !in parts[i]
    ensures Split(Join(parts, sep), sep) == parts
  {
    if |parts| == 1 {
      SplitNoSeparator(parts[0], sep);
    } else {
      SplitJoin(parts[1..], sep);
      SplitAtSeparator(parts[0], Join(parts[1..], sep), sep);
    }
  }

  lemma {:induction false} SplitNoSeparator(w: string, sep: char)
    requires sep !in w
    ensures Split(w, sep) == [w]
  {
    if w != [] {
      assert sep !in w[1..];
      SplitNoSeparator(w[1..], sep);
      assert [w[0]] + w[1..] == w;
    }
  }

  lemma {:induction false} SplitAtSeparator(w: string, t: string, sep: char)
    requires sep !in w
    ensures Split(w + [sep] + t, sep) == [w] + Split(t, sep)
  {
    var s := w + [sep] + t;
    if w == [] {
      assert s[1..] == t;
    } else {
      assert s[1..] == w[1..] + [sep] + t;
      assert sep !in w[1..];
      SplitAtSeparator(w[1..], t, sep);
      assert [w[0]] + w[1..] == w;
    }
  }

  /** `toLowerCase` on one character, restricted to ASCII letters. */
  function LowerChar(c: char): (d: char)
    ensures 'A' <= c <= 'Z' ==> d as int == c as int + 32
    ensures !('A' <= c <= 'Z') ==> d == c
  {
    if 'A' <= c <= 'Z' then (c as int + 32) as char else c
  }

  function ToLower(s: string): (r: string)
    ensures |r| == |s|
    ensures forall i :: 0 <= i < |s| ==> r[i] == LowerChar(s[i])
  {
    seq(|s|, i requires 0 <= i < |s| => LowerChar(s[i]))
  }

  /** Lowering a lowered name changes nothing. */
  lemma ToLowerIdempotent(s: string)
    ensures ToLower(ToLower(s)) == ToLower(s)
  {
  }

  predicate IsDigit(c: char) { '0' <= c <= '9' }

  function DigitValue(c: char): (d: nat)
    requires IsDigit(c)
    ensures d < 10
  {
    c as int - '0' as int
  }

  function DigitChar(d: nat): (c: char)
    requires d < 10
    ensures IsDigit(c) && DigitValue(c) == d
  {
    ('0' as int + d) as char
  }

  /** The decimal numeral of `n`, without leading zeros. */
  function NatToString(n: nat): (s: string)
    ensures s != [] && forall i :: 0 <= i < |s| ==> IsDigit(s[i])
    ensures |s| == 1 || s[0] != '0'
  {
    if n < 10 then [DigitChar(n)] else NatToString(n / 10) + [DigitChar(n % 10)]
  }

  /** The decimal numeral of an integer, with a leading `-` when negative. */
  function IntToString(n: int): string {
    if n < 0 then "-" + NatToString(-n) else NatToString(n)
  }

  function DigitsValue(s: string): nat
    requires forall i :: 0 <= i < |s| ==> IsDigit(s[i])
  {
    if s == [] then 0 else DigitsValue(s[..|s| - 1]) * 10 + DigitValue(s[|s| - 1])
  }

  /** A canonical decimal numeral: non-empty digits, no leading zero. */
  predicate IsCanonicalNumeral(k: string) {
    k != [] && (forall i :: 0 <= i < |k| ==> IsDigit(k[i])) && (|k| == 1 || k[0] != '0')
  }

  /** The number a canonical numeral denotes; None for any other string. This is
      how a property name is recognised as an array index of a string. */
  function ParseNat(k: string): (r: Option<nat>)
    ensures r.Some? <==> IsCanonicalNumeral(k)
  {
    if IsCanonicalNumeral(k) then Some(DigitsValue(k)) else None
  }

  /** Reading back the numeral of `n` gives `n`. */
  lemma {:induction false} ParseNatToString(n: nat)
    ensures ParseNat(NatToString(n)) == Some(n)
  {
    DigitsValueToString(n);
  }

  lemma {:induction false} DigitsValueToString(n: nat)
    ensures DigitsValue(NatToString(n)) == n
  {
    if n >= 10 {
      var s := NatToString(n);
      assert s[..|s| - 1] == NatToString(n / 10);
      DigitsValueToString(n / 10);
    }
  }

  /** Every canonical numeral is the numeral of the number it denotes. */
  lemma {:induction false} NatToStringParse(k: string)
    requires IsCanonicalNumeral(k)
    ensures NatToString(DigitsValue(k)) == k
  {
    if |k| > 1 {
      var k' := k[..|k| - 1];
      var d := DigitValue(k[|k| - 1]);
      assert k'[0] == k[0];
      assert IsCanonicalNumeral(k');
      LeadingDigitPositive(k');
      NatToStringParse(k');
      var v := DigitsValue(k');
      var n := DigitsValue(k);
      assert n == v * 10 + d;
      assert n >= 10;
      assert n / 10 == v && n % 10 == d;
      assert DigitChar(d) == k[|k| - 1];
      assert NatToString(n) == NatToString(v) + [DigitChar(d)];
      assert k == k' + [k[|k| - 1]];
    }
  }

  lemma {:induction false} LeadingDigitPositive(s: string)
    requires s != [] && (forall i :: 0 <= i < |s| ==> IsDigit(s[i])) && s[0] != '0'
    ensures DigitsValue(s) > 0
  {
    if |s| > 1 {
      assert s[..|s| - 1][0] == s[0];
      LeadingDigitPositive(s[..|s| - 1]);
    }
  }
}
