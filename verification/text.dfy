/**
 The Python string built-ins the modelled code leans on, over `string`
 (a sequence of code points): `isspace`, `split()`, `sep.join`, `strip`,
 `splitlines`, `lower`, `endswith`, slicing and `str(int)`.
 */
module Text {

  /** Python's `str.isspace()` on one character: the whitespace set of CPython. */
  predicate IsSpace(c: char) {
    var k := c as int;
    || k == 0x20
    || 0x09 <= k <= 0x0D
    || 0x1C <= k <= 0x1F
    || k == 0x85 || k == 0xA0 || k == 0x1680
    || 0x2000 <= k <= 0x200A
    || k == 0x2028 || k == 0x2029 || k == 0x202F || k == 0x205F || k == 0x3000
  }

  /** A line boundary of `str.splitlines()`. Every one of them is also whitespace. */
  predicate IsLineBreak(c: char) {
    var k := c as int;
    || 0x0A <= k <= 0x0D
    || 0x1C <= k <= 0x1E
    || k == 0x85 || k == 0x2028 || k == 0x2029
  }

  predicate AllSpace(s: string) {
    forall i :: 0 <= i < |s| ==> IsSpace(s[i])
  }

  predicate NoSpace(s: string) {
    forall i :: 0 <= i < |s| ==> !IsSpace(s[i])
  }

  predicate NoLineBreak(s: string) {
    forall i :: 0 <= i < |s| ==> !IsLineBreak(s[i])
  }

  function Min(a: int, b: int): int {
    if a <= b then a else b
  }

  // ---------------------------------------------------------------------------
  // split() and join()
  // ---------------------------------------------------------------------------

  /** Length of the run of non-whitespace characters `s` starts with. */
  function WordLen(s: string): (k: nat)
    ensures k <= |s|
    ensures NoSpace(s[..k])
    ensures k == |s| || IsSpace(s[k])
  {
    if |s| == 0 || IsSpace(s[0]) then 0 else 1 + WordLen(s[1..])
  }

  /** Python's `s.split()`: the maximal runs of non-whitespace characters, in order. */
  function Words(s: string): (ws: seq<string>)
    ensures forall i :: 0 <= i < |ws| ==> ws[i] != "" && NoSpace(ws[i])
    decreases |s|
  {
    if |s| == 0 then []
    else if IsSpace(s[0]) then Words(s[1..])
    else
      var k := WordLen(s);
      [s[..k]] + Words(s[k..])
  }

  /** Total length of the parts. */
  function SumLengths(parts: seq<string>): nat {
    if |parts| == 0 then 0 else |parts[0]| + SumLengths(parts[1..])
  }

  /** Python's `sep.join(parts)`. */
  function Join(parts: seq<string>, sep: string): (r: string)
    ensures |parts| == 0 ==> r == ""
    ensures |parts| > 0 ==> |r| >= SumLengths(parts)
    ensures |parts| > 0 ==> r[..|parts[0]|] == parts[0]
  {
    if |parts| == 0 then ""
    else if |parts| == 1 then parts[0]
    else parts[0] + sep + Join(parts[1..], sep)
  }

  /** A text splits into no words exactly when it is whitespace only (or empty). */
  lemma {:induction false} WordsEmptyIffAllSpace(s: string)
    ensures Words(s) == [] <==> AllSpace(s)
    decreases |s|
  {
    if |s| == 0 {
    } else if IsSpace(s[0]) {
      WordsEmptyIffAllSpace(s[1..]);
      if AllSpace(s[1..]) {
        forall i | 0 <= i < |s| ensures IsSpace(s[i]) {
          if i > 0 { assert s[i] == s[1..][i - 1]; }
        }
      }
    } else {
      assert !AllSpace(s);
    }
  }

  lemma {:induction false} WordLenOfWord(w: string, t: string)
    requires NoSpace(w)
    requires t == [] || IsSpace(t[0])
    ensures WordLen(w + t) == |w|
    decreases |w|
  {
    if |w| > 0 {
      assert (w + t)[1..] == w[1..] + t;
      WordLenOfWord(w[1..], t);
    }
  }

  /**
    Splitting single-space-joined words gives the words back: `split` undoes
    `' '.join` on whitespace-free, non-empty words.
   */
  lemma {:induction false} WordsOfJoin(ws: seq<string>)
    requires forall i :: 0 <= i < |ws| ==> ws[i] != "" && NoSpace(ws[i])
    ensures Words(Join(ws, " ")) == ws
    decreases |ws|
  {
    if |ws| == 0 {
    } else if |ws| == 1 {
      var w := ws[0];
      WordLenOfWord(w, "");
      assert w + "" == w;
      assert w[..|w|] == w && w[|w|..] == "";
    } else {
      var w, rest := ws[0], Join(ws[1..], " ");
      var s := w + " " + rest;
      assert Join(ws, " ") == s;
      WordLenOfWord(w, " " + rest);
      assert s == w + (" " + rest);
      assert s[..|w|] == w;
      assert s[|w|..] == " " + rest;
      assert (" " + rest)[1..] == rest;
      WordsOfJoin(ws[1..]);
      assert Words(s[|w|..]) == Words(rest);
      assert Words(s) == [w] + ws[1..];
    }
  }

  // ---------------------------------------------------------------------------
  // strip()
  // ---------------------------------------------------------------------------

  /** The length of the whitespace run at the start of `s`. */
  function LeadingSpace(s: string): (k: nat)
    ensures k <= |s|
    ensures forall i :: 0 <= i < k ==> IsSpace(s[i])
    ensures k == |s| || !IsSpace(s[k])
  {
    if |s| > 0 && IsSpace(s[0]) then 1 + LeadingSpace(s[1..]) else 0
  }

  /** The length of the whitespace run at the end of `s`. */
  function TrailingSpace(s: string): (k: nat)
    ensures k <= |s|
    ensures forall i :: |s| - k <= i < |s| ==> IsSpace(s[i])
    ensures k == |s| || !IsSpace(s[|s| - k - 1])
  {
    if |s| > 0 && IsSpace(s[|s| - 1]) then 1 + TrailingSpace(s[..|s| - 1]) else 0
  }

  /**
    `r` is what is left of `s` once a whitespace-only prefix and suffix are
    removed, and `r` neither begins nor ends with whitespace.
   */
  ghost predicate IsStripOf(r: string, s: string) {
    && (exists a :: 0 <= a <= |s| - |r| && s[a..a + |r|] == r && AllSpace(s[..a]) && AllSpace(s[a + |r|..]))
    && (r == "" || (!IsSpace(r[0]) && !IsSpace(r[|r| - 1])))
  }

  /** `IsStripOf` from an explicit position `a` of `r` inside `s` with whitespace all around. */
  lemma IsStripOfAt(r: string, s: string, a: nat)
    requires a + |r| <= |s| && s[a..a + |r|] == r
    requires forall i :: 0 <= i < a ==> IsSpace(s[i])
    requires forall i :: a + |r| <= i < |s| ==> IsSpace(s[i])
    requires r == "" || (!IsSpace(r[0]) && !IsSpace(r[|r| - 1]))
    ensures IsStripOf(r, s)
  {
    var e := a + |r|;
    forall i | 0 <= i < a ensures IsSpace(s[..a][i]) { assert s[..a][i] == s[i]; }
    forall i | 0 <= i < |s| - e ensures IsSpace(s[e..][i]) { assert s[e..][i] == s[e + i]; }
  }

  /**
    Cutting a whitespace run ending before a non-whitespace `s[a]` and a
    whitespace run starting after a non-whitespace `s[b - 1]` off `s` leaves its strip.
   */
  lemma StripWitness(s: string, a: nat, b: nat)
    requires a < |s| && !IsSpace(s[a]) && forall i :: 0 <= i < a ==> IsSpace(s[i])
    requires b <= |s| && (b == 0 || !IsSpace(s[b - 1])) && forall i :: b <= i < |s| ==> IsSpace(s[i])
    ensures a < b && IsStripOf(s[a..b], s)
  {
    assert a < b;
    var r := s[a..b];
    assert r[0] == s[a];
    assert r[|r| - 1] == s[a + (|r| - 1)];
    IsStripOfAt(r, s, a);
  }

  /** Python's `s.strip()`. */
  function Strip(s: string): (r: string)
    ensures IsStripOf(r, s)
  {
    var a := LeadingSpace(s);
    if a == |s| then
      assert s[a..a] == "";
      IsStripOfAt("", s, a);
      ""
    else
      var b := |s| - TrailingSpace(s);
      StripWitness(s, a, b);
      s[a..b]
  }

  /** `s[..a]` and `s[a..]` both all whitespace make `s` all whitespace. */
  lemma AllSpaceSplit(s: string, a: nat)
    requires a <= |s| && AllSpace(s[..a]) && AllSpace(s[a..])
    ensures AllSpace(s)
  {
    forall i | 0 <= i < |s| ensures IsSpace(s[i]) {
      if i < a { assert s[i] == s[..a][i]; } else { assert s[i] == s[a..][i - a]; }
    }
  }

  lemma StripOfEmpty(s: string)
    requires IsStripOf("", s)
    ensures Strip(s) == ""
  {
    var a :| 0 <= a <= |s| && s[a..a] == "" && AllSpace(s[..a]) && AllSpace(s[a..]);
    AllSpaceSplit(s, a);
  }

  /** The leading run ends at the first non-whitespace character. */
  lemma {:induction false} LeadingSpaceExact(s: string, a: nat)
    requires a < |s| && !IsSpace(s[a])
    requires forall i :: 0 <= i < a ==> IsSpace(s[i])
    ensures LeadingSpace(s) == a
  {
    if a > 0 {
      assert s[1..][a - 1] == s[a];
      forall i | 0 <= i < a - 1 ensures IsSpace(s[1..][i]) { assert s[1..][i] == s[i + 1]; }
      LeadingSpaceExact(s[1..], a - 1);
    }
  }

  /** The trailing run starts after the last non-whitespace character. */
  lemma {:induction false} TrailingSpaceExact(s: string, e: nat)
    requires 0 < e <= |s| && !IsSpace(s[e - 1])
    requires forall i :: e <= i < |s| ==> IsSpace(s[i])
    ensures TrailingSpace(s) == |s| - e
    decreases |s|
  {
    if e < |s| {
      var s' := s[..|s| - 1];
      assert s'[e - 1] == s[e - 1];
      forall i | e <= i < |s'| ensures IsSpace(s'[i]) { assert s'[i] == s[i]; }
      TrailingSpaceExact(s', e);
    }
  }

  /** Where `r` sits inside `s` when `IsStripOf(r, s)`, with whitespace at every index around it. */
  lemma StripPosition(r: string, s: string) returns (a: nat)
    requires IsStripOf(r, s)
    ensures a + |r| <= |s| && s[a..a + |r|] == r
    ensures forall i :: 0 <= i < a ==> IsSpace(s[i])
    ensures forall i :: a + |r| <= i < |s| ==> IsSpace(s[i])
    ensures r != "" ==> !IsSpace(s[a]) && !IsSpace(s[a + |r| - 1])
  {
    a :| 0 <= a <= |s| - |r| && s[a..a + |r|] == r && AllSpace(s[..a]) && AllSpace(s[a + |r|..]);
    var e := a + |r|;
    if r != "" {
      assert s[a] == r[0] && s[e - 1] == r[|r| - 1];
    }
    forall i | 0 <= i < a ensures IsSpace(s[i]) { assert s[i] == s[..a][i]; }
    forall i | e <= i < |s| ensures IsSpace(s[i]) { assert s[i] == s[e..][i - e]; }
  }

  /** With whitespace exactly before `a` and after `r` placed at `a`, the strip is `r`. */
  lemma StripAt(s: string, a: nat, r: string)
    requires r != "" && a + |r| <= |s| && s[a..a + |r|] == r
    requires !IsSpace(s[a]) && !IsSpace(s[a + |r| - 1])
    requires forall i :: 0 <= i < a ==> IsSpace(s[i])
    requires forall i :: a + |r| <= i < |s| ==> IsSpace(s[i])
    ensures Strip(s) == r
  {
    LeadingSpaceExact(s, a);
    TrailingSpaceExact(s, a + |r|);
  }

  lemma StripOfNonEmpty(r: string, s: string)
    requires r != "" && IsStripOf(r, s)
    ensures Strip(s) == r
  {
    var a := StripPosition(r, s);
    StripAt(s, a, r);
  }

  /** The characterisation `IsStripOf` pins the stripped text down: it is exactly `Strip`. */
  lemma StripOfUnique(r: string, s: string)
    requires IsStripOf(r, s)
    ensures r == Strip(s)
  {
    if r == "" { StripOfEmpty(s); } else { StripOfNonEmpty(r, s); }
  }

  /** Stripping is idempotent: a stripped text is its own strip. */
  lemma StripIdempotent(s: string)
    ensures Strip(Strip(s)) == Strip(s)
  {
    var r := Strip(s);
    assert r[0..|r|] == r && r[..0] == "" && r[|r|..] == "";
    assert IsStripOf(r, r);
    StripOfUnique(r, r);
  }

  /** Whatever `strip` keeps is a contiguous piece of its input. */
  lemma StripIsInfix(s: string) returns (a: nat)
    ensures a + |Strip(s)| <= |s| && s[a..a + |Strip(s)|] == Strip(s)
  {
    a := StripPosition(Strip(s), s);
  }

  // ---------------------------------------------------------------------------
  // splitlines()
  // ---------------------------------------------------------------------------

  /** Length of the text before the first line boundary. */
  function LineLen(s: string): (k: nat)
    ensures k <= |s|
    ensures NoLineBreak(s[..k])
    ensures k == |s| || IsLineBreak(s[k])
  {
    if |s| == 0 || IsLineBreak(s[0]) then 0 else 1 + LineLen(s[1..])
  }

  /**
    Python's `s.splitlines()`: the lines without their boundaries, `"\r\n"`
    counting as one boundary, and no empty line after a final boundary.
   */
  function SplitLines(s: string): (lines: seq<string>)
    ensures forall i :: 0 <= i < |lines| ==> NoLineBreak(lines[i])
    decreases |s|
  {
    if |s| == 0 then []
    else
      var k := LineLen(s);
      if k == |s| then [s]
      else
        var width := if s[k] == '\r' && k + 1 < |s| && s[k + 1] == '\n' then 2 else 1;
        [s[..k]] + SplitLines(s[k + width..])
  }

  lemma {:induction false} LineLenOfLine(l: string, t: string)
    requires NoLineBreak(l)
    requires t == [] || IsLineBreak(t[0])
    ensures LineLen(l + t) == |l|
    decreases |l|
  {
    if |l| > 0 {
      assert (l + t)[1..] == l[1..] + t;
      LineLenOfLine(l[1..], t);
    }
  }

  /**
    Splitting `"\n"`-joined lines gives the lines back, provided none is empty
    and none holds a line boundary.
   */
  lemma {:induction false} SplitLinesOfJoin(ls: seq<string>)
    requires forall i :: 0 <= i < |ls| ==> ls[i] != "" && NoLineBreak(ls[i])
    ensures SplitLines(Join(ls, "\n")) == ls
    decreases |ls|
  {
    if |ls| == 0 {
    } else if |ls| == 1 {
      var l := ls[0];
      LineLenOfLine(l, "");
      assert l + "" == l;
    } else {
      var l, rest := ls[0], Join(ls[1..], "\n");
      var s := l + "\n" + rest;
      assert Join(ls, "\n") == s;
      LineLenOfLine(l, "\n" + rest);
      assert s == l + ("\n" + rest);
      assert s[..|l|] == l;
      assert s[|l|] == '\n';
      assert s[|l| + 1..] == rest;
      SplitLinesOfJoin(ls[1..]);
    }
  }

  // ---------------------------------------------------------------------------
  // lower(), endswith(), slicing, str(int)
  // ---------------------------------------------------------------------------

  function LowerChar(c: char): char {
    if 'A' <= c <= 'Z' then (c as int + 32) as char else c
  }

  /** Lower-casing, for the ASCII letters only. */
  function Lower(s: string): (r: string)
    ensures |r| == |s|
    ensures forall i :: 0 <= i < |s| ==> r[i] == LowerChar(s[i])
  {
    seq(|s|, i requires 0 <= i < |s| => LowerChar(s[i]))
  }

  /** Python's `s.endswith(suffix)`. */
  predicate EndsWith(s: string, suffix: string) {
    |suffix| <= |s| && s[|s| - |suffix|..] == suffix
  }

  /** Python's normalisation of a slice bound against a sequence of length `n`. */
  function SliceBound(x: int, n: nat): (b: nat)
    ensures b <= n
    ensures 0 <= x <= n ==> b == x
  {
    if x < 0 then (if x + n < 0 then 0 else x + n)
    else if x > n then n
    else x
  }

  /** Python's `s[lo:hi]`, negative bounds counting from the end. */
  function PySlice<T>(s: seq<T>, lo: int, hi: int): seq<T> {
    var a := SliceBound(lo, |s|);
    var b := SliceBound(hi, |s|);
    if a <= b then s[a..b] else []
  }

  predicate IsDigit(c: char) {
    48 <= c as int <= 57
  }

  function DigitValue(c: char): (d: nat)
    requires IsDigit(c)
    ensures d < 10
  {
    c as int - 48
  }

  function DigitChar(d: nat): char
    requires d < 10
  {
    "0123456789"[d]
  }

  /** Python's `str(n)` for a non-negative integer. */
  function NatToString(n: nat): (r: string)
    ensures |r| >= 1
    ensures forall i :: 0 <= i < |r| ==> IsDigit(r[i])
    ensures r[0] == '0' ==> n == 0
  {
    if n < 10 then [DigitChar(n)] else NatToString(n / 10) + [DigitChar(n % 10)]
  }

  /** Python's `int(s)` for a string of decimal digits. */
  function ParseNat(s: string): nat
    requires forall i :: 0 <= i < |s| ==> IsDigit(s[i])
  {
    if |s| == 0 then 0 else 10 * ParseNat(s[..|s| - 1]) + DigitValue(s[|s| - 1])
  }

  /** `int(str(n)) == n`: decimal rendering loses nothing. */
  lemma {:induction false} ParseNatToString(n: nat)
    ensures ParseNat(NatToString(n)) == n
  {
    if n >= 10 {
      var r := NatToString(n);
      assert r[..|r| - 1] == NatToString(n / 10);
      ParseNatToString(n / 10);
    }
  }

  /** Distinct numbers render as distinct strings. */
  lemma NatToStringInjective(m: nat, n: nat)
    requires NatToString(m) == NatToString(n)
    ensures m == n
  {
    ParseNatToString(m);
    ParseNatToString(n);
  }
}
