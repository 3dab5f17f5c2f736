/**
 * The string primitives the components rely on: `String.prototype.trim`,
 * `split` on one character, `join`, the decimal text of integers, `Math.round`
 * and `Number.prototype.toFixed`, computed over exact reals.
 */
module Text {

  /** The ECMAScript WhiteSpace and LineTerminator code points, which `trim` removes. */
  predicate IsWhite(c: char) {
    || '\t' <= c <= '\r'                 // tab, line feed, vertical tab, form feed, carriage return
    || c == ' ' || c == '\U{00A0}' || c == '\U{1680}'
    || '\U{2000}' <= c <= '\U{200A}'     // the typographic spaces
    || c == '\U{2028}' || c == '\U{2029}' // line and paragraph separators
    || c == '\U{202F}' || c == '\U{205F}' || c == '\U{3000}' || c == '\U{FEFF}'
  }

  /** Neither starts nor ends with whitespace. */
  predicate IsTrimmed(s: string) {
    s == [] || (!IsWhite(s[0]) && !IsWhite(s[|s| - 1]))
  }

  predicate AllWhite(s: string) {
    forall i :: 0 <= i < |s| ==> IsWhite(s[i])
  }

  function TrimStart(s: string): (r: string)
    ensures |r| <= |s| && r == s[|s| - |r|..]
    ensures r == [] || !IsWhite(r[0])
    ensures forall i :: 0 <= i < |s| - |r| ==> IsWhite(s[i])
  {
    if |s| > 0 && IsWhite(s[0]) then
      var r := TrimStart(s[1..]);
      assert forall i :: 1 <= i < |s| ==> s[1..][i - 1] == s[i];
      r
    else s
  }

  function TrimEnd(s: string): (r: string)
    ensures |r| <= |s| && r == s[..|r|]
    ensures r == [] || !IsWhite(r[|r| - 1])
    ensures forall i :: |r| <= i < |s| ==> IsWhite(s[i])
  {
    if |s| > 0 && IsWhite(s[|s| - 1]) then
      var init := s[..|s| - 1];
      var r := TrimEnd(init);
      assert forall i :: 0 <= i < |s| - 1 ==> init[i] == s[i];
      assert init[..|r|] == s[..|r|];
      r
    else s
  }

  /** `s.trim()`: s with its leading and trailing whitespace removed. */
  function Trim(s: string): (r: string)
    ensures IsTrimmed(r)
    ensures |r| <= |s|
  {
    var t := TrimStart(s);
    var r := TrimEnd(t);
    assert r != [] ==> r[0] == t[0];
    r
  }

  /** Trimming gives "" exactly when the text is all whitespace. */
  lemma TrimEmptyIffAllWhite(s: string)
    ensures Trim(s) == "" <==> AllWhite(s)
  {
    var t := TrimStart(s);
    var k := |s| - |t|;
    forall i | 0 <= i < |t| ensures t[i] == s[k + i] { }
    forall i | 0 <= i < |s| && Trim(s) == "" ensures IsWhite(s[i]) {
      if i >= k { assert t[i - k] == s[i]; }
    }
  }

  /** Trimming leaves trimmed text as it is, so `trim` is idempotent. */
  lemma TrimOfTrimmed(s: string)
    requires IsTrimmed(s)
    ensures Trim(s) == s
  {
  }

  lemma TrimIdempotent(s: string)
    ensures Trim(Trim(s)) == Trim(s)
  {
    TrimOfTrimmed(Trim(s));
  }

  /** A leading whitespace character makes no difference to the trimmed text. */
  lemma TrimLeadingWhite(c: char, s: string)
    requires IsWhite(c)
    ensures Trim([c] + s) == Trim(s)
  {
    assert ([c] + s)[1..] == s;
  }

  /** `trim` removes exactly the whitespace around a clean core: the core is what remains. */
  lemma TrimAround(w1: string, core: string, w2: string)
    requires AllWhite(w1) && AllWhite(w2) && IsCleanPart(core)
    ensures Trim(w1 + core + w2) == core
  {
    assert w1 + core + w2 == w1 + (core + w2);
    assert (core + w2)[0] == core[0];
    TrimStartBefore(w1, core + w2);
    TrimEndAfter(core, w2);
  }

  lemma TrimStartBefore(w: string, rest: string)
    requires AllWhite(w) && rest != [] && !IsWhite(rest[0])
    ensures TrimStart(w + rest) == rest
  {
    var s := w + rest;
    var t := TrimStart(s);
    var k := |s| - |t|;
    assert s[|w|] == rest[0];
    assert k <= |w|;
    assert forall i :: 0 <= i < |w| ==> s[i] == w[i];
    assert t[0] == s[k];
    assert k == |w|;
    assert t == s[|w|..] == rest;
  }

  lemma TrimEndAfter(core: string, w: string)
    requires AllWhite(w) && IsCleanPart(core)
    ensures TrimEnd(core + w) == core
  {
    var t := core + w;
    var r := TrimEnd(t);
    assert t[|core| - 1] == core[|core| - 1];
    assert |r| == |core| by {
      assert |r| >= |core|;
      assert r[|r| - 1] == t[|r| - 1];
    }
    assert r == t[..|core|] == core;
  }

  /** Trimming only removes characters: a character absent from s is absent from its trim. */
  lemma TrimKeepsAbsent(s: string, c: char)
    requires c !in s
    ensures c !in Trim(s)
  {
    var t := TrimStart(s);
    assert t == s[|s| - |t|..];
    assert c !in t;
    var r := TrimEnd(t);
    assert r == t[..|r|];
  }

  /** `s.split(sep)` for a one-character separator: never empty, no part holds sep. */
  function Split(s: string, sep: char): (parts: seq<string>)
    ensures |parts| >= 1
    ensures forall i :: 0 <= i < |parts| ==> sep !in parts[i]
    decreases |s|
  {
    if |s| == 0 then [""]
    else
      var rest := Split(s[1..], sep);
      if s[0] == sep then [""] + rest
      else [[s[0]] + rest[0]] + rest[1..]
  }

  /** `parts.join(sep)`: "" for no parts. */
  function Join(parts: seq<string>, sep: string): string {
    if |parts| == 0 then ""
    else if |parts| == 1 then parts[0]
    else parts[0] + sep + Join(parts[1..], sep)
  }

  /** Joining the parts of a split with the separator gives the text back. */
  lemma {:induction false} JoinSplit(s: string, sep: char)
    ensures Join(Split(s, sep), [sep]) == s
    decreases |s|
  {
    if |s| > 0 {
      var rest := Split(s[1..], sep);
      JoinSplit(s[1..], sep);
      if s[0] == sep {
        assert s == [sep] + s[1..];
      } else if |rest| == 1 {
        assert s == [s[0]] + s[1..];
      } else {
        assert Join(rest, [sep]) == rest[0] + [sep] + Join(rest[1..], [sep]);
        assert s == [s[0]] + s[1..];
      }
    }
  }

  /** Text without the separator splits into itself alone. */
  lemma {:induction false} SplitNoSep(s: string, sep: char)
    requires sep !in s
    ensures Split(s, sep) == [s]
    decreases |s|
  {
    if |s| > 0 {
      SplitNoSep(s[1..], sep);
      assert [s[0]] + s[1..] == s;
    }
  }

  /** Splitting distributes over a separator: `(a + sep + b).split(sep) == a.split(sep) + b.split(sep)`. */
  lemma {:induction false} SplitConcat(a: string, b: string, sep: char)
    ensures Split(a + [sep] + b, sep) == Split(a, sep) + Split(b, sep)
    decreases |a|
  {
    var s := a + [sep] + b;
    if |a| == 0 {
      assert s[1..] == b;
    } else {
      assert s[1..] == a[1..] + [sep] + b;
      SplitConcat(a[1..], b, sep);
    }
  }

  /** Parts free of the separator are recovered by splitting their join. */
  lemma {:induction false} SplitJoin(parts: seq<string>, sep: char)
    requires |parts| >= 1
    requires forall i :: 0 <= i < |parts| ==> sep !in parts[i]
    ensures Split(Join(parts, [sep]), sep) == parts
    decreases |parts|
  {
    SplitNoSep(parts[0], sep);
    if |parts| > 1 {
      SplitJoin(parts[1..], sep);
      SplitConcat(parts[0], Join(parts[1..], [sep]), sep);
      assert parts == [parts[0]] + parts[1..];
    }
  }

  /** A part that survives trimming: non-empty, no surrounding whitespace. */
  predicate IsCleanPart(p: string) {
    |p| > 0 && IsTrimmed(p)
  }

  /** Each part trimmed, the empty ones dropped, the order kept. */
  function TrimNonEmpty(parts: seq<string>): (r: seq<string>)
    ensures |r| <= |parts|
    ensures forall i :: 0 <= i < |r| ==> IsCleanPart(r[i])
  {
    if |parts| == 0 then [] else Kept(parts[0]) + TrimNonEmpty(parts[1..])
  }

  /** One part trimmed, as a one-element list, or no element when it trims to "". */
  function Kept(part: string): (r: seq<string>)
    ensures r == [] || (|r| == 1 && IsCleanPart(r[0]))
  {
    var t := Trim(part);
    if t == "" then [] else [t]
  }

  lemma {:induction false} TrimNonEmptyConcat(a: seq<string>, b: seq<string>)
    ensures TrimNonEmpty(a + b) == TrimNonEmpty(a) + TrimNonEmpty(b)
    decreases |a|
  {
    if |a| > 0 {
      var ab := a + b;
      assert ab[0] == a[0] && ab[1..] == a[1..] + b;
      TrimNonEmptyConcat(a[1..], b);
      var head, rest, tail := Kept(a[0]), TrimNonEmpty(a[1..]), TrimNonEmpty(b);
      assert TrimNonEmpty(ab) == head + (rest + tail);
      assert head + (rest + tail) == (head + rest) + tail;
    } else {
      assert a + b == b;
    }
  }

  /** Trimming and dropping parts cannot bring in a character none of the parts held. */
  lemma {:induction false} TrimNonEmptyKeepsAbsent(parts: seq<string>, c: char)
    requires forall i :: 0 <= i < |parts| ==> c !in parts[i]
    ensures forall i :: 0 <= i < |TrimNonEmpty(parts)| ==> c !in TrimNonEmpty(parts)[i]
    decreases |parts|
  {
    if |parts| > 0 {
      TailKeepsAbsent(parts, c);
      TrimNonEmptyKeepsAbsent(parts[1..], c);
      KeptKeepsAbsent(parts[0], c);
      TrimNonEmptyCons(parts);
      ConcatKeepsAbsent(Kept(parts[0]), TrimNonEmpty(parts[1..]), c);
    }
  }

  lemma TailKeepsAbsent(parts: seq<string>, c: char)
    requires |parts| > 0
    requires forall i :: 0 <= i < |parts| ==> c !in parts[i]
    ensures c !in parts[0]
    ensures forall i :: 0 <= i < |parts[1..]| ==> c !in parts[1..][i]
  {
    assert forall i :: 0 <= i < |parts| - 1 ==> parts[1..][i] == parts[i + 1];
  }

  lemma TrimNonEmptyCons(parts: seq<string>)
    requires |parts| > 0
    ensures TrimNonEmpty(parts) == Kept(parts[0]) + TrimNonEmpty(parts[1..])
  {
  }

  lemma KeptKeepsAbsent(part: string, c: char)
    requires c !in part
    ensures forall i :: 0 <= i < |Kept(part)| ==> c !in Kept(part)[i]
  {
    TrimKeepsAbsent(part, c);
  }

  lemma ConcatKeepsAbsent(a: seq<string>, b: seq<string>, c: char)
    requires forall i :: 0 <= i < |a| ==> c !in a[i]
    requires forall i :: 0 <= i < |b| ==> c !in b[i]
    ensures forall i :: 0 <= i < |a + b| ==> c !in (a + b)[i]
  {
  }

  /** Parts that are already trimmed and non-empty pass through unchanged. */
  lemma {:induction false} TrimNonEmptyKeeps(parts: seq<string>)
    requires forall i :: 0 <= i < |parts| ==> IsCleanPart(parts[i])
    ensures TrimNonEmpty(parts) == parts
    decreases |parts|
  {
    if |parts| > 0 {
      TailClean(parts);
      KeptClean(parts[0]);
      TrimNonEmptyKeeps(parts[1..]);
      TrimNonEmptyCons(parts);
      assert parts == [parts[0]] + parts[1..];
    }
  }

  lemma TailClean(parts: seq<string>)
    requires |parts| > 0
    requires forall i :: 0 <= i < |parts| ==> IsCleanPart(parts[i])
    ensures IsCleanPart(parts[0])
    ensures forall i :: 0 <= i < |parts[1..]| ==> IsCleanPart(parts[1..][i])
  {
    assert forall i :: 0 <= i < |parts| - 1 ==> parts[1..][i] == parts[i + 1];
  }

  /** A clean part is kept as it is. */
  lemma KeptClean(part: string)
    requires IsCleanPart(part)
    ensures Kept(part) == [part]
  {
    TrimOfTrimmed(part);
  }

  /** Replaces the first occurrence of `from`, as `s.replace('.', ',')` does. */
  function ReplaceFirst(s: string, from: char, to: char): (r: string)
    ensures |r| == |s|
    ensures from !in s ==> r == s
  {
    if |s| == 0 then ""
    else if s[0] == from then [to] + s[1..]
    else [s[0]] + ReplaceFirst(s[1..], from, to)
  }

  /** When the first `from` sits at p, only that character changes. */
  lemma {:induction false} ReplaceFirstAt(s: string, p: nat, from: char, to: char)
    requires p < |s| && s[p] == from && from !in s[..p]
    ensures ReplaceFirst(s, from, to) == s[..p] + [to] + s[p + 1..]
    decreases p
  {
    if p > 0 {
      assert s[0] == s[..p][0];
      assert s[1..][..p - 1] == s[1..p];
      ReplaceFirstAt(s[1..], p - 1, from, to);
      assert s[..p] == [s[0]] + s[1..][..p - 1];
    }
  }

  // ---- decimal text of numbers ----

  predicate IsDigit(c: char) {
    '0' <= c <= '9'
  }

  predicate AllDigits(s: string) {
    forall i :: 0 <= i < |s| ==> IsDigit(s[i])
  }

  function DigitChar(d: nat): (c: char)
    requires d < 10
    ensures IsDigit(c)
  {
    "0123456789"[d]
  }

  function DigitValue(c: char): (d: nat)
    requires IsDigit(c)
    ensures d < 10
  {
    (c as int - '0' as int) as nat
  }

  /** The decimal text of a natural number, without leading zeros. */
  function NatText(n: nat): (s: string)
    ensures |s| >= 1 && AllDigits(s)
  {
    if n < 10 then [DigitChar(n)] else NatText(n / 10) + [DigitChar(n % 10)]
  }

  /** The number a string of decimal digits denotes. */
  function DigitsValue(s: string): nat
    requires AllDigits(s)
  {
    if |s| == 0 then 0 else DigitsValue(s[..|s| - 1]) * 10 + DigitValue(s[|s| - 1])
  }

  /** Reading back the decimal text of n gives n. */
  lemma {:induction false} NatTextValue(n: nat)
    ensures DigitsValue(NatText(n)) == n
  {
    if n >= 10 {
      var s := NatText(n);
      NatTextValue(n / 10);
      assert s[..|s| - 1] == NatText(n / 10);
      assert DigitValue(DigitChar(n % 10)) == n % 10 by {
        assert "0123456789"[n % 10] as int == '0' as int + n % 10;
      }
    } else {
      assert "0123456789"[n] as int == '0' as int + n;
    }
  }

  function Pow10(d: nat): (p: nat)
    ensures p >= 1
  {
    if d == 0 then 1 else 10 * Pow10(d - 1)
  }

  /** A number below 10^d has at most d digits. */
  lemma {:induction false} NatTextLength(n: nat, d: nat)
    requires d >= 1 && n < Pow10(d)
    ensures |NatText(n)| <= d
  {
    if n >= 10 {
      assert d >= 2;
      assert n / 10 < Pow10(d - 1);
      NatTextLength(n / 10, d - 1);
    }
  }

  function Zeros(k: nat): (s: string)
    ensures |s| == k && AllDigits(s)
  {
    if k == 0 then "" else "0" + Zeros(k - 1)
  }

  /** `s` preceded by enough zeros to be `width` characters long. */
  function PadLeft(s: string, width: nat): (r: string)
    requires AllDigits(s)
    ensures AllDigits(r)
    ensures |r| == if |s| >= width then |s| else width
  {
    if |s| >= width then s else Zeros(width - |s|) + s
  }

  /** Leading zeros do not change the value of a digit string. */
  lemma {:induction false} LeadingZerosValue(k: nat, s: string)
    requires AllDigits(s)
    ensures DigitsValue(Zeros(k) + s) == DigitsValue(s)
    decreases |s|, k
  {
    if |s| == 0 {
      assert Zeros(k) + s == Zeros(k);
      if k > 0 {
        LeadingZerosValue(k - 1, s);
        assert Zeros(k)[..k - 1] == Zeros(k - 1) by {
          assert Zeros(k) == Zeros(k - 1) + "0" by { ZerosSnoc(k); }
        }
        assert Zeros(k - 1) + s == Zeros(k - 1);
        assert DigitValue('0') == 0;
      }
    } else {
      var t := Zeros(k) + s;
      assert t[..|t| - 1] == Zeros(k) + s[..|s| - 1];
      LeadingZerosValue(k, s[..|s| - 1]);
    }
  }

  lemma {:induction false} ZerosSnoc(k: nat)
    requires k > 0
    ensures Zeros(k) == Zeros(k - 1) + "0"
  {
    if k > 1 {
      ZerosSnoc(k - 1);
    }
  }

  /** The decimal text of an integer, as `String(i)` prints it. */
  function IntText(i: int): (s: string)
    ensures i >= 0 ==> s == NatText(i)
    ensures i < 0 ==> s == "-" + NatText(-i)
  {
    if i < 0 then "-" + NatText(-i) else NatText(i)
  }

  /** `Math.round(x)`: the nearest integer, halves rounded up. */
  function Round(x: real): (r: int)
    ensures r as real - 0.5 <= x < r as real + 0.5
  {
    (x + 0.5).Floor
  }

  lemma RoundMonotone(x: real, y: real)
    requires x <= y
    ensures Round(x) <= Round(y)
  {
  }

  lemma RoundNonNegative(x: real)
    requires x >= 0.0
    ensures Round(x) >= 0
  {
  }

  /** x * 10^d, computed by repeated multiplication. */
  function Scale(x: real, d: nat): (r: real)
    ensures x >= 0.0 ==> r >= 0.0
  {
    if d == 0 then x else Scale(x, d - 1) * 10.0
  }

  /** Scaling by d decimal places multiplies by 10^d. */
  lemma {:induction false} ScaleByPow10(x: real, d: nat)
    ensures Scale(x, d) == x * Pow10(d) as real
    decreases d
  {
    if d > 0 {
      ScaleByPow10(x, d - 1);
      var p := Pow10(d - 1) as real;
      assert Pow10(d) as real == 10.0 * p;
      assert Scale(x, d) == (x * p) * 10.0;
      assert (x * p) * 10.0 == x * (10.0 * p);
    }
  }

  /** n / 10^d, by d divisions by ten. */
  function Shift(n: nat, d: nat): nat {
    if d == 0 then n else Shift(n / 10, d - 1)
  }

  /** n % 10^d, the last d digits of n. */
  function Low(n: nat, d: nat): nat {
    if d == 0 then 0 else Low(n / 10, d - 1) * 10 + n % 10
  }

  lemma {:induction false} ShiftLow(n: nat, d: nat)
    ensures Shift(n, d) * Pow10(d) + Low(n, d) == n
    ensures Low(n, d) < Pow10(d)
  {
    if d > 0 {
      var m := n / 10;
      ShiftLow(m, d - 1);
      var a, p, l := Shift(m, d - 1), Pow10(d - 1), Low(m, d - 1);
      assert Shift(n, d) == a && Low(n, d) == l * 10 + n % 10 && Pow10(d) == 10 * p;
      TenTimes(a, p);
      assert a * (10 * p) + (l * 10 + n % 10) == 10 * m + n % 10;
      assert l * 10 + n % 10 < 10 * p;
    }
  }

  lemma TenTimes(a: int, p: int)
    ensures a * (10 * p) == 10 * (a * p)
  {
  }

  /** The text of n / 10^d with exactly d decimals: the whole part, a point, d digits. */
  function FixedDigits(n: nat, d: nat): string {
    if d == 0 then NatText(n) else NatText(Shift(n, d)) + "." + PadLeft(NatText(Low(n, d)), d)
  }

  /** `x.toFixed(d)`: the sign of x, then |x| * 10^d rounded half up, printed with d decimals. */
  function ToFixed(x: real, d: nat): (s: string)
    ensures x >= 0.0 ==> s == FixedDigits(Round(Scale(x, d)), d)
    ensures x < 0.0 ==> s == "-" + FixedDigits(Round(Scale(-x, d)), d)
  {
    if x < 0.0 then "-" + FixedDigits(Round(Scale(-x, d)), d)
    else FixedDigits(Round(Scale(x, d)), d)
  }

  /** A remainder below 10^d prints as exactly d digits, zero-padded, with its own value. */
  lemma PaddedValue(m: nat, d: nat)
    requires d >= 1 && m < Pow10(d)
    ensures |PadLeft(NatText(m), d)| == d
    ensures DigitsValue(PadLeft(NatText(m), d)) == m
  {
    var frac := NatText(m);
    NatTextLength(m, d);
    NatTextValue(m);
    LeadingZerosValue(d - |frac|, frac);
  }

  /**
   * The text `toFixed(d)` gives a non-negative x: whole digits, a point and
   * exactly d digits, which read back as x * 10^d rounded.
   */
  lemma FixedReadsBack(x: real, d: nat) returns (whole: string, frac: string)
    requires x >= 0.0 && d >= 1
    ensures ToFixed(x, d) == whole + "." + frac
    ensures |whole| >= 1 && |frac| == d && AllDigits(whole) && AllDigits(frac)
    ensures DigitsValue(whole) * Pow10(d) + DigitsValue(frac) == Round(Scale(x, d))
  {
    var n := Round(Scale(x, d));
    var q, m := Shift(n, d), Low(n, d);
    ShiftLow(n, d);
    PaddedValue(m, d);
    NatTextValue(q);
    whole, frac := NatText(q), PadLeft(NatText(m), d);
  }
}
