/**
 * Hexadecimal text as the SDK writes and reads it: `toPaddedHex` and `rgbToHex` on the writing
 * side; `parseInt(_, 16)`, `substring` and `match(/.{1,n}/g)` on the reading side.
 */
module Hex {
  import opened Wrappers

  const DIGITS: string := "0123456789abcdef"

  predicate IsDigit(c: char) {
    '0' <= c <= '9' || 'a' <= c <= 'f' || 'A' <= c <= 'F'
  }

  function DigitValue(c: char): nat
    requires IsDigit(c)
  {
    if c <= '9' then c as int - '0' as int
    else if c <= 'F' then c as int - 'A' as int + 10
    else c as int - 'a' as int + 10
  }

  predicate AllDigits(s: string) {
    forall i :: 0 <= i < |s| ==> IsDigit(s[i])
  }

  function Pow16(k: nat): nat {
    if k == 0 then 1 else 16 * Pow16(k - 1)
  }

  /** The number a string of hexadecimal digits denotes. */
  function Value(s: string): nat
    requires AllDigits(s)
  {
    if s == [] then 0 else 16 * Value(s[..|s| - 1]) + DigitValue(s[|s| - 1])
  }

  /** `n.toString(16)`. */
  function ToHex(n: nat): string {
    if n < 16 then [DIGITS[n]] else ToHex(n / 16) + [DIGITS[n % 16]]
  }

  function Zeros(n: nat): string {
    seq(n, _ => '0')
  }

  /** `s.padStart(pad, '0')`. */
  function PadStart(s: string, pad: nat): string {
    if |s| < pad then Zeros(pad - |s|) + s else s
  }

  function ToPaddedHex(c: int, pad: nat := 2): string {
    PadStart(if c < 0 then "-" + ToHex(-c) else ToHex(c), pad)
  }

  function RgbToHex(r: nat, g: nat, b: nat): string {
    ToPaddedHex(r) + ToPaddedHex(g) + ToPaddedHex(b)
  }

  // ---------- reading ----------

  predicate IsSpace(c: char) {
    var u := c as int;
    9 <= u <= 13 || u in {32, 160, 0x1680, 0x2028, 0x2029, 0x202f, 0x205f, 0x3000, 0xfeff} || 0x2000 <= u <= 0x200a
  }

  function SkipSpace(s: string): string {
    if s != [] && IsSpace(s[0]) then SkipSpace(s[1..]) else s
  }

  function LeadingDigits(s: string): (r: string)
    ensures AllDigits(r)
  {
    if s != [] && IsDigit(s[0]) then [s[0]] + LeadingDigits(s[1..]) else []
  }

  /** `parseInt(s, 16)`; None is NaN. */
  function ParseInt16(s: string): Option<int> {
    var t := SkipSpace(s);
    var negative := t != [] && t[0] == '-';
    var u := if t != [] && (t[0] == '-' || t[0] == '+') then t[1..] else t;
    var v := if |u| >= 2 && u[0] == '0' && (u[1] == 'x' || u[1] == 'X') then u[2..] else u;
    var digits := LeadingDigits(v);
    var value: int := Value(digits);
    if digits == [] then None else Some(if negative then -value else value)
  }

  /** `s.substring(from, to)` for from <= to: both ends are clamped to the length. */
  function Substring(s: string, from: nat, to: nat): string
    requires from <= to
  {
    s[if from <= |s| then from else |s|..if to <= |s| then to else |s|]
  }

  /** `s.substring(from)`. */
  function Tail(s: string, from: nat): string {
    if from <= |s| then s[from..] else []
  }

  predicate IsLineTerminator(c: char) {
    c as int in {0x0a, 0x0d, 0x2028, 0x2029}
  }

  /** How many characters one match of `.{1,n}` takes at the front of s. */
  function DotRun(s: string, n: nat): (r: nat)
    ensures r <= |s| && r <= n
  {
    if n == 0 || s == [] || IsLineTerminator(s[0]) then 0 else 1 + DotRun(s[1..], n - 1)
  }

  /** `s.match(/.{1,n}/g) ?? []`. */
  function Chunks(s: string, n: nat): seq<string>
    requires n > 0
    decreases |s|
  {
    if s == [] then []
    else
      var k := DotRun(s, n);
      if k == 0 then Chunks(s[1..], n) else [s[..k]] + Chunks(s[k..], n)
  }

  // ---------- the two sides agree ----------

  lemma DigitRoundTrip(d: nat)
    requires d < 16
    ensures IsDigit(DIGITS[d]) && DigitValue(DIGITS[d]) == d
    ensures !IsSpace(DIGITS[d]) && !IsLineTerminator(DIGITS[d])
  {
    assert DIGITS == ['0', '1', '2', '3', '4', '5', '6', '7', '8', '9', 'a', 'b', 'c', 'd', 'e', 'f'];
  }

  /** Reading back what `toString(16)` wrote. */
  lemma {:induction false} ToHexRoundTrip(n: nat)
    ensures AllDigits(ToHex(n)) && Value(ToHex(n)) == n
  {
    DigitRoundTrip(n % 16);
    var s := ToHex(n);
    if n < 16 {
      assert Value(s) == 16 * Value([]) + DigitValue(s[0]) by { assert s[..0] == []; }
    } else {
      ToHexRoundTrip(n / 16);
      assert s[..|s| - 1] == ToHex(n / 16);
    }
  }

  /** The text has at most k digits exactly when the number is under 16^k. */
  lemma {:induction false} ToHexLength(n: nat, k: nat)
    requires k > 0
    ensures |ToHex(n)| <= k <==> n < Pow16(k)
  {
    PowPositive(k - 1);
    if n >= 16 {
      if k == 1 {
        assert |ToHex(n / 16)| >= 1;
      } else {
        ToHexLength(n / 16, k - 1);
        DivBound(n, Pow16(k - 1));
      }
    }
  }

  lemma DivBound(n: nat, p: nat)
    ensures n / 16 < p <==> n < 16 * p
  {
  }

  lemma {:induction false} PowPositive(k: nat)
    ensures Pow16(k) >= 1
  {
    if k > 0 { PowPositive(k - 1); }
  }

  lemma MulAssoc(a: nat, b: nat, c: nat)
    ensures a * (b * c) == (a * b) * c
  {
  }

  lemma {:induction false} LeadingDigitsAll(s: string)
    requires AllDigits(s)
    ensures LeadingDigits(s) == s
  {
    if s != [] {
      LeadingDigitsAll(s[1..]);
      assert s == [s[0]] + s[1..];
    }
  }

  /** One byte always takes two characters, and `parseInt` gives it back. */
  lemma ByteRoundTrip(c: int)
    requires 0 <= c < 256
    ensures |ToPaddedHex(c)| == 2 && AllDigits(ToPaddedHex(c))
    ensures ParseInt16(ToPaddedHex(c)) == Some(c)
  {
    ByteDigits(c);
    DigitRoundTrip(c / 16);
    DigitRoundTrip(c % 16);
    ParseTwoDigits(DIGITS[c / 16], DIGITS[c % 16]);
  }

  lemma ParseTwoDigits(x: char, y: char)
    requires IsDigit(x) && IsDigit(y) && !IsSpace(x)
    ensures ParseInt16([x, y]) == Some(16 * DigitValue(x) + DigitValue(y))
  {
    var s := [x, y];
    TwoDigits(x, y);
    LeadingDigitsAll(s);
    assert SkipSpace(s) == s && x != '-' && x != '+' && y != 'x' && y != 'X';
  }

  lemma TwoDigits(x: char, y: char)
    requires IsDigit(x) && IsDigit(y)
    ensures AllDigits([x, y]) && Value([x, y]) == 16 * DigitValue(x) + DigitValue(y)
  {
    var s := [x, y];
    assert s[..1] == [x] && [x][..0] == [];
    assert Value([x]) == 16 * Value([]) + DigitValue(x);
  }

  lemma ByteDigits(c: nat)
    requires c < 256
    ensures ToPaddedHex(c) == [DIGITS[c / 16], DIGITS[c % 16]]
  {
    if c < 16 {
      assert Zeros(1) == ['0'] && DIGITS[0] == '0';
    } else {
      assert ToHex(c / 16) == [DIGITS[c / 16]];
      assert ToHex(c) == [DIGITS[c / 16], DIGITS[c % 16]];
    }
  }

  /** The last k digits of a number are the number modulo 16^k. */
  lemma {:induction false} SuffixIsModulo(s: string, k: nat)
    requires AllDigits(s) && k <= |s|
    ensures Value(s[|s| - k..]) < Pow16(k)
    ensures Value(s) == Value(s[..|s| - k]) * Pow16(k) + Value(s[|s| - k..])
  {
    if k == 0 {
      assert s[..|s|] == s && s[|s|..] == [];
    } else {
      var init, last := s[..|s| - 1], DigitValue(s[|s| - 1]);
      SuffixIsModulo(init, k - 1);
      var tail := s[|s| - k..];
      var hi, p, low := Value(s[..|s| - k]), Pow16(k - 1), Value(init[|init| - (k - 1)..]);
      assert init[..|init| - (k - 1)] == s[..|s| - k];
      assert Value(tail) == 16 * low + last by { assert tail[..|tail| - 1] == init[|init| - (k - 1)..]; }
      ScaleBy16(Value(s), Value(init), hi, p, low, last);
    }
  }

  lemma ScaleBy16(v: nat, v': nat, hi: nat, p: nat, low: nat, last: nat)
    requires v == 16 * v' + last && v' == hi * p + low
    ensures v == hi * (16 * p) + (16 * low + last)
  {
  }

  lemma {:induction false} PowGrows(j: nat, k: nat)
    requires j <= k
    ensures Pow16(j) <= Pow16(k)
    decreases k
  {
    if j < k { PowGrows(j, k - 1); }
  }

  lemma {:induction false} SkipSpaceShorter(s: string)
    ensures |SkipSpace(s)| <= |s|
  {
    if s != [] && IsSpace(s[0]) { SkipSpaceShorter(s[1..]); }
  }

  lemma {:induction false} LeadingDigitsShorter(s: string)
    ensures |LeadingDigits(s)| <= |s|
  {
    if s != [] && IsDigit(s[0]) { LeadingDigitsShorter(s[1..]); }
  }

  lemma DigitsBound(v: string, k: nat)
    requires |v| <= k
    ensures Value(LeadingDigits(v)) < Pow16(k)
  {
    var digits := LeadingDigits(v);
    LeadingDigitsShorter(v);
    SuffixIsModulo(digits, |digits|);
    assert digits[0..] == digits;
    PowGrows(|digits|, k);
  }

  /** A text of k characters never parses to 16^k or more. */
  lemma ParseBound(s: string)
    ensures ParseInt16(s).Some? ==> ParseInt16(s).value < Pow16(|s|)
  {
    var t := SkipSpace(s);
    SkipSpaceShorter(s);
    PowPositive(|s|);
    var u := if t != [] && (t[0] == '-' || t[0] == '+') then t[1..] else t;
    var v := if |u| >= 2 && u[0] == '0' && (u[1] == 'x' || u[1] == 'X') then u[2..] else u;
    DigitsBound(v, |s|);
  }

  /** Two characters never say more than 255 or less than -15. */
  lemma TwoCharsRange(s: string)
    requires |s| <= 2
    ensures ParseInt16(s).Some? ==> -16 < ParseInt16(s).value < 256
  {
    ParseBound(s);
    assert Pow16(0) == 1 && Pow16(1) == 16 && Pow16(2) == 256;
    var t := SkipSpace(s);
    SkipSpaceShorter(s);
    if t != [] && t[0] == '-' { DigitsBound(t[1..], 1); }
  }

  /** So many numbers fit two characters: a byte, or a minus sign and one digit. */
  predicate Short(n: int) {
    -16 < n < 256
  }

  /** A short number takes two characters, and `parseInt` gives it back. */
  lemma ShortRoundTrip(c: int)
    requires Short(c)
    ensures |ToPaddedHex(c)| == 2 && ParseInt16(ToPaddedHex(c)) == Some(c)
    ensures forall i :: 0 <= i < 2 ==> !IsLineTerminator(ToPaddedHex(c)[i])
  {
    if c >= 0 {
      ByteRoundTrip(c);
      DigitsHaveNoBreaks(ToPaddedHex(c));
    } else {
      DigitRoundTrip(-c);
      assert ToPaddedHex(c) == "-" + [DIGITS[-c]];
      NegativeDigit(DIGITS[-c]);
    }
  }

  lemma NegativeDigit(x: char)
    requires IsDigit(x)
    ensures ParseInt16("-" + [x]).Some? && ParseInt16("-" + [x]).value + DigitValue(x) == 0
  {
    var s := "-" + [x];
    assert SkipSpace(s) == s && s[1..] == [x];
    LeadingDigitsAll([x]);
    assert [x][..0] == [] && Value([x]) == 16 * Value([]) + DigitValue(x);
  }

  /** A full-width front piece without line breaks is split off as the first chunk. */
  lemma ChunksSplit(a: string, b: string, n: nat)
    requires n > 0 && |a| == n
    requires forall i :: 0 <= i < |a| ==> !IsLineTerminator(a[i])
    ensures Chunks(a + b, n) == [a] + Chunks(b, n)
  {
    DotRunFull(a, b);
    assert (a + b)[..n] == a && (a + b)[n..] == b;
  }

  lemma {:induction false} DotRunFull(a: string, b: string)
    requires forall i :: 0 <= i < |a| ==> !IsLineTerminator(a[i])
    ensures DotRun(a + b, |a|) == |a|
  {
    if a != [] {
      DotRunFull(a[1..], b);
      assert (a + b)[1..] == a[1..] + b;
    }
  }

  lemma DigitsHaveNoBreaks(s: string)
    requires AllDigits(s)
    ensures forall i :: 0 <= i < |s| ==> !IsLineTerminator(s[i])
  {
  }

  /** With 8-bit channels a colour key has six digits, and different colours have different keys. */
  lemma RgbToHexInjective(r: nat, g: nat, b: nat, r': nat, g': nat, b': nat)
    requires r < 256 && g < 256 && b < 256 && r' < 256 && g' < 256 && b' < 256
    ensures |RgbToHex(r, g, b)| == 6 && AllDigits(RgbToHex(r, g, b))
    ensures RgbToHex(r, g, b) == RgbToHex(r', g', b') ==> r == r' && g == g' && b == b'
  {
    ByteRoundTrip(r); ByteRoundTrip(g); ByteRoundTrip(b);
    ByteRoundTrip(r'); ByteRoundTrip(g'); ByteRoundTrip(b');
    var s, t := RgbToHex(r, g, b), RgbToHex(r', g', b');
    assert s[..2] == ToPaddedHex(r) && s[2..4] == ToPaddedHex(g) && s[4..] == ToPaddedHex(b);
    assert t[..2] == ToPaddedHex(r') && t[2..4] == ToPaddedHex(g') && t[4..] == ToPaddedHex(b');
  }

  // ---------- what the text says, digit by digit ----------

  /** The digit for a value below 16: 0 to 9, then a to f in lower case. */
  function Nibble(d: nat): char
    requires d < 16
  {
    if d < 10 then ('0' as int + d) as char else ('a' as int + d - 10) as char
  }

  lemma NibbleIsDigit(d: nat)
    requires d < 16
    ensures DIGITS[d] == Nibble(d)
  {
    assert DIGITS == ['0', '1', '2', '3', '4', '5', '6', '7', '8', '9', 'a', 'b', 'c', 'd', 'e', 'f'];
  }

  /** A byte is written with its high half first. */
  lemma ByteText(c: nat)
    requires c < 256
    ensures ToPaddedHex(c) == [Nibble(c / 16), Nibble(c % 16)]
  {
    ByteDigits(c);
    NibbleIsDigit(c / 16);
    NibbleIsDigit(c % 16);
  }

  /** The six digits of a colour are those of red, green and blue, in this order. */
  lemma RgbToHexText(r: nat, g: nat, b: nat)
    requires r < 256 && g < 256 && b < 256
    ensures RgbToHex(r, g, b) ==
            [Nibble(r / 16), Nibble(r % 16), Nibble(g / 16), Nibble(g % 16), Nibble(b / 16), Nibble(b % 16)]
  {
    ByteText(r); ByteText(g); ByteText(b);
  }

  /** Cutting a colour key into three pairs and parsing them gives red, green and blue. */
  lemma RgbToHexChannels(r: nat, g: nat, b: nat)
    requires r < 256 && g < 256 && b < 256
    ensures var key := RgbToHex(r, g, b);
            && |key| == 6 && ParseInt16(key[..2]) == Some(r)
            && ParseInt16(key[2..4]) == Some(g) && ParseInt16(key[4..]) == Some(b)
  {
    var key := RgbToHex(r, g, b);
    RgbToHexText(r, g, b);
    ByteText(r); ByteText(g); ByteText(b);
    ByteRoundTrip(r); ByteRoundTrip(g); ByteRoundTrip(b);
    assert key[..2] == ToPaddedHex(r) && key[2..4] == ToPaddedHex(g) && key[4..] == ToPaddedHex(b);
  }
}
