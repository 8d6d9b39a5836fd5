/** packages/nouns-assets/src/utils.ts: the pseudorandom parts of a noun, cut out of hex text. */
module Seeds {
  import opened Wrappers
  import Hex

  function Pow2(k: nat): (r: nat)
    ensures r > 0
  {
    if k == 0 then 1 else 2 * Pow2(k - 1)
  }

  /** `BigNumber.shr`. */
  function Shr(value: nat, k: nat): nat {
    DivNat(value, Pow2(k));
    value / Pow2(k)
  }

  lemma DivNat(a: nat, d: nat)
    requires d > 0
    ensures a / d >= 0
  {
    var q, r := a / d, a % d;
    assert a == q * d + r;
    if q < 0 { Scale(-q, q, d); }
  }

  function PadToEven(h: string): string {
    if |h| % 2 == 1 then "0" + h else h
  }

  function EvenDigits(n: nat): string {
    PadToEven(Hex.ToHex(n))
  }

  /** `BigNumber.toHexString()`: an even number of digits behind "0x". */
  function ToHexString(n: nat): string {
    "0x" + EvenDigits(n)
  }

  /** `"0x" + shifted.substring(shifted.length - uintSize / 4)`; a negative start counts as 0. */
  function LastBits(shifted: string, uintSize: nat): string {
    var start := if 4 * |shifted| >= uintSize then (4 * |shifted| - uintSize) / 4 else 0;
    "0x" + Hex.Tail(shifted, start)
  }

  function ShiftRightAndCast(value: nat, shiftAmount: nat, uintSize: nat): string {
    LastBits(ToHexString(Shr(value, shiftAmount)), uintSize)
  }

  /** `BigNumber.from(hex)`; None is the exception for text that is not a hex number. */
  function ParseHexNumber(s: string): Option<nat> {
    if |s| > 2 && s[..2] == "0x" && Hex.AllDigits(s[2..]) then Some(Hex.Value(s[2..])) else None
  }

  /** None when an exception is thrown: malformed hex or an empty part list. */
  function GetPseudorandomPart(pseudorandomness: nat, partCount: nat, shiftAmount: nat,
                               uintSize: nat := 48): Option<nat> {
    var n := ParseHexNumber(ShiftRightAndCast(pseudorandomness, shiftAmount, uintSize));
    if n.None? || partCount == 0 then None else Some(n.value % partCount)
  }

  datatype NounSeed = NounSeed(background: nat, body: nat, accessory: nat, head: nat, glasses: nat)

  datatype PartCounts = PartCounts(bgcolors: nat, bodies: nat, accessories: nat, heads: nat, glasses: nat)

  /** `pseudorandomness` is the keccak hash of block hash and noun id, as a number. */
  function GetNounSeed(pseudorandomness: nat, c: PartCounts): Option<NounSeed> {
    var background := GetPseudorandomPart(pseudorandomness, c.bgcolors, 0);
    var body := GetPseudorandomPart(pseudorandomness, c.bodies, 48);
    var accessory := GetPseudorandomPart(pseudorandomness, c.accessories, 96);
    var head := GetPseudorandomPart(pseudorandomness, c.heads, 144);
    var glasses := GetPseudorandomPart(pseudorandomness, c.glasses, 192);
    if background.None? || body.None? || accessory.None? || head.None? || glasses.None? then None
    else Some(NounSeed(background.value, body.value, accessory.value, head.value, glasses.value))
  }

  // ---------- slicing is modular arithmetic ----------

  lemma {:induction false} PowAdd(a: nat, b: nat)
    ensures Pow2(a + b) == Pow2(a) * Pow2(b)
  {
    if a > 0 {
      PowAdd(a - 1, b);
      Hex.MulAssoc(2, Pow2(a - 1), Pow2(b));
    }
  }

  lemma {:induction false} SixteenIsTwoToTheFour(k: nat)
    ensures Hex.Pow16(k) == Pow2(4 * k)
  {
    if k > 0 {
      SixteenIsTwoToTheFour(k - 1);
      PowAdd(4, 4 * (k - 1));
      assert Pow2(4) == 16 by { assert Pow2(1) == 2 && Pow2(2) == 4 && Pow2(3) == 8; }
    }
  }

  lemma PadToEvenKeeps(h: string)
    requires Hex.AllDigits(h)
    ensures Hex.AllDigits(PadToEven(h)) && Hex.Value(PadToEven(h)) == Hex.Value(h)
  {
    LeadingZero(h);
  }

  lemma PadToEvenLength(h: string)
    ensures |PadToEven(h)| == |h| + |h| % 2 && |PadToEven(h)| % 2 == 0
  {
  }

  lemma EvenDigitsValue(n: nat)
    ensures Hex.AllDigits(EvenDigits(n)) && Hex.Value(EvenDigits(n)) == n
  {
    Hex.ToHexRoundTrip(n);
    PadToEvenKeeps(Hex.ToHex(n));
  }

  /** For an even k: more than k digits are printed exactly from 16^k on. */
  lemma EvenDigitsLength(n: nat, k: nat)
    requires k > 0 && k % 2 == 0
    ensures |EvenDigits(n)| > k <==> n >= Hex.Pow16(k)
  {
    Hex.ToHexLength(n, k);
    PadToEvenLength(Hex.ToHex(n));
    RoundUpToEven(|Hex.ToHex(n)|, k);
  }

  lemma RoundUpToEven(length: nat, k: nat)
    requires k % 2 == 0
    ensures length + length % 2 > k <==> length > k
  {
  }

  lemma LeadingZero(h: string)
    requires Hex.AllDigits(h)
    ensures Hex.AllDigits("0" + h) && Hex.Value("0" + h) == Hex.Value(h)
  {
    Hex.SuffixIsModulo("0" + h, |h|);
    assert ("0" + h)[..1] == "0" && ("0" + h)[1..] == h;
    assert "0"[..0] == "" && Hex.Value("0") == 0;
  }

  lemma LastDigits(s: string, k: nat)
    requires Hex.AllDigits(s) && k <= |s|
    ensures Hex.Pow16(k) > 0
    ensures Hex.Value(s[|s| - k..]) == Hex.Value(s) % Hex.Pow16(k)
  {
    Hex.SuffixIsModulo(s, k);
    Hex.PowPositive(k);
    ModUnique(Hex.Value(s), Hex.Value(s[..|s| - k]), Hex.Value(s[|s| - k..]), Hex.Pow16(k));
  }

  lemma ModUnique(n: nat, q: nat, r: nat, d: nat)
    requires n == q * d + r && r < d
    ensures n % d == r && n / d == q
  {
    var q', r' := n / d, n % d;
    assert n == q' * d + r';
    if q' > q {
      Scale(q' - q, q, d);
    } else if q > q' {
      Scale(q - q', q', d);
    }
  }

  lemma Scale(k: nat, q: int, d: nat)
    requires k >= 1
    ensures (q + k) * d >= q * d + d
  {
    assert (q + k) * d == q * d + k * d;
    assert k * d == d + (k - 1) * d;
    assert (k - 1) * d >= 0;
  }

  /** Cutting the last twelve characters: all digits when there are more than ten, else with the "0x". */
  lemma SliceText(digits: string)
    requires Hex.AllDigits(digits) && |digits| % 2 == 0
    ensures ParseHexNumber(LastBits("0x" + digits, 48)) ==
            if |digits| > 10 then Some(Hex.Value(digits[|digits| - 12..])) else None
  {
    var shifted := "0x" + digits;
    if |digits| > 10 {
      var start := |shifted| - 12;
      assert (4 * |shifted| - 48) / 4 == start;
      var text := "0x" + shifted[start..];
      assert shifted[start..] == digits[|digits| - 12..];
      assert text[..2] == "0x" && text[2..] == digits[|digits| - 12..];
    } else {
      var text := "0x" + shifted;
      assert text[2..] == shifted && shifted[1] == 'x';
    }
  }

  /** More than ten digits are printed from 16^10 on, and then the last twelve are the number modulo 16^12. */
  lemma TailIsField(n: nat)
    ensures Hex.AllDigits(EvenDigits(n)) && |EvenDigits(n)| % 2 == 0 && Hex.Pow16(12) > 0
    ensures |EvenDigits(n)| > 10 <==> n >= Hex.Pow16(10)
    ensures |EvenDigits(n)| > 10 ==> Hex.Value(EvenDigits(n)[|EvenDigits(n)| - 12..]) == n % Hex.Pow16(12)
  {
    EvenDigitsValue(n);
    PadToEvenLength(Hex.ToHex(n));
    EvenDigitsLength(n, 10);
    Hex.PowPositive(12);
    if |EvenDigits(n)| > 10 { LastDigits(EvenDigits(n), 12); }
  }

  lemma SliceIsField(value: nat, shift: nat)
    ensures Hex.Pow16(12) > 0
    ensures var n := Shr(value, shift);
            ParseHexNumber(ShiftRightAndCast(value, shift, 48)) == if n >= Hex.Pow16(10) then Some(n % Hex.Pow16(12))
                else None
  {
    var n := Shr(value, shift);
    TailIsField(n);
    SliceText(EvenDigits(n));
    assert ShiftRightAndCast(value, shift, 48) == LastBits("0x" + EvenDigits(n), 48);
  }

  /**
   * The text slice is the 48-bit field at the shift, modulo the number of parts, exactly when the
   * shifted value has at least 2^40; below that the slice keeps its "0x" and is no number.
   */
  lemma PartIsFieldIff(value: nat, partCount: nat, shift: nat)
    ensures var n := Shr(value, shift);
            GetPseudorandomPart(value, partCount, shift) ==
            if n >= Pow2(40) && partCount > 0 then Some(n % Pow2(48) % partCount) else None
  {
    SliceIsField(value, shift);
    SixteenIsTwoToTheFour(10);
    SixteenIsTwoToTheFour(12);
  }

  // ---------- the five parts read five fields ----------

  const FIELD: nat := Pow2(48)

  /** A number written in 48-bit fields, lowest first. */
  function Compose(fields: seq<nat>): nat {
    if fields == [] then 0 else fields[0] + FIELD * Compose(fields[1..])
  }

  lemma Regroup(q': nat, b: nat, r': nat, a: nat, r: nat)
    ensures (q' * b + r') * a + r == q' * (a * b) + (r' * a + r)
  {
    Hex.MulAssoc(q', b, a);
    assert (q' * b + r') * a == (q' * b) * a + r' * a;
  }

  /** A remainder below b, scaled by a, with a remainder below a added, stays below a * b. */
  lemma RemainderFits(r': nat, r: nat, a: nat, b: nat)
    requires r' < b && r < a
    ensures r' * a + r < a * b
  {
    Scale(b - r', r', a);
    assert (r' + (b - r')) * a == b * a;
  }

  lemma NestedQuotient(n: nat, a: nat, b: nat, q: nat, r: nat, q': nat, r': nat)
    requires n == q * a + r && q == q' * b + r' && r < a && r' < b
    ensures a * b > 0 && n / (a * b) == q'
  {
    Regroup(q', b, r', a, r);
    RemainderFits(r', r, a, b);
    ModUnique(n, q', r' * a + r, a * b);
  }

  lemma Divided(n: nat, d: nat)
    requires d > 0
    ensures n / d >= 0 && n == (n / d) * d + n % d
  {
    DivNat(n, d);
  }

  lemma DivTwice(n: nat, a: nat, b: nat)
    requires a > 0 && b > 0
    ensures a * b > 0 && n / a >= 0 && n / (a * b) == (n / a) / b
  {
    Divided(n, a);
    Divided(n / a, b);
    NestedQuotient(n, a, b, n / a, n % a, (n / a) / b, (n / a) % b);
  }

  lemma {:induction false} FieldOfCompose(fields: seq<nat>, i: nat)
    requires i < |fields| && forall j :: 0 <= j < |fields| ==> fields[j] < FIELD
    ensures Shr(Compose(fields), 48 * i) == Compose(fields[i..])
    ensures Compose(fields[i..]) % FIELD == fields[i]
  {
    var rest := fields[i..];
    ModUnique(Compose(rest), Compose(rest[1..]), rest[0], FIELD);
    if i == 0 {
      assert rest == fields;
    } else {
      FieldOfCompose(fields, i - 1);
      var before := fields[i - 1..];
      assert before[1..] == rest;
      ModUnique(Compose(before), Compose(rest), before[0], FIELD);
      PowAdd(48 * (i - 1), 48);
      DivTwice(Compose(fields), Pow2(48 * (i - 1)), FIELD);
    }
  }

  /** Field i can be cut out: what stands above the shift has at least 2^40. */
  predicate Cuts(fields: seq<nat>, i: nat)
    requires i <= |fields|
  {
    Compose(fields[i..]) >= Pow2(40)
  }

  /**
   * The five parts of a seed read the five lowest 48-bit fields, one each, and index their part
   * lists in range; a seed comes out exactly when all fields can be cut and no part list is empty.
   */
  lemma SeedReadsDisjointFields(fields: seq<nat>, c: PartCounts)
    requires |fields| >= 5 && forall j :: 0 <= j < |fields| ==> fields[j] < FIELD
    ensures GetNounSeed(Compose(fields), c) ==
            if && Cuts(fields, 0) && Cuts(fields, 1) && Cuts(fields, 2) && Cuts(fields, 3) && Cuts(fields, 4)
               && c.bgcolors > 0 && c.bodies > 0 && c.accessories > 0 && c.heads > 0 && c.glasses > 0
            then Some(NounSeed(
              fields[0] % c.bgcolors, fields[1] % c.bodies, fields[2] % c.accessories,
              fields[3] % c.heads, fields[4] % c.glasses))
            else None
  {
    OnePart(fields, 0, c.bgcolors); OnePart(fields, 1, c.bodies); OnePart(fields, 2, c.accessories);
    OnePart(fields, 3, c.heads); OnePart(fields, 4, c.glasses);
  }

  lemma OnePart(fields: seq<nat>, i: nat, count: nat)
    requires i < |fields| && forall j :: 0 <= j < |fields| ==> fields[j] < FIELD
    ensures GetPseudorandomPart(Compose(fields), count, 48 * i) ==
            if Cuts(fields, i) && count > 0 then Some(fields[i] % count) else None
  {
    FieldOfCompose(fields, i);
    PartIsFieldIff(Compose(fields), count, 48 * i);
  }

  // ---------- every hash ----------

  lemma Quotient(n: nat, d: nat)
    requires d >= 2
    ensures n / d >= 0 && n == n % d + d * (n / d) && n % d < d
    ensures n > 0 ==> n / d < n
  {
    Divided(n, d);
    if n / d > 0 {
      Scale(n / d, 0, d - 1);
      assert (n / d) * d == (n / d) * (d - 1) + n / d;
    }
  }

  lemma FieldIsWide()
    ensures FIELD >= 2
  {
    assert Pow2(48) == 2 * Pow2(47);
  }

  /** At least `least` fields of a number, lowest first. */
  function Fields(n: nat, least: nat): (fields: seq<nat>)
    ensures |fields| >= least
    ensures forall j :: 0 <= j < |fields| ==> fields[j] < FIELD
    decreases n, least
  {
    if n == 0 && least == 0 then []
    else
      FieldIsWide();
      Quotient(n, FIELD);
      [n % FIELD] + Fields(n / FIELD, if least == 0 then 0 else least - 1)
  }

  lemma ComposeCons(x: nat, rest: seq<nat>)
    ensures Compose([x] + rest) == x + FIELD * Compose(rest)
  {
    assert ([x] + rest)[1..] == rest;
  }

  /** Every number is composed of its fields. */
  lemma {:induction false} ComposeFields(n: nat, least: nat)
    ensures Compose(Fields(n, least)) == n
    decreases n, least
  {
    if n > 0 || least > 0 {
      FieldIsWide();
      Quotient(n, FIELD);
      var next := if least == 0 then 0 else least - 1;
      ComposeFields(n / FIELD, next);
      ComposeCons(n % FIELD, Fields(n / FIELD, next));
    }
  }

  /** The theorem for every hash: its parts are read from the five lowest of its own fields. */
  lemma HashReadsDisjointFields(hash: nat, c: PartCounts)
    ensures var fields := Fields(hash, 5);
            && Compose(fields) == hash
            && GetNounSeed(hash, c) ==
               if && Cuts(fields, 0) && Cuts(fields, 1) && Cuts(fields, 2) && Cuts(fields, 3) && Cuts(fields, 4)
                  && c.bgcolors > 0 && c.bodies > 0 && c.accessories > 0 && c.heads > 0 && c.glasses > 0
               then Some(NounSeed(
                 fields[0] % c.bgcolors, fields[1] % c.bodies, fields[2] % c.accessories,
                 fields[3] % c.heads, fields[4] % c.glasses))
               else None
  {
    ComposeFields(hash, 5);
    SeedReadsDisjointFields(Fields(hash, 5), c);
  }
}
