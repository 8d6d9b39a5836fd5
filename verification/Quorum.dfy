/** packages/nouns-subgraph/src/utils/dynamicQuorum.ts: the fixed-point dynamic quorum. */
module Quorum {
  import opened Wrappers

  /** `BigInt.div` rounds toward zero. */
  function TruncDiv(a: int, b: int): int
    requires b != 0
  {
    if (a >= 0) == (b > 0) then Abs(a) / Abs(b) else -(Abs(a) / Abs(b))
  }

  function Abs(a: int): nat {
    if a < 0 then -a else a
  }

  function Min(a: int, b: int): int {
    if a <= b then a else b
  }

  predicate FitsI32(n: int) {
    -0x8000_0000 <= n < 0x8000_0000
  }

  /** The quorum in votes; None when the handler aborts on a zero supply or in `toI32`. */
  function DynamicQuorumVotes(againstVotes: int, totalSupply: int, minQuorumVotesBPS: int, maxQuorumVotesBPS: int,
                              quorumCoefficient: int): Option<int>
  {
    if totalSupply == 0 then None
    else
      var againstVotesBPS := TruncDiv(againstVotes * 10000, totalSupply);
      var quorumAdjustmentBPS := TruncDiv(quorumCoefficient * againstVotesBPS, 1000000);
      var adjustedQuorumBPS := quorumAdjustmentBPS + minQuorumVotesBPS;
      if !FitsI32(adjustedQuorumBPS) then None
      else
        var quorumBPS := Min(maxQuorumVotesBPS, adjustedQuorumBPS);
        Some(TruncDiv(totalSupply * quorumBPS, 10000))
  }

  /** The ranges the DAO contract keeps its parameters in. */
  predicate InRange(min: int, max: int, coefficient: int) {
    0 <= min <= max <= 10000 && 0 <= coefficient < 0x1_0000_0000
  }

  /** Adjusted basis points when nothing is negative. */
  function Adjusted(against: nat, supply: nat, min: nat, coefficient: nat): (bps: nat)
    requires supply > 0
    ensures bps >= min
  {
    coefficient * (against * 10000 / supply) / 1000000 + min
  }

  lemma OnNaturals(against: nat, supply: nat, min: nat, max: nat, coefficient: nat)
    requires supply > 0
    ensures DynamicQuorumVotes(against, supply, min, max, coefficient) ==
            if FitsI32(Adjusted(against, supply, min, coefficient))
            then Some(supply * Min(max, Adjusted(against, supply, min, coefficient)) / 10000) else None
  {
    var bps := against * 10000 / supply;
    assert bps >= 0 && coefficient * bps >= 0;
    assert supply * Min(max, Adjusted(against, supply, min, coefficient)) >= 0;
  }

  lemma MulMono(a: nat, b: nat, c: nat)
    requires a <= b
    ensures c * a <= c * b && a * c <= b * c
  {
  }

  lemma QuotientOrder(q: nat, q': nat, d: nat)
    requires d * q < d * q' + d
    ensures q <= q'
  {
    assert d * (q' + 1) == d * q' + d;
    if q > q' { MulMono(q' + 1, q, d); }
  }

  lemma DivMono(a: nat, b: nat, d: nat)
    requires a <= b && d > 0
    ensures a / d <= b / d
  {
    assert a == d * (a / d) + a % d && b == d * (b / d) + b % d;
    QuotientOrder(a / d, b / d, d);
  }

  lemma DivExact(q: nat, d: nat)
    requires d > 0
    ensures (q * d) / d == q
  {
    var n := q * d;
    assert n == d * (n / d) + n % d && n == d * q;
    QuotientOrder(n / d, q, d);
    QuotientOrder(q, n / d, d);
  }

  /** With parameters in range and no more votes than tokens the handler cannot abort. */
  lemma CastCannotOverflow(against: nat, supply: nat, min: int, max: int, coefficient: int)
    requires supply > 0 && against <= supply && InRange(min, max, coefficient)
    ensures DynamicQuorumVotes(against, supply, min, max, coefficient).Some?
  {
    OnNaturals(against, supply, min, max, coefficient);
    AdjustmentBound(against, supply, coefficient);
  }

  lemma AdjustmentBound(against: nat, supply: nat, coefficient: nat)
    requires supply > 0 && against <= supply && coefficient < 0x1_0000_0000
    ensures coefficient * (against * 10000 / supply) / 1000000 <= 42949673
  {
    var bps := against * 10000 / supply;
    DivMono(against * 10000, 10000 * supply, supply);
    DivExact(10000, supply);
    MulMono(bps, 10000, coefficient);
    DivMono(coefficient * bps, 0x1_0000_0000 * 10000, 1000000);
  }

  lemma ShareMonotone(bps: nat, bps': nat, factor: nat, d: nat)
    requires bps <= bps' && d > 0
    ensures factor * bps / d <= factor * bps' / d
  {
    MulMono(bps, bps', factor);
    DivMono(factor * bps, factor * bps', d);
  }

  lemma CappedBetween(supply: nat, min: nat, max: nat, adjusted: nat)
    requires min <= adjusted && min <= max
    ensures supply * min / 10000 <= supply * Min(max, adjusted) / 10000 <= supply * max / 10000
  {
    ShareMonotone(min, Min(max, adjusted), supply, 10000);
    ShareMonotone(Min(max, adjusted), max, supply, 10000);
  }

  /** The result lies between the floors of the least and the greatest configured quorum. */
  lemma QuorumBetweenBounds(against: nat, supply: nat, min: int, max: int, coefficient: int)
    requires InRange(min, max, coefficient)
    ensures var q := DynamicQuorumVotes(against, supply, min, max, coefficient);
            q.Some? ==> supply * min / 10000 <= q.value <= supply * max / 10000
  {
    if supply > 0 {
      OnNaturals(against, supply, min, max, coefficient);
      CappedBetween(supply, min, max, Adjusted(against, supply, min, coefficient));
    }
  }

  lemma AdjustedMonotone(against: nat, more: nat, supply: nat, min: nat, coefficient: nat)
    requires against <= more && supply > 0
    ensures Adjusted(against, supply, min, coefficient) <= Adjusted(more, supply, min, coefficient)
  {
    DivMono(against * 10000, more * 10000, supply);
    ShareMonotone(against * 10000 / supply, more * 10000 / supply, coefficient, 1000000);
  }

  /** More votes against never lower the quorum. */
  lemma QuorumMonotone(against: nat, more: nat, supply: nat, min: nat, max: nat, coefficient: nat)
    requires against <= more
    requires DynamicQuorumVotes(against, supply, min, max, coefficient).Some?
    requires DynamicQuorumVotes(more, supply, min, max, coefficient).Some?
    ensures DynamicQuorumVotes(against, supply, min, max, coefficient).value
            <= DynamicQuorumVotes(more, supply, min, max, coefficient).value
  {
    OnNaturals(against, supply, min, max, coefficient);
    OnNaturals(more, supply, min, max, coefficient);
    AdjustedMonotone(against, more, supply, min, coefficient);
    ShareMonotone(Min(max, Adjusted(against, supply, min, coefficient)),
        Min(max, Adjusted(more, supply, min, coefficient)), supply, 10000);
  }

  // ---------- how far the fixed-point result is from the rational one ----------

  function RMin(a: real, b: real): real {
    if a <= b then a else b
  }

  /** Extra basis points per basis point of votes against. */
  function Slope(coefficient: nat): (c: real)
    ensures c >= 0.0
  {
    coefficient as real / 1000000.0
  }

  /** Basis points without rounding and without the cap. */
  function ExactBPS(against: nat, supply: nat, min: nat, coefficient: nat): real
    requires supply > 0
  {
    min as real + Slope(coefficient) * ((against * 10000) as real / supply as real)
  }

  function RShare(supply: nat, bps: real): real {
    supply as real * bps / 10000.0
  }

  /** The quorum without any rounding. */
  function ExactQuorum(against: nat, supply: nat, min: nat, max: nat, coefficient: nat): real
    requires supply > 0
  {
    RShare(supply, RMin(max as real, ExactBPS(against, supply, min, coefficient)))
  }

  lemma FloorGap(a: nat, d: nat)
    requires d > 0
    ensures (a / d) as real <= a as real / d as real < (a / d) as real + 1.0
  {
    var q, r := a / d, a % d;
    assert a == q * d + r;
    assert a as real == q as real * d as real + r as real;
    assert (q as real * d as real) / d as real == q as real;
    assert a as real / d as real == q as real + r as real / d as real;
    assert 0.0 <= r as real / d as real < 1.0;
  }

  lemma RMulMono(a: real, b: real, c: real)
    requires a <= b && c >= 0.0
    ensures c * a <= c * b
  {
  }

  lemma RMulStrict(a: real, b: real, c: real)
    requires a < b && c > 0.0
    ensures c * a < c * b
  {
  }

  /** The coefficient's product, rounded down, loses less than one basis point. */
  lemma ProductGap(coefficient: nat, bps: nat)
    ensures var k := (coefficient * bps / 1000000) as real;
            k <= Slope(coefficient) * bps as real < k + 1.0
  {
    FloorGap(coefficient * bps, 1000000);
    assert (coefficient * bps) as real == coefficient as real * bps as real;
    assert Slope(coefficient) * bps as real == (coefficient as real * bps as real) / 1000000.0;
  }

  /** The products are named: the solver factors a sum of products and then cannot compare it. */
  lemma Distribute(c: real, b: real, d: real, cb: real, cd: real, cr: real)
    requires cb == c * b && cd == c * d && cr == c * (b + d)
    ensures cr == cb + cd
  {
  }

  lemma PartOfUnit(c: real, d: real)
    requires 0.0 <= d < 1.0 && c >= 0.0
    ensures 0.0 <= c * d <= c
  {
  }

  /** Rounding a factor down by less than one loses at most `c` of a product with `c`. */
  lemma FactorGap(c: real, b: real, r: real, cb: real, cr: real)
    requires b <= r < b + 1.0 && c >= 0.0 && cb == c * b && cr == c * r
    ensures cb <= cr <= cb + c
  {
    var d := r - b;
    PartOfUnit(c, d);
    assert b + d == r;
    Distribute(c, b, d, cb, c * d, cr);
  }

  /** Both roundings together, in whole basis points. */
  lemma RoundingGap(k: nat, min: nat, c: real, b: nat, r: real)
    requires k as real <= c * b as real < k as real + 1.0 && b as real <= r < b as real + 1.0 && c >= 0.0
    ensures (k + min) as real <= min as real + c * r < (k + min) as real + (c + 1.0)
  {
    FactorGap(c, b as real, r, c * b as real, c * r);
    assert (k + min) as real == k as real + min as real;
  }

  /** Two roundings lose less than Slope + 1 basis points. */
  lemma AdjustedIsClose(against: nat, supply: nat, min: nat, coefficient: nat)
    requires supply > 0
    ensures Adjusted(against, supply, min, coefficient) as real <= ExactBPS(against, supply, min, coefficient)
            < Adjusted(against, supply, min, coefficient) as real + (Slope(coefficient) + 1.0)
  {
    var bps := against * 10000 / supply;
    FloorGap(against * 10000, supply);
    ProductGap(coefficient, bps);
    RoundingGap(coefficient * bps / 1000000, min, Slope(coefficient), bps, (against * 10000) as real / supply as real);
  }

  lemma Combine(q: real, share: real, exact: real, slack: real)
    requires q <= share / 10000.0 < q + 1.0 && share <= exact < share + slack
    ensures q <= exact / 10000.0 < q + 1.0 + slack / 10000.0
  {
  }

  /** q is at most `exact`, and below it by less than 1 + supply*(c+1)/10000. */
  predicate CloseBelow(q: int, exact: real, supply: nat, c: real) {
    q as real <= exact < q as real + 1.0 + supply as real * (c + 1.0) / 10000.0
  }

  lemma ShareAccuracy(against: nat, supply: nat, min: nat, max: nat, coefficient: nat)
    requires supply > 0
    ensures CloseBelow(supply * Min(max, Adjusted(against, supply, min, coefficient)) / 10000,
                       ExactQuorum(against, supply, min, max, coefficient), supply, Slope(coefficient))
  {
    AdjustedIsClose(against, supply, min, coefficient);
    CappedIsClose(supply, max, Adjusted(against, supply, min, coefficient), ExactBPS(against, supply, min, coefficient),
                  Slope(coefficient));
  }

  /** The fixed-point result never exceeds the rational quorum and stays within the stated distance. */
  lemma QuorumAccuracy(against: nat, supply: nat, min: nat, max: nat, coefficient: nat)
    requires supply > 0 && DynamicQuorumVotes(against, supply, min, max, coefficient).Some?
    ensures CloseBelow(DynamicQuorumVotes(against, supply, min, max, coefficient).value,
                       ExactQuorum(against, supply, min, max, coefficient), supply, Slope(coefficient))
  {
    ShareAccuracy(against, supply, min, max, coefficient);
    var q := DynamicQuorumVotes(against, supply, min, max, coefficient).value;
    assert q == supply * Min(max, Adjusted(against, supply, min, coefficient)) / 10000 by {
      OnNaturals(against, supply, min, max, coefficient);
    }
  }

  lemma MinIsClose(max: real, a: real, exact: real, slack: real)
    requires a <= exact < a + slack
    ensures RMin(max, a) <= RMin(max, exact) < RMin(max, a) + slack
  {
  }

  lemma CappedIsClose(supply: nat, max: nat, adjusted: nat, exact: real, c: real)
    requires supply > 0 && adjusted as real <= exact < adjusted as real + (c + 1.0)
    ensures CloseBelow(supply * Min(max, adjusted) / 10000, RShare(supply, RMin(max as real, exact)), supply, c)
  {
    MinIsClose(max as real, adjusted as real, exact, c + 1.0);
    assert Min(max, adjusted) as real == RMin(max as real, adjusted as real);
    ShareIsClose(supply, Min(max, adjusted), RMin(max as real, exact), c + 1.0);
  }

  lemma ShareIsClose(supply: nat, bps: nat, exact: real, slack: real)
    requires supply > 0 && bps as real <= exact < bps as real + slack
    ensures var q := (supply * bps / 10000) as real;
            q <= supply as real * exact / 10000.0 < q + 1.0 + supply as real * slack / 10000.0
  {
    var s := supply as real;
    RMulMono(bps as real, exact, s);
    RMulStrict(exact, bps as real + slack, s);
    assert s * (bps as real + slack) == s * bps as real + s * slack;
    MulMono(0, bps, supply);
    FloorGap(supply * bps, 10000);
    assert (supply * bps) as real == s * bps as real;
    Combine((supply * bps / 10000) as real, s * bps as real, s * exact, s * slack);
  }

  // ---------- the result without the formula ----------

  /** q is a divided by d, rounded down. */
  predicate IsFloor(q: nat, a: int, d: nat) {
    q * d <= a < q * d + d
  }

  lemma FloorIsQuotient(q: nat, a: int, d: nat)
    requires d > 0 && IsFloor(q, a, d)
    ensures q == a / d
  {
    assert q * d >= 0;
    assert a == d * (a / d) + a % d && q * d == d * q;
    QuotientOrder(q, a / d, d);
    QuotientOrder(a / d, q, d);
  }

  /**
   * Three floors, in this order: the share of votes against in basis points, its product with the
   * coefficient in millionths, and the capped basis points of the supply. The cast aborts exactly
   * when the basis points before the cap do not fit 31 bits.
   */
  lemma QuorumIsThreeFloors(against: nat, supply: nat, min: nat, max: nat, coefficient: nat,
                            bps: nat, adjustment: nat, votes: nat)
    requires supply > 0 && IsFloor(bps, against * 10000, supply) && IsFloor(adjustment, coefficient * bps, 1000000)
    requires var capped := if max < min + adjustment then max else min + adjustment;
             IsFloor(votes, supply * capped, 10000)
    ensures DynamicQuorumVotes(against, supply, min, max, coefficient) ==
            if min + adjustment < 0x8000_0000 then Some(votes) else None
  {
    var capped := if max < min + adjustment then max else min + adjustment;
    OnNaturals(against, supply, min, max, coefficient);
    FloorIsQuotient(bps, against * 10000, supply);
    FloorIsQuotient(adjustment, coefficient * bps, 1000000);
    FloorIsQuotient(votes, supply * capped, 10000);
    assert Min(max, Adjusted(against, supply, min, coefficient)) == capped;
  }
}
