/** The matcher's deterministic integer pricing rule: a spread built from a
    floor, an inventory-imbalance term and an insurance-coverage discount,
    clamped to `[1, max_spread_bps]`, then turned into an execution price. */
module Pricing {
  import opened Ints

  /** Basis-point denominator. */
  const BPS: nat := 10000

  // ---------------------------------------------------------------------------
  // Arithmetic facts about floor division
  // ---------------------------------------------------------------------------

  lemma MulMonotone(a: int, b: int, c: int)
    requires a <= b && c >= 0
    ensures a * c <= b * c
  {
  }

  lemma MulCancel(x: int, y: int, d: int)
    requires d > 0 && x * d < y * d
    ensures x < y
  {
    if x >= y { MulMonotone(y, x, d); }
  }

  lemma DivMonotone(a: nat, b: nat, d: nat)
    requires a <= b && d > 0
    ensures a / d <= b / d
  {
    var qa, qb := a / d, b / d;
    assert qa * d <= a;
    assert b < (qb + 1) * d;
    MulCancel(qa, qb + 1, d);
  }

  lemma DivAntitone(a: nat, d1: nat, d2: nat)
    requires 0 < d1 <= d2
    ensures a / d2 <= a / d1
  {
    var q1, q2 := a / d1, a / d2;
    MulMonotone(d1, d2, q2);
    assert q2 * d2 <= a;
    assert a < (q1 + 1) * d1;
    MulCancel(q2, q1 + 1, d1);
  }

  lemma MulDiv(x: nat, d: nat)
    requires d > 0
    ensures x * d / d == x
  {
    var q := x * d / d;
    assert q * d <= x * d < (q + 1) * d;
    MulCancel(q, x + 1, d);
    MulCancel(x, q + 1, d);
  }

  /** `x * m / BPS`, rounded down: `x` scaled by `m` basis points. */
  function ScaleBps(x: nat, m: nat): nat {
    x * m / BPS
  }

  /** Scaling does not reduce `x` when `m >= BPS`, nor raise it when `m <= BPS`. */
  lemma ScaleByBps(x: nat, m: nat)
    ensures m <= BPS ==> ScaleBps(x, m) <= x
    ensures m >= BPS ==> x <= ScaleBps(x, m)
  {
    MulDiv(x, BPS);
    if m <= BPS {
      MulMonotone(m, BPS, x);
      DivMonotone(x * m, x * BPS, BPS);
    } else {
      MulMonotone(BPS, m, x);
      DivMonotone(x * BPS, x * m, BPS);
    }
  }

  /** Scaling a positive `x` by less than 100% gives strictly less than `x`. */
  lemma ScaleBelow(x: nat, m: nat)
    ensures x > 0 && m < BPS ==> ScaleBps(x, m) < x
  {
    if x > 0 && m < BPS {
      var q := x * m / BPS;
      MulMonotone(m + 1, BPS, x);
      assert q * BPS <= x * m < x * BPS;
      MulCancel(q, x, BPS);
    }
  }

  lemma ScaleBpsMonotone(x: nat, m1: nat, m2: nat)
    requires m1 <= m2
    ensures ScaleBps(x, m1) <= ScaleBps(x, m2)
  {
    MulMonotone(m1, m2, x);
    DivMonotone(x * m1, x * m2, BPS);
  }

  // ---------------------------------------------------------------------------
  // Step 2: inventory imbalance (lib.rs `imbalance_cost`)
  // ---------------------------------------------------------------------------

  /** `(k as u128).checked_mul(abs).unwrap_or(u128::MAX)`: the product,
      saturated at u128::MAX. */
  function ImbalanceProduct(k: u32, inventoryAbs: u128): (r: u128)
    ensures r <= k * inventoryAbs
    ensures k * inventoryAbs <= U128_MAX ==> r == k * inventoryAbs
    ensures k * inventoryAbs > U128_MAX ==> r == U128_MAX
  {
    if k * inventoryAbs <= U128_MAX then k * inventoryAbs else U128_MAX
  }

  lemma ImbalanceProductMonotone(k: u32, a1: u128, a2: u128)
    requires a1 <= a2
    ensures ImbalanceProduct(k, a1) <= ImbalanceProduct(k, a2)
  {
    MulMonotone(a1, a2, k);
  }

  /** The imbalance term as the code evidently means it: the saturated
      product divided by the liquidity scale, saturated at u64::MAX. */
  function ImbalanceCost(k: u32, inventoryAbs: u128, liquidity: u128): (r: u64)
    requires liquidity > 0
    ensures r <= ImbalanceProduct(k, inventoryAbs) / liquidity
    ensures r == ImbalanceProduct(k, inventoryAbs) / liquidity || r == U64_MAX
    ensures ImbalanceProduct(k, inventoryAbs) / liquidity >= U64_MAX ==> r == U64_MAX
    ensures inventoryAbs == 0 ==> r == 0
  {
    assert inventoryAbs == 0 ==> k * inventoryAbs == 0;
    Min(ImbalanceProduct(k, inventoryAbs) / liquidity, U64_MAX)
  }

  /** The imbalance term as written: the saturated product divided by the
      liquidity scale, then cast `as u64`, which truncates. */
  function ImbalanceCostAsWritten(k: u32, inventoryAbs: u128, liquidity: u128): (r: u64)
    requires liquidity > 0
    ensures k * inventoryAbs <= U128_MAX && k * inventoryAbs / liquidity < TWO_64
            ==> r == k * inventoryAbs / liquidity
    ensures inventoryAbs == 0 ==> r == 0
  {
    assert inventoryAbs == 0 ==> k * inventoryAbs == 0;
    TruncU64(ImbalanceProduct(k, inventoryAbs) / liquidity)
  }

  lemma ImbalanceCostMonotone(k: u32, a1: u128, a2: u128, liquidity: u128)
    requires liquidity > 0 && a1 <= a2
    ensures ImbalanceCost(k, a1, liquidity) <= ImbalanceCost(k, a2, liquidity)
  {
    ImbalanceProductMonotone(k, a1, a2);
    DivMonotone(ImbalanceProduct(k, a1), ImbalanceProduct(k, a2), liquidity);
  }

  /** Steps 1 and 2: the floor, widened by the imbalance of the PRE-trade
      inventory when both the liquidity scale and `k` are nonzero. */
  function ImbalancedSpread(minSpread: u32, k: u32, liquidity: u128, inventory: i128): (r: u64)
    ensures minSpread <= r
    ensures liquidity == 0 || k == 0 || inventory == 0 ==> r == minSpread
  {
    if liquidity > 0 && k > 0 then SaturatingAdd(minSpread, ImbalanceCost(k, UnsignedAbs(inventory), liquidity))
    else minSpread
  }

  function ImbalancedSpreadAsWritten(minSpread: u32, k: u32, liquidity: u128, inventory: i128): (r: u64)
    ensures minSpread <= r
    ensures liquidity == 0 || k == 0 || inventory == 0 ==> r == minSpread
  {
    if liquidity > 0 && k > 0 then SaturatingAdd(minSpread, ImbalanceCostAsWritten(k, UnsignedAbs(inventory), liquidity))
    else minSpread
  }

  // ---------------------------------------------------------------------------
  // Step 3: insurance-coverage discount
  // ---------------------------------------------------------------------------

  lemma CoverageQuotient(insurance: u128, openInterest: u128)
    requires openInterest > 0
    ensures insurance >= openInterest ==> insurance * BPS / openInterest >= BPS
    ensures insurance <= openInterest ==> insurance * BPS / openInterest <= BPS
  {
    MulDiv(BPS, openInterest);
    if insurance >= openInterest {
      MulMonotone(openInterest, insurance, BPS);
      DivMonotone(openInterest * BPS, insurance * BPS, openInterest);
    } else {
      MulMonotone(insurance, openInterest, BPS);
      DivMonotone(insurance * BPS, openInterest * BPS, openInterest);
    }
  }

  /** Insurance coverage of open interest in basis points, capped at 100%. */
  function CoverageBps(insurance: u128, openInterest: u128): (r: nat)
    requires openInterest > 0
    ensures r <= BPS
    ensures insurance >= openInterest ==> r == BPS
    ensures insurance < openInterest ==> r == insurance * BPS / openInterest
  {
    CoverageQuotient(insurance, openInterest);
    if insurance * BPS / openInterest >= BPS then BPS else insurance * BPS / openInterest
  }

  /** Coverage as written: `insurance * BPS` wraps at 2^128 and the quotient is
      cast `as u64` (truncating) before the 100% cap is applied. */
  function CoverageBpsAsWritten(insurance: u128, openInterest: u128): (r: u64)
    requires openInterest > 0
    ensures insurance * BPS < TWO_128 && insurance * BPS / openInterest < TWO_64
            ==> r == insurance * BPS / openInterest
    ensures insurance == 0 ==> r == 0
  {
    assert insurance == 0 ==> insurance * BPS == 0;
    TruncU64(WrapU128(insurance * BPS) / openInterest)
  }

  /** Up to full coverage, and without the product wrapping, the coverage as
      written is the intended one. */
  lemma CoverageAsWrittenUpToFull(insurance: u128, openInterest: u128)
    requires 0 < openInterest && insurance <= openInterest && insurance * BPS < TWO_128
    ensures CoverageBpsAsWritten(insurance, openInterest) == CoverageBps(insurance, openInterest)
  {
    CoverageQuotient(insurance, openInterest);
  }

  /** `min(coverage, BPS) * weight / BPS`; the product is below 2^46, so the
      `checked_mul(..).unwrap_or(0)` of the source never takes its fallback. */
  function Discount(coverage: nat, weight: u32): (r: nat)
    ensures r <= weight
    ensures coverage >= BPS ==> r == weight
    ensures weight > 0 && coverage < BPS ==> r < weight
  {
    ScaleByBps(weight, Min(coverage, BPS));
    ScaleBelow(weight, Min(coverage, BPS));
    ScaleBps(weight, Min(coverage, BPS))
  }

  lemma DiscountMonotone(c1: nat, c2: nat, weight: u32)
    requires c1 <= c2
    ensures Discount(c1, weight) <= Discount(c2, weight)
  {
    ScaleBpsMonotone(weight, Min(c1, BPS), Min(c2, BPS));
  }

  lemma CoverageMonotone(i1: u128, i2: u128, openInterest: u128)
    requires openInterest > 0 && i1 <= i2
    ensures CoverageBps(i1, openInterest) <= CoverageBps(i2, openInterest)
  {
    DivMonotone(i1 * BPS, i2 * BPS, openInterest);
  }

  lemma CoverageAntitone(insurance: u128, o1: u128, o2: u128)
    requires 0 < o1 <= o2
    ensures CoverageBps(insurance, o2) <= CoverageBps(insurance, o1)
  {
    DivAntitone(insurance * BPS, o1, o2);
  }

  /** Step 3: subtract the discount (saturating) when the weight and the open
      interest are both nonzero; otherwise leave the spread as it is. */
  function DiscountedSpread(spread: u64, weight: u32, insurance: u128, openInterest: u128): (r: u64)
    ensures r <= spread
    ensures weight == 0 || openInterest == 0 || insurance == 0 ==> r == spread
    ensures spread - weight <= r
  {
    if weight > 0 && openInterest > 0 then SaturatingSub(spread, Discount(CoverageBps(insurance, openInterest), weight))
    else spread
  }

  function DiscountedSpreadAsWritten(spread: u64, weight: u32, insurance: u128, openInterest: u128): (r: u64)
    ensures r <= spread
    ensures weight == 0 || openInterest == 0 || insurance == 0 ==> r == spread
    ensures spread - weight <= r
  {
    if weight > 0 && openInterest > 0 then SaturatingSub(spread, Discount(CoverageBpsAsWritten(insurance, openInterest), weight))
    else spread
  }

  // ---------------------------------------------------------------------------
  // Step 4: clamp, and the whole spread
  // ---------------------------------------------------------------------------

  /** `spread.clamp(1, max)`; Rust's `clamp` panics when `max < 1`, so the
      callers check `max >= 1` first. */
  function Clamp(spread: u64, maxSpread: u32): (r: u64)
    requires maxSpread >= 1
    ensures 1 <= r <= maxSpread
    ensures 1 <= spread <= maxSpread ==> r == spread
    ensures spread < 1 ==> r == 1
    ensures spread > maxSpread ==> r == maxSpread
  {
    if spread < 1 then 1 else if spread > maxSpread then maxSpread else spread
  }

  lemma ClampMonotone(s1: u64, s2: u64, maxSpread: u32)
    requires maxSpread >= 1 && s1 <= s2
    ensures Clamp(s1, maxSpread) <= Clamp(s2, maxSpread)
  {
  }

  /** The spread in basis points, as the evidently intended rule computes it. */
  function Spread(minSpread: u32, maxSpread: u32, k: u32, liquidity: u128, weight: u32,
                  inventory: i128, insurance: u128, openInterest: u128): (r: u64)
    requires maxSpread >= 1
    ensures 1 <= r <= maxSpread
  {
    Clamp(DiscountedSpread(ImbalancedSpread(minSpread, k, liquidity, inventory), weight, insurance, openInterest), maxSpread)
  }

  /** The spread in basis points exactly as lib.rs computes it. */
  function SpreadAsWritten(minSpread: u32, maxSpread: u32, k: u32, liquidity: u128, weight: u32,
                           inventory: i128, insurance: u128, openInterest: u128): (r: u64)
    requires maxSpread >= 1
    ensures 1 <= r <= maxSpread
  {
    Clamp(DiscountedSpreadAsWritten(ImbalancedSpreadAsWritten(minSpread, k, liquidity, inventory), weight, insurance, openInterest), maxSpread)
  }

  // ---------------------------------------------------------------------------
  // Properties of the spread
  // ---------------------------------------------------------------------------

  /** With a zero weight or zero open interest there is no discount at all. */
  lemma NoDiscountWithoutWeightOrInterest(minSpread: u32, maxSpread: u32, k: u32, liquidity: u128, weight: u32,
                                          inventory: i128, insurance: u128, openInterest: u128)
    requires maxSpread >= 1 && (weight == 0 || openInterest == 0)
    ensures Spread(minSpread, maxSpread, k, liquidity, weight, inventory, insurance, openInterest)
         == Clamp(ImbalancedSpread(minSpread, k, liquidity, inventory), maxSpread)
  {
  }

  /** Full (or more than full) coverage gives exactly the weight as discount. */
  lemma FullCoverageFullDiscount(minSpread: u32, maxSpread: u32, k: u32, liquidity: u128, weight: u32,
                                 inventory: i128, insurance: u128, openInterest: u128)
    requires maxSpread >= 1 && 0 < openInterest <= insurance
    ensures Spread(minSpread, maxSpread, k, liquidity, weight, inventory, insurance, openInterest)
         == Clamp(SaturatingSub(ImbalancedSpread(minSpread, k, liquidity, inventory), weight), maxSpread)
  {
  }

  /** Higher coverage never widens the spread. */
  lemma SpreadMonotoneInInsurance(minSpread: u32, maxSpread: u32, k: u32, liquidity: u128, weight: u32,
                                  inventory: i128, i1: u128, i2: u128, openInterest: u128)
    requires maxSpread >= 1 && i1 <= i2
    ensures Spread(minSpread, maxSpread, k, liquidity, weight, inventory, i2, openInterest)
         <= Spread(minSpread, maxSpread, k, liquidity, weight, inventory, i1, openInterest)
  {
    var s := ImbalancedSpread(minSpread, k, liquidity, inventory);
    if weight > 0 && openInterest > 0 {
      CoverageMonotone(i1, i2, openInterest);
      DiscountMonotone(CoverageBps(i1, openInterest), CoverageBps(i2, openInterest), weight);
    }
    ClampMonotone(DiscountedSpread(s, weight, i2, openInterest), DiscountedSpread(s, weight, i1, openInterest), maxSpread);
  }

  /** More open interest against the same insurance never narrows the spread. */
  lemma SpreadMonotoneInOpenInterest(minSpread: u32, maxSpread: u32, k: u32, liquidity: u128, weight: u32,
                                     inventory: i128, insurance: u128, o1: u128, o2: u128)
    requires maxSpread >= 1 && 0 < o1 <= o2
    ensures Spread(minSpread, maxSpread, k, liquidity, weight, inventory, insurance, o1)
         <= Spread(minSpread, maxSpread, k, liquidity, weight, inventory, insurance, o2)
  {
    var s := ImbalancedSpread(minSpread, k, liquidity, inventory);
    if weight > 0 {
      CoverageAntitone(insurance, o1, o2);
      DiscountMonotone(CoverageBps(insurance, o2), CoverageBps(insurance, o1), weight);
    }
    ClampMonotone(DiscountedSpread(s, weight, insurance, o1), DiscountedSpread(s, weight, insurance, o2), maxSpread);
  }

  /** A larger inventory imbalance never narrows the spread. */
  lemma SpreadMonotoneInInventory(minSpread: u32, maxSpread: u32, k: u32, liquidity: u128, weight: u32,
                                  inv1: i128, inv2: i128, insurance: u128, openInterest: u128)
    requires maxSpread >= 1 && UnsignedAbs(inv1) <= UnsignedAbs(inv2)
    ensures Spread(minSpread, maxSpread, k, liquidity, weight, inv1, insurance, openInterest)
         <= Spread(minSpread, maxSpread, k, liquidity, weight, inv2, insurance, openInterest)
  {
    var s1 := ImbalancedSpread(minSpread, k, liquidity, inv1);
    var s2 := ImbalancedSpread(minSpread, k, liquidity, inv2);
    if liquidity > 0 && k > 0 {
      ImbalanceCostMonotone(k, UnsignedAbs(inv1), UnsignedAbs(inv2), liquidity);
    }
    assert s1 <= s2;
    ClampMonotone(DiscountedSpread(s1, weight, insurance, openInterest), DiscountedSpread(s2, weight, insurance, openInterest), maxSpread);
  }

  /** Where the coverage product does not wrap and neither `as u64` cast
      truncates, the code as written and the intended rule agree. */
  lemma SpreadAsWrittenAgrees(minSpread: u32, maxSpread: u32, k: u32, liquidity: u128, weight: u32,
                              inventory: i128, insurance: u128, openInterest: u128)
    requires maxSpread >= 1
    requires liquidity > 0 ==> ImbalanceProduct(k, UnsignedAbs(inventory)) / liquidity < TWO_64
    requires openInterest > 0 ==> insurance * BPS < TWO_128 && insurance * BPS / openInterest < TWO_64
    ensures SpreadAsWritten(minSpread, maxSpread, k, liquidity, weight, inventory, insurance, openInterest)
         == Spread(minSpread, maxSpread, k, liquidity, weight, inventory, insurance, openInterest)
  {
    if liquidity > 0 {
      ImbalanceCostAsWrittenAgrees(k, UnsignedAbs(inventory), liquidity);
    }
    DiscountedSpreadAsWrittenAgrees(ImbalancedSpread(minSpread, k, liquidity, inventory), weight, insurance, openInterest);
  }

  lemma ImbalanceCostAsWrittenAgrees(k: u32, inventoryAbs: u128, liquidity: u128)
    requires liquidity > 0 && ImbalanceProduct(k, inventoryAbs) / liquidity < TWO_64
    ensures ImbalanceCostAsWritten(k, inventoryAbs, liquidity) == ImbalanceCost(k, inventoryAbs, liquidity)
  {
  }

  lemma DiscountedSpreadAsWrittenAgrees(spread: u64, weight: u32, insurance: u128, openInterest: u128)
    requires openInterest > 0 ==> insurance * BPS < TWO_128 && insurance * BPS / openInterest < TWO_64
    ensures DiscountedSpreadAsWritten(spread, weight, insurance, openInterest)
         == DiscountedSpread(spread, weight, insurance, openInterest)
  {
    if openInterest > 0 {
      assert Min(CoverageBpsAsWritten(insurance, openInterest), BPS) == CoverageBps(insurance, openInterest);
    }
  }

  // ---------------------------------------------------------------------------
  // The cases pinned by the unit tests of lib.rs
  // ---------------------------------------------------------------------------

  lemma ZeroInsuranceKeepsMinSpread()
    ensures DiscountedSpread(20, 50, 0, 1_000_000) == 20
    ensures Clamp(DiscountedSpread(20, 50, 0, 1_000_000), 200) == 20
  {
  }

  lemma FullCoverageSubtractsWeight()
    ensures DiscountedSpread(100, 50, 1_000_000, 1_000_000) == 100 - 50
  {
  }

  lemma HalfCoverageSubtractsHalfWeight()
    ensures DiscountedSpread(100, 50, 500_000, 1_000_000) == 75
  {
  }

  lemma ExcessCoverageCapsAtWeight()
    ensures DiscountedSpread(100, 50, 2_000_000, 1_000_000) == 100 - 50
  {
  }

  /** Half coverage, zero inventory: 50 - 50 * 0.5 = 25 bps, inside [1, 500]. */
  lemma HalfCoverageScenario(liquidity: u128)
    ensures Spread(50, 500, 100, liquidity, 50, 0, 1_000_000_000, 2_000_000_000) == 25
  {
  }

  // ---------------------------------------------------------------------------
  // The two truncating casts (see Findings in README.md)
  // ---------------------------------------------------------------------------

  /** Coverage of 2^64 / 10000 times the open interest is truncated to 0 by the
      `as u64` cast, so the code grants no discount where full coverage should
      give the whole weight. */
  lemma CoverageCastDeniesDiscount()
    ensures CoverageBpsAsWritten(TWO_64, 10000) == 0
    ensures CoverageBps(TWO_64, 10000) == BPS
    ensures SpreadAsWritten(100, 200, 0, 0, 50, 0, TWO_64, 10000) == 100
    ensures Spread(100, 200, 0, 0, 50, 0, TWO_64, 10000) == 50
  {
  }

  /** At exactly full coverage with 2^127 of insurance, the u128 product
      `insurance * BPS` wraps to 0, so the code grants no discount where full
      coverage should give the whole weight. */
  lemma CoverageWrapDeniesDiscount()
    ensures WrapU128(TWO_127 * BPS) == 0
    ensures CoverageBpsAsWritten(TWO_127, TWO_127) == 0
    ensures CoverageBps(TWO_127, TWO_127) == BPS
    ensures SpreadAsWritten(100, 200, 0, 0, 50, 0, TWO_127, TWO_127) == 100
    ensures Spread(100, 200, 0, 0, 50, 0, TWO_127, TWO_127) == 50
  {
    assert TWO_127 * BPS == TWO_128 * 5000;
  }

  /** An imbalance cost of exactly 2^64 is truncated to 0, so the code quotes the
      floor spread where the saturating rule quotes the ceiling. */
  lemma ImbalanceCastNarrowsSpread()
    ensures ImbalanceCostAsWritten(1, TWO_64, 1) == 0
    ensures ImbalanceCost(1, TWO_64, 1) == U64_MAX
    ensures SpreadAsWritten(20, 200, 1, 1, 0, TWO_64, 0, 0) == 20
    ensures Spread(20, 200, 1, 1, 0, TWO_64, 0, 0) == 200
  {
  }

  // ---------------------------------------------------------------------------
  // Step 6: execution price
  // ---------------------------------------------------------------------------

  /** Buy (`trade_size > 0`): `floor(oracle * (BPS + cost) / BPS)` cast `as u64`.
      Sell (`trade_size <= 0`): `floor(oracle * (BPS - min(cost, BPS)) / BPS)`.
      The u128 products stay below 2^98 and never overflow. */
  function ExecPrice(oracle: u64, tradeSize: i128, spread: u32, fee: u32): (r: u64)
    ensures tradeSize <= 0 ==> r <= oracle
    ensures tradeSize <= 0 && spread + fee >= BPS ==> r == 0
    ensures tradeSize > 0 && ScaleBps(oracle, BPS + spread + fee) < TWO_64 ==> oracle <= r
  {
    var cost := spread + fee;
    ScaleByBps(oracle, BPS + cost);
    ScaleByBps(oracle, BPS - Min(cost, BPS));
    if tradeSize > 0 then TruncU64(ScaleBps(oracle, BPS + cost))
    else ScaleBps(oracle, BPS - Min(cost, BPS))
  }

  /** Both sides round down: the price times BPS is within one BPS below the
      exact product. */
  lemma ExecPriceRoundsDown(oracle: u64, tradeSize: i128, spread: u32, fee: u32)
    ensures tradeSize <= 0 ==>
      ExecPrice(oracle, tradeSize, spread, fee) * BPS
      <= oracle * (BPS - Min(spread + fee, BPS))
      < (ExecPrice(oracle, tradeSize, spread, fee) + 1) * BPS
    ensures tradeSize > 0 && ScaleBps(oracle, BPS + spread + fee) < TWO_64 ==>
      ExecPrice(oracle, tradeSize, spread, fee) * BPS
      <= oracle * (BPS + spread + fee)
      < (ExecPrice(oracle, tradeSize, spread, fee) + 1) * BPS
  {
  }

  /** A wider spread makes a buy dearer and a sell cheaper. */
  lemma ExecPriceMonotoneInSpread(oracle: u64, tradeSize: i128, s1: u32, s2: u32, fee: u32)
    requires s1 <= s2
    requires tradeSize > 0 ==> ScaleBps(oracle, BPS + s2 + fee) < TWO_64
    ensures tradeSize > 0 ==> ExecPrice(oracle, tradeSize, s1, fee) <= ExecPrice(oracle, tradeSize, s2, fee)
    ensures tradeSize <= 0 ==> ExecPrice(oracle, tradeSize, s2, fee) <= ExecPrice(oracle, tradeSize, s1, fee)
  {
    if tradeSize > 0 {
      ScaleBpsMonotone(oracle, BPS + s1 + fee, BPS + s2 + fee);
    } else {
      ScaleBpsMonotone(oracle, BPS - Min(s2 + fee, BPS), BPS - Min(s1 + fee, BPS));
    }
  }

  /** The buy price exceeds u64::MAX for an oracle price near the top of the
      u64 range, and the `as u64` cast wraps it below the oracle price. */
  lemma BuyPriceWrapsNearU64Max()
    ensures ExecPrice(U64_MAX, 1, 1, 0) < U64_MAX
  {
  }
}
