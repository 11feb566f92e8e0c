/**
 Fees of external payments: the estimate the bank debits, the limit it gives the node
 (lnd_connector/src/connector.rs), and what comes back when the node charges less.
 */
module Fees {
  import opened Options
  import opened Decimals
  import opened Money
  import opened Ledger
  import opened BankSteps
  import opened BankRuns

  /** The fee a payment is debited for: one sat over the best probed route, or else the configured
      margin rounded up to whole sats. */
  function EstimatedFee(amount: Money, margin: Decimal, probed: Option<int>): (m: Money)
    ensures m.currency == BTC
  {
    FromBtc(if probed.Some? then Units(probed.value + 1, SATS_IN_BITCOIN)
            else RoundAway(Product(amount.value, margin), SATS_IN_BITCOIN))
  }

  lemma EstimateIsWholeSats(amount: Money, margin: Decimal, probed: Option<int>)
    ensures WholeSats(EstimatedFee(amount, margin, probed))
    ensures amount.value >= 0.0 && margin >= 0.0 && (probed.Some? ==> probed.value >= 0)
         ==> EstimatedFee(amount, margin, probed).value >= 0.0
  {
    hide Whole, RoundAway, FromBtc;
    var fee := if probed.Some? then Units(probed.value + 1, SATS_IN_BITCOIN)
               else RoundAway(Product(amount.value, margin), SATS_IN_BITCOIN);
    if probed.Some? {
      WholeUnits(probed.value + 1, SATS_IN_BITCOIN);
    } else {
      RoundAwayBounds(Product(amount.value, margin), SATS_IN_BITCOIN);
    }
    SatsSurviveBtc(fee);
    if amount.value >= 0.0 && margin >= 0.0 {
      MulMono(0.0, amount.value, margin);
    }
  }

  /** The estimate is one sat over the best probed route, or else the fewest whole sats not below the margin's
      share of the amount. */
  predicate IsEstimate(fee: Decimal, amount: Decimal, margin: Decimal, probed: Option<int>) {
    if probed.Some? then fee == (probed.value as real + 1.0) / 100_000_000.0
    else
      && Whole(fee, SATS_IN_BITCOIN)
      && Product(amount, margin) <= fee < Product(amount, margin) + 1.0 / 100_000_000.0
  }

  lemma EstimateIs(amount: Money, margin: Decimal, probed: Option<int>)
    requires amount.value >= 0.0 && margin >= 0.0
    ensures IsEstimate(EstimatedFee(amount, margin, probed).value, amount.value, margin, probed)
  {
    hide Whole, RoundAway, FromBtc;
    EstimateIsWholeSats(amount, margin, probed);
    if probed.Some? {
      WholeUnits(probed.value + 1, SATS_IN_BITCOIN);
      SatsSurviveBtc(Units(probed.value + 1, SATS_IN_BITCOIN));
    } else {
      MulMono(0.0, amount.value, margin);
      RoundAwayBounds(Product(amount.value, margin), SATS_IN_BITCOIN);
      SatsSurviveBtc(RoundAway(Product(amount.value, margin), SATS_IN_BITCOIN));
    }
  }

  lemma SatsSurviveBtc(x: Decimal)
    requires Whole(x, SATS_IN_BITCOIN)
    ensures FromBtc(x).value == x
  {
    hide Whole;
    WholeFiner(x, SATS_IN_BITCOIN, 10_000);
  }

  /** `to_i64`: towards zero, unless out of range. */
  function ToI64(x: Decimal): Option<int> {
    var k := ToZero(x);
    if FitsI64(k) then Some(k) else None
  }

  predicate FitsI64(k: int) {
    -0x8000_0000_0000_0000 <= k < 0x8000_0000_0000_0000
  }

  function OrElse(x: Option<int>, other: int): int {
    if x.Some? then x.value else other
  }

  /** The fee limit `pay_invoice` sends to the node, if it sends anything. */
  function FeeLimit(sats: Decimal, asShare: Option<Decimal>, inSats: Option<Decimal>): Option<int> {
    if asShare.None? && inSats.None? then None
    else
      var byShare := if asShare.Some? then OrElse(ToI64(RoundHalfEven(Product(sats, asShare.value)) as real), 0) else 0;
      Some(if inSats.Some? then OrElse(ToI64(RoundHalfEven(inSats.value) as real), byShare) else byShare)
  }

  /** No integer is closer to `x`, and a tie goes to the even one. */
  predicate Nearest(k: int, x: Decimal) {
    var d := x - k as real;
    -0.5 <= d <= 0.5 && (d == 0.5 || d == -0.5 ==> k % 2 == 0)
  }

  lemma RoundsToNearest(x: Decimal)
    ensures Nearest(RoundHalfEven(x), x) && forall k :: Nearest(k, x) ==> k == RoundHalfEven(x)
  {
    hide Nearest, RoundHalfEven;
    RoundIsNearest(x);
    forall k | Nearest(k, x)
      ensures k == RoundHalfEven(x)
    {
      NearestIsUnique(x, k);
    }
  }

  lemma RoundIsNearest(x: Decimal)
    ensures Nearest(RoundHalfEven(x), x)
  {
    var f := x.Floor;
    assert f % 2 == 0 <==> (f + 1) % 2 == 1;
  }

  lemma NearestIsUnique(x: Decimal, k: int)
    requires Nearest(k, x)
    ensures k == RoundHalfEven(x)
  {
    var f := x.Floor;
    assert f as real - 0.5 <= k as real && k as real < f as real + 1.5;
    assert k == f || k == f + 1;
    assert f % 2 == 0 <==> (f + 1) % 2 == 1;
  }

  lemma WholeToI64(k: int)
    ensures ToI64(k as real) == if FitsI64(k) then Some(k) else None
  {
    FloorIs(k as real, k);
    FloorIs(-(k as real), -k);
  }

  /** There is no usable limit in sats: none was given, or it does not fit. */
  ghost predicate NoSatsLimit(inSats: Option<Decimal>) {
    forall k :: inSats.Some? && Nearest(k, inSats.value) ==> !FitsI64(k)
  }

  /** The limit in sats counts if it can be used, else the share of the amount, else zero. */
  method MaxFee(sats: Decimal, asShare: Option<Decimal>, inSats: Option<Decimal>) returns (limit: Option<int>)
    ensures limit.None? <==> asShare.None? && inSats.None?
    ensures forall k :: inSats.Some? && Nearest(k, inSats.value) && FitsI64(k) ==> limit == Some(k)
    ensures forall k :: NoSatsLimit(inSats) && asShare.Some? && Nearest(k, Product(sats, asShare.value)) ==>
              limit == Some(if FitsI64(k) then k else 0)
    ensures NoSatsLimit(inSats) && inSats.Some? && asShare.None? ==> limit == Some(0)
    ensures limit == FeeLimit(sats, asShare, inSats)
  {
    hide RoundHalfEven, Nearest, ToI64, FitsI64, Product;
    if asShare.Some? {
      RoundsToNearest(Product(sats, asShare.value));
      WholeToI64(RoundHalfEven(Product(sats, asShare.value)));
    }
    if inSats.Some? {
      RoundsToNearest(inSats.value);
      WholeToI64(RoundHalfEven(inSats.value));
    }
    if asShare.None? && inSats.None? {
      return None;
    }
    var maxFee := 0;
    if asShare.Some? {
      maxFee := OrElse(ToI64(RoundHalfEven(Product(sats, asShare.value)) as real), 0);
    }
    if inSats.Some? {
      maxFee := OrElse(ToI64(RoundHalfEven(inSats.value) as real), maxFee);
    }
    limit := Some(maxFee);
  }

  /** The limit given to the node for an external payment. */
  function LaunchFeeLimit(l: Launch): int
    requires ValidLaunch(l)
  {
    FeeLimit(InSats(l.invoice), None, Some(InSats(l.estimate))).value
  }

  lemma WholeSatsCount(m: Money) returns (k: int)
    requires WholeSats(m)
    ensures InSats(m) == k as real && m.value == Units(k, SATS_IN_BITCOIN)
  {
    k := WholeCount(m.value, SATS_IN_BITCOIN);
  }

  /** A whole-sat limit passes every rounding step unchanged, or is replaced by zero. */
  lemma LimitIsEstimate(l: Launch) returns (k: int)
    requires ValidLaunch(l)
    ensures l.estimate.value == Units(k, SATS_IN_BITCOIN) && k >= 0
    ensures LaunchFeeLimit(l) == if k < 0x8000_0000_0000_0000 then k else 0
  {
    k := WholeSatsCount(l.estimate);
    FloorIs(k as real, k);
  }

  /** If the node keeps to its limit, the assertion on a successful payment holds, and what was
      debited is the invoice, the fee paid and the excess that goes to the dealer. */
  lemma ExcessIsNotNegative(l: Launch, fee: nat)
    requires ValidLaunch(l) && fee <= LaunchFeeLimit(l)
    ensures Excess(l, fee).value >= 0.0 && Normal(Excess(l, fee))
    ensures NewMoney(BTC, Excess(l, fee).value) == Excess(l, fee)
    ensures Total(l).value == l.invoice.value + FromSats(fee as real).value + Excess(l, fee).value
  {
    hide LaunchFeeLimit, Exchange, Whole, FromSats, FromBtc, Units;
    var k := LimitIsEstimate(l);
    SatsRoundTrip(fee);
    ExcessNormal(l, fee);
    TotalIsExact(l);
    UnitsOrder(fee, k);
  }

  lemma UnitsOrder(i: int, j: int)
    requires i <= j
    ensures Units(i, SATS_IN_BITCOIN) <= Units(j, SATS_IN_BITCOIN)
  {
  }

  lemma TotalIsExact(l: Launch)
    requires ValidLaunch(l)
    ensures Total(l).value == l.invoice.value + l.estimate.value
  {
    hide Whole, Parity;
    WholeFiner(l.invoice.value, SATS_IN_BITCOIN, 10_000);
    WholeFiner(l.estimate.value, SATS_IN_BITCOIN, 10_000);
    WholeSum(l.invoice.value, l.estimate.value, Scale(BTC));
  }
}
