/** Money, rates and conversions (core_types/src/lib.rs). */
module Money {
  import opened Decimals

  datatype Currency = USD | GBP | EUR | BTC | KKP

  predicate IsFiat(c: Currency) {
    c.USD? || c.GBP? || c.EUR?
  }

  /** Ten to the number of decimal places a currency keeps. */
  function Scale(c: Currency): (s: int)
    ensures s > 0
  {
    match c
    case BTC => 1_000_000_000_000
    case KKP => 100_000_000
    case _ => 1_000_000
  }

  const RATE_SCALE := 1_000_000_000_000
  const SATS_IN_BITCOIN := 100_000_000

  /** The smallest amount of a currency. */
  function Unit(c: Currency): (u: Decimal)
    ensures u > 0.0
  {
    Units(1, Scale(c))
  }

  function SatUnit(): Decimal {
    Units(1, SATS_IN_BITCOIN)
  }

  /** The smallest step of a rate. */
  function RateUnit(): (u: Decimal)
    ensures u > 0.0
  {
    Units(1, RATE_SCALE)
  }

  datatype Money = Money(value: Decimal, currency: Currency)
  datatype Rate = Rate(base: Currency, quote: Currency, value: Decimal)
  datatype Exchanged = Ok(money: Money) | CannotExchange

  predicate Normal(m: Money) {
    Whole(m.value, Scale(m.currency))
  }

  function NewMoney(c: Currency, value: Decimal): (m: Money)
    ensures m.currency == c && Normal(m)
    ensures value >= 0.0 ==> Kept(m.value, value, Unit(c))
    ensures Whole(value, Scale(c)) ==> m.value == value
  {
    TruncWhole(value, Scale(c));
    assert value >= 0.0 ==> 0.0 <= Trunc(value, Scale(c)) <= value < Trunc(value, Scale(c)) + Unit(c) by {
      if value >= 0.0 { TruncBounds(value, Scale(c)); }
    }
    assert Whole(value, Scale(c)) ==> Trunc(value, Scale(c)) == value by {
      if Whole(value, Scale(c)) { TruncFix(value, Scale(c)); }
    }
    Money(Trunc(value, Scale(c)), c)
  }

  function NewRate(base: Currency, quote: Currency, value: Decimal): (r: Rate)
    ensures r.base == base && r.quote == quote
    ensures value >= 0.0 ==> Kept(r.value, value, RateUnit())
  {
    assert value >= 0.0 ==> 0.0 <= Trunc(value, RATE_SCALE) <= value < Trunc(value, RATE_SCALE) + RateUnit() by {
      if value >= 0.0 { TruncBounds(value, RATE_SCALE); }
    }
    Rate(base, quote, Trunc(value, RATE_SCALE))
  }

  function Parity(c: Currency): Rate {
    NewRate(c, c, 1.0)
  }

  function Inverse(r: Rate): (i: Rate)
    requires r.value != 0.0
    ensures i.base == r.quote && i.quote == r.base
  {
    NewRate(r.quote, r.base, Reciprocal(r.value))
  }

  function Product(x: Decimal, y: Decimal): Decimal {
    x * y
  }

  function Reciprocal(x: Decimal): Decimal
    requires x != 0.0
  {
    1.0 / x
  }

  /** `r` is the non-negative `x` with less than `unit` dropped. */
  predicate Kept(r: Decimal, x: Decimal, unit: Decimal) {
    0.0 <= r <= x < r + unit
  }

  /** The rate converts one currency into the other, in one direction or by its inverse. */
  predicate Connects(r: Rate, source: Currency, target: Currency) {
    || (r.base == source && r.quote == target)
    || (r.base == target && r.quote == source && r.value != 0.0)
  }

  function Exchange(m: Money, r: Rate): (e: Exchanged)
    requires m.currency != r.base && m.currency == r.quote ==> r.value != 0.0
    ensures e.CannotExchange? <==> m.currency != r.base && m.currency != r.quote
    ensures e.Ok? ==> Normal(e.money)
    ensures m.currency == r.base ==> e.Ok? && e.money.currency == r.quote
    ensures m.currency != r.base && m.currency == r.quote ==> e.Ok? && e.money.currency == r.base
  {
    if m.currency == r.base then
      Ok(NewMoney(r.quote, Product(m.value, r.value)))
    else if m.currency == r.quote then
      Ok(NewMoney(r.base, Product(m.value, Inverse(r).value)))
    else
      CannotExchange
  }

  /** `from_sats`: one hundred-millionth of a bitcoin each. */
  function FromSats(sats: Decimal): (m: Money)
    ensures m.currency == BTC && Normal(m)
  {
    NewMoney(BTC, sats / SATS_IN_BITCOIN as real)
  }

  function FromBtc(value: Decimal): (m: Money)
    ensures m.currency == BTC && Normal(m)
  {
    NewMoney(BTC, value)
  }

  function InSats(m: Money): Decimal
    requires m.currency == BTC
  {
    m.value * SATS_IN_BITCOIN as real
  }

  /** A whole number of sats survives the way into BTC and back. */
  lemma SatsRoundTrip(sats: int)
    ensures FromSats(sats as real).value == Units(sats, SATS_IN_BITCOIN)
    ensures InSats(FromSats(sats as real)) == sats as real
  {
    WholeUnits(sats, SATS_IN_BITCOIN);
    WholeFiner(Units(sats, SATS_IN_BITCOIN), SATS_IN_BITCOIN, 10_000);
  }

  /** Parity leaves every normal amount alone. */
  lemma ParityIsIdentity(m: Money)
    requires Normal(m)
    ensures Exchange(m, Parity(m.currency)) == Ok(m)
  {
    WholeUnits(RATE_SCALE, RATE_SCALE);
    TruncFix(1.0, RATE_SCALE);
  }

  /** `r` is `x` cut towards zero, with less than `unit` dropped. */
  predicate Cut(r: Decimal, x: Decimal, unit: Decimal) {
    if x >= 0.0 then Kept(r, x, unit) else Kept(-r, -x, unit)
  }

  /** Money of either sign is cut towards zero to whole units of its currency. */
  lemma MoneyIsCut(c: Currency, value: Decimal)
    ensures Cut(NewMoney(c, value).value, value, Unit(c)) && Whole(NewMoney(c, value).value, Scale(c))
  {
    hide Trunc, Whole;
    if value < 0.0 {
      TruncNegated(value, Scale(c));
      TruncBounds(-value, Scale(c));
    }
  }

  /** Rates of either sign are cut towards zero to twelve places. */
  lemma RateIsCut(base: Currency, quote: Currency, value: Decimal)
    ensures Cut(NewRate(base, quote, value).value, value, RateUnit())
    ensures Whole(NewRate(base, quote, value).value, RATE_SCALE)
  {
    hide Trunc, Whole;
    TruncWhole(value, RATE_SCALE);
    if value < 0.0 {
      TruncNegated(value, RATE_SCALE);
      TruncBounds(-value, RATE_SCALE);
    }
  }

  /** What an amount is exchanged for: along the rate its product with the rate, against it its product with
      the inverse cut to twelve places; either way cut to the other currency's units. */
  lemma ExchangedValue(m: Money, r: Rate)
    requires m.currency == r.base || (m.currency == r.quote && r.value != 0.0)
    ensures m.currency == r.base ==>
              Cut(Exchange(m, r).money.value, Product(m.value, r.value), Unit(r.quote))
    ensures m.currency != r.base ==>
              var inverse := Inverse(r).value;
              && Cut(inverse, Reciprocal(r.value), RateUnit())
              && Cut(Exchange(m, r).money.value, Product(m.value, inverse), Unit(r.base))
  {
    hide NewMoney, NewRate, Cut, Unit, RateUnit, Product, Reciprocal;
    if m.currency == r.base {
      MoneyIsCut(r.quote, Product(m.value, r.value));
    } else {
      RateIsCut(r.quote, r.base, Reciprocal(r.value));
      MoneyIsCut(r.base, Product(m.value, Inverse(r).value));
    }
  }

  /** `x` is `y` cut towards zero to whole units of the currency. */
  predicate CutTo(x: Decimal, y: Decimal, c: Currency) {
    Cut(x, y, Unit(c)) && Whole(x, Scale(c))
  }

  /** `x` is `y` cut towards zero to twelve places. */
  predicate CutRate(x: Decimal, y: Decimal) {
    Cut(x, y, RateUnit()) && Whole(x, RATE_SCALE)
  }

  /** There is only one such amount. */
  lemma OnlyOneCut(x: Decimal, z: Decimal, y: Decimal, scale: int)
    requires scale > 0 && Whole(x, scale) && Whole(z, scale)
    requires Cut(x, y, Units(1, scale)) && Cut(z, y, Units(1, scale))
    ensures x == z
  {
    hide Whole, Units;
    if y >= 0.0 {
      NoWholeBetween(x, z, scale);
      NoWholeBetween(z, x, scale);
    } else {
      WholeSum(x, x, scale);
      WholeSum(z, z, scale);
      NoWholeBetween(-x, -z, scale);
      NoWholeBetween(-z, -x, scale);
    }
  }

  lemma NoWholeBetween(x: Decimal, z: Decimal, scale: int)
    requires scale > 0 && Whole(x, scale) && Whole(z, scale) && z < x + Units(1, scale)
    ensures z <= x
  {
    hide Units;
    var i := WholeCount(x, scale);
    var j := WholeCount(z, scale);
    UnitsScaled(1, scale);
    CountsOrder(x, z, Units(1, scale), scale as real, i, j);
  }

  lemma CountsOrder(x: real, z: real, u: real, k: real, i: int, j: int)
    requires k > 0.0 && x * k == i as real && z * k == j as real && u * k == 1.0 && z < x + u
    ensures z <= x
  {
    MulStrict(z, x + u, k);
    Distribute(x, u, k);
    assert j as real < i as real + 1.0;
    assert j <= i;
    Cancel(z, x, k);
  }

  lemma OneAmount(x: Decimal, z: Decimal, y: Decimal, c: Currency)
    requires CutTo(x, y, c) && CutTo(z, y, c)
    ensures x == z
  {
    hide Whole, Cut, Scale, Units;
    OnlyOneCut(x, z, y, Scale(c));
  }

  lemma OneRate(x: Decimal, z: Decimal, y: Decimal)
    requires CutRate(x, y) && CutRate(z, y)
    ensures x == z
  {
    hide Whole, Cut, Units;
    OnlyOneCut(x, z, y, RATE_SCALE);
  }

  lemma NewRateCut(base: Currency, quote: Currency, y: Decimal)
    ensures CutRate(NewRate(base, quote, y).value, y)
  {
    hide NewRate, Cut, Whole;
    RateIsCut(base, quote, y);
  }

  lemma NewMoneyCut(c: Currency, y: Decimal)
    ensures CutTo(NewMoney(c, y).value, y, c)
  {
    hide NewMoney, Cut, Whole;
    MoneyIsCut(c, y);
  }

  lemma ForwardKept(m: Money, r: Rate) returns (q: Decimal)
    requires m.currency == r.base && m.value >= 0.0 && r.value > 0.0
    ensures q == Exchange(m, r).money.value && Kept(q, Product(m.value, r.value), Unit(r.quote))
  {
    hide NewMoney, Unit;
    q := Exchange(m, r).money.value;
  }

  lemma BackwardKept(m: Money, r: Rate) returns (b: Decimal, w: Decimal)
    requires m.currency != r.base && m.currency == r.quote && m.value >= 0.0 && r.value > 0.0
    ensures b == Exchange(m, r).money.value
    ensures Kept(w, Reciprocal(r.value), RateUnit()) && Kept(b, Product(m.value, w), Unit(r.base))
  {
    hide NewMoney, NewRate, Unit, RateUnit;
    w := Inverse(r).value;
    MulMono(0.0, m.value, w);
    b := Exchange(m, r).money.value;
  }

  /** Base to quote and back never creates money, and loses less than the stated bound. */
  lemma ThereAndBack(m: Money, r: Rate)
    requires r.base != r.quote && m.currency == r.base
    requires m.value >= 0.0 && r.value > 0.0
    ensures var there := Exchange(m, r).money; var back := Exchange(there, r).money;
            && back.currency == m.currency && back.value <= m.value
            && m.value - back.value
               < Unit(r.base) + Unit(r.quote) / r.value + m.value * r.value * RateUnit()
  {
    hide *;
    var q := ForwardKept(m, r);
    assert q >= 0.0 by { KeptNonNegative(q, Product(m.value, r.value), Unit(r.quote)); }
    var b, w := BackwardKept(Exchange(m, r).money, r);
    BaseLoop(m.value, r.value, q, w, b, Unit(r.base), Unit(r.quote), RateUnit());
  }

  lemma KeptNonNegative(r: Decimal, x: Decimal, unit: Decimal)
    requires Kept(r, x, unit)
    ensures r >= 0.0
  {
  }

  lemma BaseLoop(m: real, v: real, q: real, w: real, b: real, ub: real, uq: real, ur: real)
    requires m >= 0.0 && v > 0.0 && ub > 0.0 && uq > 0.0 && ur > 0.0
    requires Kept(q, Product(m, v), uq) && Kept(w, Reciprocal(v), ur) && Kept(b, Product(q, w), ub)
    ensures b <= m && m - b < ub + uq / v + m * v * ur
  {
    var i := 1.0 / v;
    BackNotAbove(m, v, i, q, w);
    BackNotFarBelow(m, v, i, q, w, uq, ur);
    assert uq * i == uq / v;
  }

  lemma BackNotAbove(m: real, v: real, i: real, q: real, w: real)
    requires v * i == 1.0 && i > 0.0 && 0.0 <= q <= m * v && w <= i
    ensures q * w <= m
  {
    MulMono(w, i, q);
    MulMono(q, m * v, i);
    assert m * v * i == m * (v * i);
  }

  lemma BackNotFarBelow(m: real, v: real, i: real, q: real, w: real, uq: real, ur: real)
    requires v * i == 1.0 && i > 0.0 && 0.0 <= q <= m * v < q + uq && i < w + ur && ur > 0.0
    ensures q * w > m - uq * i - m * v * ur
  {
    MulMono(i - ur, w, q);
    MulMono(q, m * v, ur);
    MulStrict(m * v - uq, q, i);
    assert (m * v - uq) * i == m * (v * i) - uq * i;
  }

  /** The other way round: quote to base and back. */
  lemma BackAndThere(m: Money, r: Rate)
    requires r.base != r.quote && m.currency == r.quote
    requires m.value >= 0.0 && r.value > 0.0
    ensures var there := Exchange(m, r).money; var back := Exchange(there, r).money;
            && back.currency == m.currency && back.value <= m.value
            && m.value - back.value
               < Unit(r.quote) + Unit(r.base) * r.value + m.value * r.value * RateUnit()
  {
    hide *;
    var b, w := BackwardKept(m, r);
    assert b >= 0.0 by { KeptNonNegative(b, Product(m.value, w), Unit(r.base)); }
    var q := ForwardKept(Exchange(m, r).money, r);
    QuoteLoop(m.value, r.value, w, b, q, Unit(r.base), Unit(r.quote), RateUnit());
  }

  lemma QuoteLoop(m: real, v: real, w: real, b: real, q: real, ub: real, uq: real, ur: real)
    requires m >= 0.0 && v > 0.0 && ub > 0.0 && uq > 0.0 && ur > 0.0
    requires Kept(w, Reciprocal(v), ur) && Kept(b, Product(m, w), ub) && Kept(q, Product(b, v), uq)
    ensures q <= m && m - q < uq + ub * v + m * v * ur
  {
    InverseNearOne(v, w, ur);
    ThereNotAbove(m, v, w, b);
    ThereNotFarBelow(m, v, w, b, ub, ur);
  }

  lemma InverseNearOne(v: real, w: real, ur: real)
    requires v > 0.0 && ur > 0.0 && Kept(w, Reciprocal(v), ur)
    ensures 0.0 <= w && w * v <= 1.0 < w * v + ur * v
  {
    var i := 1.0 / v;
    assert i * v == 1.0;
    MulMono(w, i, v);
    MulStrict(i, w + ur, v);
    Distribute(w, -ur, v);
  }

  lemma ThereNotAbove(m: real, v: real, w: real, b: real)
    requires m >= 0.0 && v > 0.0 && w * v <= 1.0 && b <= m * w
    ensures b * v <= m
  {
    MulMono(b, m * w, v);
    Associate(m, w, v);
    MulMono(w * v, 1.0, m);
  }

  lemma ThereNotFarBelow(m: real, v: real, w: real, b: real, ub: real, ur: real)
    requires m >= 0.0 && v > 0.0 && w * v + ur * v > 1.0 && m * w < b + ub
    ensures m - m * v * ur < b * v + ub * v
  {
    MulStrict(m * w, b + ub, v);
    Distribute(b, -ub, v);
    Associate(m, w, v);
    Associate(m, v, ur);
    MulMono(1.0 - ur * v, w * v, m);
    Distribute(1.0, ur * v, m);
  }

  // ---- fiat invoices

  /** Sats asked for by an invoice over a fiat amount: rounded up from the BTC value kept to 12 places. */
  function InvoiceSats(amount: Money, r: Rate): int
    requires r.value != 0.0
  {
    FromZero(InSats(FromBtc(amount.value / r.value)))
  }

  lemma FromBtcKept(x: Decimal)
    requires x >= 0.0
    ensures Kept(FromBtc(x).value, x, Unit(BTC))
  {
    hide NewMoney, Unit;
  }

  lemma SatsAbove(btc: Money, sats: int)
    requires btc.currency == BTC && btc.value >= 0.0 && sats == FromZero(InSats(btc))
    ensures sats >= 0 && btc.value <= Units(sats, SATS_IN_BITCOIN) < btc.value + SatUnit()
  {
    UnitsScaled(sats, SATS_IN_BITCOIN);
    var k := SATS_IN_BITCOIN as real;
    assert btc.value * k <= sats as real < btc.value * k + 1.0;
    Cancel(btc.value, Units(sats, SATS_IN_BITCOIN), k);
  }

  lemma InvoiceSatsBounds(amount: Money, r: Rate) returns (sats: int, s: Decimal)
    requires amount.value > 0.0 && r.value > 0.0
    ensures sats == InvoiceSats(amount, r) && sats >= 0 && s == FromSats(sats as real).value >= 0.0
    ensures amount.value / r.value - Unit(BTC) < s < amount.value / r.value + SatUnit()
  {
    hide FromBtc, FromSats, FromZero, InSats;
    var exact := amount.value / r.value;
    assert exact > 0.0;
    var btc := FromBtc(exact);
    FromBtcKept(exact);
    sats := InvoiceSats(amount, r);
    SatsRoundTrip(sats);
    s := FromSats(sats as real).value;
    SatsAbove(btc, sats);
  }

  /** What the payer's sats are credited as, at the same rate, when the invoice is paid. */
  lemma InvoiceCredit(amount: Money, r: Rate)
    requires IsFiat(amount.currency) && Normal(amount) && amount.value > 0.0
    requires r.base == BTC && r.quote == amount.currency && r.value > 0.0
    ensures var sats := InvoiceSats(amount, r);
            var credit := Exchange(FromSats(sats as real), r).money;
            && sats >= 0 && credit.currency == amount.currency
            && credit.value < amount.value + r.value * SatUnit()
            && (r.value <= 1_000_000.0 ==> credit.value >= amount.value - Unit(amount.currency))
  {
    hide *;
    var sats, s := InvoiceSatsBounds(amount, r);
    var credit := ForwardKept(FromSats(sats as real), r);
    CreditBounds(amount.value, r.value, s, Unit(BTC), SatUnit(), credit, Unit(amount.currency));
    if r.value <= 1_000_000.0 {
      CreditNotFarBelow(amount, r, FromSats(sats as real));
    }
  }

  lemma CreditNotFarBelow(amount: Money, r: Rate, paid: Money)
    requires IsFiat(amount.currency) && Normal(amount) && paid.currency == BTC
    requires r.base == BTC && r.quote == amount.currency && 0.0 < r.value <= 1_000_000.0
    requires paid.value >= 0.0 && amount.value - r.value * Unit(BTC) < paid.value * r.value
    ensures Exchange(paid, r).money.value >= amount.value - Unit(amount.currency)
  {
    var u := Unit(amount.currency);
    MulMono(0.0, paid.value, r.value);
    WholeUnits(1, Scale(amount.currency));
    WholeSum(amount.value, u, Scale(amount.currency));
    var p := Product(paid.value, r.value);
    TruncGreatest(p, amount.value - u, Scale(amount.currency));
    assert Exchange(paid, r).money == NewMoney(r.quote, p);
  }

  lemma CreditBounds(a: real, v: real, s: real, low: real, high: real, credit: real, unit: real)
    requires v > 0.0 && a / v - low < s < a / v + high && Kept(credit, Product(s, v), unit)
    ensures a - v * low < s * v && credit < a + v * high
  {
    MulStrict(a / v - low, s, v);
    MulStrict(s, a / v + high, v);
  }
}
