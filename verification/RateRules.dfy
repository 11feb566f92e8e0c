/**
 What a swap rate is (dealer/src/dealer_engine.rs): which bucket prices an amount, the spread charged once, and
 the cut to twelve places, stated without following the code's steps; and how rates depend on the amount.
 */
module RateRules {
  import opened Options
  import opened Decimals
  import opened Money
  import opened OrderBook
  import opened Rates

  /** The least quoted quantity that covers the whole part of a fiat value. */
  ghost predicate Bucket(quotes: Quotes, v: Decimal, k: nat) {
    && k in quotes && v.Floor <= k < U64_MAX
    && forall j :: j in quotes && v.Floor <= j < U64_MAX ==> k <= j
  }

  /** The bucket for selling BTC, which is valued at the quote for the smallest quantity. */
  ghost predicate SaleBucket(quotes: Quotes, btc: Decimal, k: nat) {
    exists b :: Bucket(quotes, 0.0, b) && Bucket(quotes, Product(btc, quotes[b]), k)
  }

  /** Selling BTC fetches the bid quote of the bucket, less half the spread. */
  ghost predicate SaleRate(d: Desks, btc: Decimal, target: Currency, x: Decimal) {
    && target in d.bids
    && exists k :: SaleBucket(d.bids[target], btc, k) && CutRate(x, Product(d.bids[target][k], 1.0 - d.half))
  }

  /** Buying BTC costs the ask quote of the bucket, raised by `margin`. */
  ghost predicate PurchaseRate(d: Desks, fiat: Decimal, source: Currency, margin: Decimal, x: Decimal) {
    && source in d.asks
    && exists k :: Bucket(d.asks[source], fiat, k) && Product(d.asks[source][k], margin) != 0.0
                && CutRate(x, Reciprocal(Product(d.asks[source][k], margin)))
  }

  /** From fiat to fiat: buy BTC without a spread, then sell what that yields with it. */
  ghost predicate TransitRate(d: Desks, fiat: Decimal, source: Currency, target: Currency, x: Decimal) {
    exists w, y, z :: PurchaseRate(d, fiat, source, 1.0, w) && CutTo(y, Product(fiat, w), BTC)
                   && SaleRate(d, y, target, z) && CutRate(x, Product(w, z))
  }

  ghost predicate IsRate(d: Desks, amount: Money, target: Currency, x: Decimal) {
    if amount.currency == BTC then SaleRate(d, amount.value, target, x)
    else if target == BTC then PurchaseRate(d, amount.value, amount.currency, 1.0 + d.half, x)
    else TransitRate(d, amount.value, amount.currency, target, x)
  }

  // ---- buckets

  lemma OneBucket(quotes: Quotes, v: Decimal, k: nat, j: nat)
    requires Bucket(quotes, v, k) && Bucket(quotes, v, j)
    ensures k == j
  {
  }

  lemma NextIsBucket(quotes: Quotes, v: Decimal, p: Decimal)
    requires v >= 0.0
    ensures NextQuote(quotes, v.Floor) == Some(p) <==> exists k :: Bucket(quotes, v, k) && quotes[k] == p
  {
    var q := v.Floor;
    forall k
      ensures IsNext(quotes, q, k) <==> Bucket(quotes, v, k)
    {
    }
    if k :| Bucket(quotes, v, k) {
      assert IsNext(quotes, q, k);
      forall j | IsNext(quotes, q, j)
        ensures j == k
      {
        OneBucket(quotes, v, k, j);
      }
    }
  }

  /** The whole part fits 64 bits whenever there is a bucket. */
  lemma Lookup(quotes: Quotes, v: Decimal, p: Decimal)
    requires v >= 0.0
    ensures (ToU64(v).Some? && NextQuote(quotes, ToU64(v).value) == Some(p))
       <==> exists k :: Bucket(quotes, v, k) && quotes[k] == p
  {
    hide NextQuote;
    NextIsBucket(quotes, v, p);
  }

  lemma PurchasePrice(quotes: Quotes, amount: Money, c: Conversion, p: Decimal)
    requires c.source != BTC && amount.value >= 0.0
    ensures PriceFor(quotes, amount, c) == Some(p) <==> exists k :: Bucket(quotes, amount.value, k) && quotes[k] == p
  {
    hide NextQuote, Bucket, ToU64;
    assert Product(amount.value, 1.0) == amount.value;
    Lookup(quotes, amount.value, p);
  }

  lemma SalePrice(quotes: Quotes, amount: Money, c: Conversion, p: Decimal)
    requires c.source == BTC && amount.value >= 0.0 && forall q :: q in quotes ==> quotes[q] > 0.0
    ensures PriceFor(quotes, amount, c) == Some(p)
       <==> exists k :: SaleBucket(quotes, amount.value, k) && quotes[k] == p
  {
    hide Bucket, ToU64, Product, NextQuote;
    var best := NextQuote(quotes, 0);
    if best.Some? {
      var b := FirstBucket(quotes, best.value);
      ProductNonNegative(amount.value, best.value);
      Lookup(quotes, Product(amount.value, best.value), p);
      forall a | Bucket(quotes, 0.0, a)
        ensures a == b
      {
        OneBucket(quotes, 0.0, a, b);
      }
    } else {
      forall a | Bucket(quotes, 0.0, a)
        ensures false
      {
        BucketIsQuoted(quotes, 0.0, a);
        NextIsBucket(quotes, 0.0, quotes[a]);
      }
    }
  }

  lemma FirstBucket(quotes: Quotes, p: Decimal) returns (b: nat)
    requires NextQuote(quotes, 0) == Some(p)
    ensures Bucket(quotes, 0.0, b) && b in quotes && quotes[b] == p
  {
    NextIsBucket(quotes, 0.0, p);
    b :| Bucket(quotes, 0.0, b) && quotes[b] == p;
  }

  lemma BucketIsQuoted(quotes: Quotes, v: Decimal, k: nat)
    requires Bucket(quotes, v, k)
    ensures k in quotes
  {
  }

  lemma OneSaleBucket(quotes: Quotes, btc: Decimal, k: nat, j: nat)
    requires SaleBucket(quotes, btc, k) && SaleBucket(quotes, btc, j)
    ensures k == j && k in quotes
  {
    hide Product;
    var a :| Bucket(quotes, 0.0, a) && Bucket(quotes, Product(btc, quotes[a]), k);
    var b :| Bucket(quotes, 0.0, b) && Bucket(quotes, Product(btc, quotes[b]), j);
    OneBucket(quotes, 0.0, a, b);
    OneBucket(quotes, Product(btc, quotes[a]), k, j);
  }

  // ---- one leg

  lemma SaleRateIs(d: Desks, amount: Money, target: Currency, x: Decimal)
    requires ValidDesks(d) && IsFiat(target) && amount.value >= 0.0
    ensures var r := CrossRate(d, amount, Conversion(BTC, target), true);
            (r.Some? && r.value.value == x) <==> SaleRate(d, amount.value, target, x)
  {
    hide PriceFor, Product, NewRate, CutRate, SaleBucket;
    var c := Conversion(BTC, target);
    if target in d.bids {
      var quotes := d.bids[target];
      var price := PriceFor(quotes, amount, c);
      forall k | SaleBucket(quotes, amount.value, k)
        ensures k in quotes && price == Some(quotes[k])
      {
        OneSaleBucket(quotes, amount.value, k, k);
        SalePrice(quotes, amount, c, quotes[k]);
      }
      if price.Some? {
        SalePrice(quotes, amount, c, price.value);
        var k :| SaleBucket(quotes, amount.value, k) && quotes[k] == price.value;
        var exact := Product(quotes[k], 1.0 - d.half);
        NewRateCut(BTC, target, exact);
        if SaleRate(d, amount.value, target, x) {
          var j :| SaleBucket(quotes, amount.value, j) && CutRate(x, Product(quotes[j], 1.0 - d.half));
          OneRate(x, NewRate(BTC, target, exact).value, exact);
        }
      }
    }
  }

  lemma PurchaseRateIs(d: Desks, amount: Money, source: Currency, charge: bool, x: Decimal)
    requires ValidDesks(d) && IsFiat(source) && amount.value >= 0.0
    ensures var r := CrossRate(d, amount, Conversion(source, BTC), charge);
            (r.Some? && r.value.value == x)
            <==> PurchaseRate(d, amount.value, source, if charge then 1.0 + d.half else 1.0, x)
  {
    hide PriceFor, NewRate, CutRate, Bucket, Reciprocal;
    var c, margin := Conversion(source, BTC), if charge then 1.0 + d.half else 1.0;
    if source in d.asks {
      var quotes := d.asks[source];
      var price := PriceFor(quotes, amount, c);
      forall k | Bucket(quotes, amount.value, k)
        ensures k in quotes && price == Some(quotes[k])
      {
        BucketIsQuoted(quotes, amount.value, k);
        PurchasePrice(quotes, amount, c, quotes[k]);
      }
      if price.Some? {
        PurchasePrice(quotes, amount, c, price.value);
        var k :| Bucket(quotes, amount.value, k) && quotes[k] == price.value;
        PositiveProduct(quotes[k], margin);
        var exact := Reciprocal(Product(quotes[k], margin));
        NewRateCut(source, BTC, exact);
        if PurchaseRate(d, amount.value, source, margin, x) {
          var j :| Bucket(quotes, amount.value, j) && CutRate(x, Reciprocal(Product(quotes[j], margin)));
          OneRate(x, NewRate(source, BTC, exact).value, exact);
        }
      }
    }
  }

  lemma PositiveProduct(x: Decimal, y: Decimal)
    requires x > 0.0 && y > 0.0
    ensures Product(x, y) > 0.0
  {
  }

  // ---- the rate

  /** The dealer's rate exists, and has this value, exactly when the rules say so. */
  lemma GetRateIs(d: Desks, amount: Money, target: Currency, x: Decimal)
    requires ValidDesks(d) && Swappable(amount.currency, target) && amount.value >= 0.0
    ensures var r := GetRate(d, amount, target);
            (r.Some? && r.value.value == x) <==> IsRate(d, amount, target, x)
  {
    hide CrossRate, SaleRate, PurchaseRate, Product, NewRate, NewMoney, CutRate, CutTo;
    if amount.currency == BTC {
      SaleRateIs(d, amount, target, x);
    } else if target == BTC {
      PurchaseRateIs(d, amount, amount.currency, true, x);
    } else {
      TransitRateIs(d, amount, target, x);
    }
  }

  lemma PurchaseRateSign(d: Desks, fiat: Decimal, source: Currency, margin: Decimal, x: Decimal)
    requires ValidDesks(d) && margin > 0.0 && PurchaseRate(d, fiat, source, margin, x)
    ensures x >= 0.0
  {
    hide Whole;
    var k :| Bucket(d.asks[source], fiat, k) && CutRate(x, Reciprocal(Product(d.asks[source][k], margin)));
    PositiveProduct(d.asks[source][k], margin);
  }

  lemma TransitRateIs(d: Desks, amount: Money, target: Currency, x: Decimal)
    requires ValidDesks(d) && Swappable(amount.currency, target) && amount.value >= 0.0
    requires amount.currency != BTC && target != BTC
    ensures var r := GetRate(d, amount, target);
            (r.Some? && r.value.value == x) <==> TransitRate(d, amount.value, amount.currency, target, x)
  {
    hide CrossRate, SaleRate, PurchaseRate, Product, NewRate, NewMoney, CutRate, CutTo;
    var source, fiat := amount.currency, amount.value;
    var first := CrossRate(d, amount, Conversion(source, BTC), false);
    forall w | PurchaseRate(d, fiat, source, 1.0, w)
      ensures first.Some? && first.value.value == w
    {
      PurchaseRateIs(d, amount, source, false, w);
    }
    if first.Some? {
      var w := first.value.value;
      PurchaseRateIs(d, amount, source, false, w);
      PurchaseRateSign(d, fiat, source, 1.0, w);
      ProductNonNegative(fiat, w);
      var btc := NewMoney(BTC, Product(fiat, w));
      NewMoneyCut(BTC, Product(fiat, w));
      forall y | CutTo(y, Product(fiat, w), BTC)
        ensures y == btc.value
      {
        OneAmount(y, btc.value, Product(fiat, w), BTC);
      }
      assert btc.value >= 0.0 by {
        CutNonNegative(btc.value, Product(fiat, w), BTC);
      }
      var second := CrossRate(d, btc, Conversion(BTC, target), true);
      forall z | SaleRate(d, btc.value, target, z)
        ensures second.Some? && second.value.value == z
      {
        SaleRateIs(d, btc, target, z);
      }
      if second.Some? {
        var z := second.value.value;
        SaleRateIs(d, btc, target, z);
        NewRateCut(source, target, Product(w, z));
        forall y | CutRate(y, Product(w, z))
          ensures y == NewRate(source, target, Product(w, z)).value
        {
          OneRate(y, NewRate(source, target, Product(w, z)).value, Product(w, z));
        }
      }
    }
  }

  lemma CutNonNegative(x: Decimal, y: Decimal, c: Currency)
    requires CutTo(x, y, c) && y >= 0.0
    ensures x >= 0.0
  {
  }

  lemma SaleParts(d: Desks, btc: Decimal, target: Currency, x: Decimal) returns (k: nat)
    requires SaleRate(d, btc, target, x)
    ensures SaleBucket(d.bids[target], btc, k) && k in d.bids[target]
    ensures CutRate(x, Product(d.bids[target][k], 1.0 - d.half))
  {
    hide CutRate, Product;
    k :| SaleBucket(d.bids[target], btc, k) && CutRate(x, Product(d.bids[target][k], 1.0 - d.half));
  }

  lemma PurchaseParts(d: Desks, fiat: Decimal, source: Currency, margin: Decimal, x: Decimal) returns (k: nat)
    requires PurchaseRate(d, fiat, source, margin, x)
    ensures Bucket(d.asks[source], fiat, k) && k in d.asks[source] && Product(d.asks[source][k], margin) != 0.0
    ensures CutRate(x, Reciprocal(Product(d.asks[source][k], margin)))
  {
    hide CutRate, Product, Reciprocal;
    k :| Bucket(d.asks[source], fiat, k) && Product(d.asks[source][k], margin) != 0.0
      && CutRate(x, Reciprocal(Product(d.asks[source][k], margin)));
  }

  // ---- what a swap pays

  /** A swap pays the amount times the rate of the rules, cut to the target's units. */
  lemma SwapPaysTheRate(o: SwapOrder, h: Holdings)
    requires Executable(o, h) && o.amount.value >= 0.0
    ensures exists x :: IsRate(o.desks, o.amount, o.target, x)
                     && CutTo(Received(o).value, Product(o.amount.value, x), o.target)
  {
    hide GetRate, IsRate, Exchange, Cut, Whole, Product, Unit;
    var r := GetRate(o.desks, o.amount, o.target).value;
    GetRateIs(o.desks, o.amount, o.target, r.value);
    ExchangedValue(o.amount, r);
    assert Normal(Exchange(o.amount, r).money);
  }

  /** Selling BTC fetches nearly the bid quote of its bucket less half the spread, and never more. */
  lemma SaleFetches(d: Desks, btc: Decimal, target: Currency, k: nat, x: Decimal, paid: Decimal)
    requires ValidDesks(d) && btc >= 0.0 && target in d.bids && SaleBucket(d.bids[target], btc, k)
    requires SaleRate(d, btc, target, x) && CutTo(paid, Product(btc, x), target)
    ensures k in d.bids[target]
    ensures var exact := btc * (d.bids[target][k] * (1.0 - d.half));
            exact - btc * RateUnit() - Unit(target) < paid <= exact
  {
    hide SaleBucket, Bucket, Whole, RateUnit, Unit;
    var quotes := d.bids[target];
    OneSaleBucket(quotes, btc, k, k);
    var j := SaleParts(d, btc, target, x);
    OneSaleBucket(quotes, btc, k, j);
    ProductNonNegative(quotes[k], 1.0 - d.half);
    PaidBounds(btc, x, Product(quotes[k], 1.0 - d.half), RateUnit(), paid, Unit(target));
  }

  /** Buying BTC likewise, at the ask quote of the bucket raised by half the spread. */
  lemma PurchaseFetches(d: Desks, fiat: Decimal, source: Currency, k: nat, x: Decimal, paid: Decimal)
    requires ValidDesks(d) && fiat >= 0.0 && source in d.asks && Bucket(d.asks[source], fiat, k)
    requires PurchaseRate(d, fiat, source, 1.0 + d.half, x) && CutTo(paid, Product(fiat, x), BTC)
    ensures var exact := fiat * Reciprocal(Product(d.asks[source][k], 1.0 + d.half));
            exact - fiat * RateUnit() - Unit(BTC) < paid <= exact
  {
    hide Bucket, Whole, RateUnit, Unit, Reciprocal;
    var quotes := d.asks[source];
    BucketIsQuoted(quotes, fiat, k);
    var j := PurchaseParts(d, fiat, source, 1.0 + d.half, x);
    OneBucket(quotes, fiat, k, j);
    PositiveProduct(quotes[k], 1.0 + d.half);
    ReciprocalOrder(Product(quotes[k], 1.0 + d.half), Product(quotes[k], 1.0 + d.half));
    PaidBounds(fiat, x, Reciprocal(Product(quotes[k], 1.0 + d.half)), RateUnit(), paid, Unit(BTC));
  }

  lemma PaidBounds(a: real, x: real, exact: real, ur: real, paid: real, u: real)
    requires a >= 0.0 && exact >= 0.0 && ur > 0.0 && u > 0.0 && Cut(x, exact, ur) && Cut(paid, Product(a, x), u)
    ensures a * exact - a * ur - u < paid <= a * exact
  {
    MulMono(0.0, x, a);
    MulMono(x, exact, a);
    MulMono(exact - ur, x, a);
    Distribute(exact, ur, a);
  }

  // ---- larger amounts

  predicate FallingQuotes(quotes: Quotes) {
    forall q, k :: q in quotes && k in quotes && q <= k ==> quotes[k] <= quotes[q]
  }

  predicate RisingQuotes(quotes: Quotes) {
    forall q, k :: q in quotes && k in quotes && q <= k ==> quotes[q] <= quotes[k]
  }

  lemma LargerBucket(quotes: Quotes, v: Decimal, w: Decimal, k: nat, j: nat)
    requires v <= w && Bucket(quotes, v, k) && Bucket(quotes, w, j)
    ensures k <= j && k in quotes && j in quotes
  {
  }

  lemma LargerSaleBucket(quotes: Quotes, x: Decimal, y: Decimal, k: nat, j: nat)
    requires 0.0 <= x <= y && SaleBucket(quotes, x, k) && SaleBucket(quotes, y, j)
    requires forall q :: q in quotes ==> quotes[q] > 0.0
    ensures k <= j && k in quotes && j in quotes
  {
    hide Product;
    var a :| Bucket(quotes, 0.0, a) && Bucket(quotes, Product(x, quotes[a]), k);
    var b :| Bucket(quotes, 0.0, b) && Bucket(quotes, Product(y, quotes[b]), j);
    OneBucket(quotes, 0.0, a, b);
    ProductMono(x, y, quotes[a]);
    LargerBucket(quotes, Product(x, quotes[a]), Product(y, quotes[a]), k, j);
  }

  lemma ProductMono(x: Decimal, y: Decimal, k: Decimal)
    requires x <= y && k >= 0.0
    ensures Product(x, k) <= Product(y, k)
  {
    MulMono(x, y, k);
  }

  lemma CutMono(x: Decimal, y: Decimal, p: Decimal, q: Decimal)
    requires CutRate(x, p) && CutRate(y, q) && 0.0 <= q <= p
    ensures y <= x
  {
    hide Whole;
    NoWholeBetween(x, y, RATE_SCALE);
  }

  /** On quotes that do not rise with the quantity, selling more BTC never fetches a better rate. */
  lemma LargerSaleIsNoBetter(d: Desks, small: Decimal, large: Decimal, target: Currency, x: Decimal, y: Decimal)
    requires ValidDesks(d) && 0.0 <= small <= large && SaleRate(d, small, target, x) && SaleRate(d, large, target, y)
    requires FallingQuotes(d.bids[target])
    ensures y <= x
  {
    hide SaleBucket, CutRate, Product, Bucket;
    var quotes, m := d.bids[target], 1.0 - d.half;
    var k := SaleParts(d, small, target, x);
    var j := SaleParts(d, large, target, y);
    LargerSaleBucket(quotes, small, large, k, j);
    ProductMono(quotes[j], quotes[k], m);
    ProductNonNegative(quotes[j], m);
    CutMono(x, y, Product(quotes[k], m), Product(quotes[j], m));
  }

  /** On quotes that do not fall with the quantity, spending more fiat never buys at a better rate. */
  lemma LargerPurchaseIsNoBetter(d: Desks, small: Decimal, large: Decimal, source: Currency, margin: Decimal,
                                 x: Decimal, y: Decimal)
    requires ValidDesks(d) && 0.0 <= small <= large && margin > 0.0
    requires PurchaseRate(d, small, source, margin, x) && PurchaseRate(d, large, source, margin, y)
    requires RisingQuotes(d.asks[source])
    ensures y <= x
  {
    hide CutRate, Product, Bucket, Reciprocal;
    var quotes := d.asks[source];
    var k := PurchaseParts(d, small, source, margin, x);
    var j := PurchaseParts(d, large, source, margin, y);
    LargerBucket(quotes, small, large, k, j);
    PositiveProduct(quotes[k], margin);
    ProductMono(quotes[k], quotes[j], margin);
    ReciprocalOrder(Product(quotes[k], margin), Product(quotes[j], margin));
    CutMono(x, y, Reciprocal(Product(quotes[k], margin)), Reciprocal(Product(quotes[j], margin)));
  }

  /** From fiat to fiat: not either, unless the larger amount yields less BTC on the way. */
  lemma LargerTransitIsNoBetter(d: Desks, small: Decimal, large: Decimal, source: Currency, target: Currency,
                                w1: Decimal, y1: Decimal, z1: Decimal, x1: Decimal,
                                w2: Decimal, y2: Decimal, z2: Decimal, x2: Decimal)
    requires ValidDesks(d) && 0.0 <= small <= large && 0.0 <= y1 <= y2
    requires PurchaseRate(d, small, source, 1.0, w1) && SaleRate(d, y1, target, z1) && CutRate(x1, Product(w1, z1))
    requires PurchaseRate(d, large, source, 1.0, w2) && SaleRate(d, y2, target, z2) && CutRate(x2, Product(w2, z2))
    requires RisingQuotes(d.asks[source]) && FallingQuotes(d.bids[target])
    ensures x2 <= x1
  {
    hide PurchaseRate, SaleRate, CutRate, Product, RisingQuotes, FallingQuotes, ValidDesks;
    LargerPurchaseIsNoBetter(d, small, large, source, 1.0, w1, w2);
    LargerSaleIsNoBetter(d, y1, y2, target, z1, z2);
    PurchaseRateSign(d, large, source, 1.0, w2);
    SaleRateSign(d, y2, target, z2);
    ProductNonNegative(w2, z2);
    ProductOrder(w2, w1, z2, z1);
    CutMono(x1, x2, Product(w1, z1), Product(w2, z2));
  }

  /** Exactly when it is no better: the rates of its two legs multiply to less than the smaller amount's rate and
      one unit of the twelfth place. */
  lemma TransitIsNoBetterIff(w: Decimal, z: Decimal, x1: Decimal, x2: Decimal)
    requires w >= 0.0 && z >= 0.0 && Whole(x1, RATE_SCALE) && CutRate(x2, Product(w, z))
    ensures x2 <= x1 <==> Product(w, z) < x1 + RateUnit()
  {
    hide Whole, Units;
    ProductNonNegative(w, z);
    if Product(w, z) < x1 + RateUnit() {
      NoWholeBetween(x1, x2, RATE_SCALE);
    }
  }

  lemma SaleRateSign(d: Desks, btc: Decimal, target: Currency, x: Decimal)
    requires ValidDesks(d) && SaleRate(d, btc, target, x)
    ensures x >= 0.0
  {
    hide SaleBucket, Whole;
    var k := SaleParts(d, btc, target, x);
    ProductNonNegative(d.bids[target][k], 1.0 - d.half);
  }

  lemma ProductOrder(a: Decimal, b: Decimal, c: Decimal, e: Decimal)
    requires 0.0 <= a <= b && 0.0 <= c <= e
    ensures Product(a, c) <= Product(b, e)
  {
    MulMono(a, b, c);
    MulMono(c, e, b);
  }

  const BETTER: Desks :=
    Desks(map[EUR := map[900 := 1.0, 2000 := 0.5]], map[USD := map[1000 := 1.0, 2000 := 1.25]], 0.0)

  /** Where it does: 1100 dollars buy fewer bitcoins than 1000, which sell in a better bucket, so the larger
      amount gets 0.8 and the smaller 0.5. */
  lemma LargerTransitCanBeBetter()
    ensures ValidDesks(BETTER) && RisingQuotes(BETTER.asks[USD]) && FallingQuotes(BETTER.bids[EUR])
    ensures IsRate(BETTER, Money(1000.0, USD), EUR, 0.5) && IsRate(BETTER, Money(1100.0, USD), EUR, 0.8)
  {
    hide TransitRate;
    FewPlaces();
    Transit(1000.0, 1000, 1.0, 1000.0, 2000, 0.5, 0.5);
    Transit(1100.0, 2000, 0.8, 880.0, 900, 1.0, 0.8);
  }

  lemma Transit(fiat: Decimal, k: nat, w: Decimal, y: Decimal, j: nat, z: Decimal, x: Decimal)
    requires (fiat == 1000.0 && k == 1000 && w == 1.0) || (fiat == 1100.0 && k == 2000 && w == 0.8)
    requires (y == 1000.0 && j == 2000 && z == 0.5) || (y == 880.0 && j == 900 && z == 1.0)
    requires Product(fiat, w) == y && Product(w, z) == x && CutTo(y, y, BTC) && CutRate(x, x)
    ensures TransitRate(BETTER, fiat, USD, EUR, x)
  {
    BuysAt(BETTER, fiat, k, w);
    SellsAt(BETTER, y, j, z);
    hide PurchaseRate, SaleRate, CutRate, CutTo, BETTER, Product;
    assert PurchaseRate(BETTER, fiat, USD, 1.0, w) && SaleRate(BETTER, y, EUR, z);
  }

  lemma FewPlaces()
    ensures CutRate(1.0, 1.0) && CutRate(0.5, 0.5) && CutRate(0.8, 0.8)
    ensures CutTo(1000.0, 1000.0, BTC) && CutTo(880.0, 880.0, BTC)
  {
    WholeBy(1.0, RATE_SCALE, 1_000_000_000_000);
    WholeBy(0.5, RATE_SCALE, 500_000_000_000);
    WholeBy(0.8, RATE_SCALE, 800_000_000_000);
    WholeBy(1000.0, Scale(BTC), 1_000_000_000_000_000);
    WholeBy(880.0, Scale(BTC), 880_000_000_000_000);
  }

  lemma BuysAt(d: Desks, fiat: Decimal, k: nat, w: Decimal)
    requires d.asks == map[USD := map[1000 := 1.0, 2000 := 1.25]]
    requires (fiat == 1000.0 && k == 1000 && w == 1.0) || (fiat == 1100.0 && k == 2000 && w == 0.8)
    ensures PurchaseRate(d, fiat, USD, 1.0, w)
  {
    FewPlaces();
    assert Bucket(d.asks[USD], fiat, k);
    assert Reciprocal(Product(d.asks[USD][k], 1.0)) == w;
  }

  lemma SellsAt(d: Desks, btc: Decimal, k: nat, z: Decimal)
    requires d.bids == map[EUR := map[900 := 1.0, 2000 := 0.5]] && d.half == 0.0
    requires (btc == 1000.0 && k == 2000 && z == 0.5) || (btc == 880.0 && k == 900 && z == 1.0)
    ensures SaleRate(d, btc, EUR, z)
  {
    FewPlaces();
    var quotes := d.bids[EUR];
    assert Bucket(quotes, 0.0, 900);
    assert Product(btc, quotes[900]) == btc;
    assert Bucket(quotes, btc, k);
    assert Product(quotes[k], 1.0 - d.half) == z;
  }

  // ---- when there is a rate

  /** Some quote is for at least the whole part of the value. */
  ghost predicate Quoted(quotes: Quotes, v: Decimal) {
    exists q: nat :: q in quotes && v.Floor <= q < U64_MAX
  }

  lemma {:induction false} BucketExistsIff(quotes: Quotes, v: Decimal)
    ensures (exists k :: Bucket(quotes, v, k)) <==> Quoted(quotes, v)
    decreases |quotes|
  {
    if q: nat :| q in quotes && v.Floor <= q < U64_MAX {
      var rest := quotes - {q};
      BucketExistsIff(rest, v);
      if k: nat :| Bucket(rest, v, k) {
        assert forall j :: j in quotes ==> j == q || j in rest;
        assert Bucket(quotes, v, if k < q then k else q);
      } else {
        assert forall j :: j in quotes && v.Floor <= j < U64_MAX ==> j == q || j in rest;
        assert Bucket(quotes, v, q);
      }
    }
  }

  /** Fiat can be turned into BTC exactly when some ask quote is for at least its whole amount. */
  lemma PurchaseExistsIff(d: Desks, amount: Money)
    requires ValidDesks(d) && IsFiat(amount.currency) && amount.value >= 0.0
    ensures GetRate(d, amount, BTC).Some?
       <==> amount.currency in d.asks && Quoted(d.asks[amount.currency], amount.value)
  {
    hide GetRate, CutRate, Reciprocal, Bucket, Quoted;
    var source := amount.currency;
    var r := GetRate(d, amount, BTC);
    if source in d.asks {
      BucketExistsIff(d.asks[source], amount.value);
    }
    if r.Some? {
      GetRateIs(d, amount, BTC, r.value.value);
      var k := PurchaseParts(d, amount.value, source, 1.0 + d.half, r.value.value);
    } else if source in d.asks {
      if k: nat :| Bucket(d.asks[source], amount.value, k) {
        BucketIsQuoted(d.asks[source], amount.value, k);
        PositiveProduct(d.asks[source][k], 1.0 + d.half);
        var exact := Reciprocal(Product(d.asks[source][k], 1.0 + d.half));
        NewRateCut(source, BTC, exact);
        GetRateIs(d, amount, BTC, NewRate(source, BTC, exact).value);
      }
    }
  }

  /** Some quote is for at least the whole part of the value at the quote for the smallest quantity. */
  ghost predicate Sellable(quotes: Quotes, btc: Decimal) {
    exists b :: Bucket(quotes, 0.0, b) && Quoted(quotes, Product(btc, quotes[b]))
  }

  lemma SaleBucketExistsIff(quotes: Quotes, btc: Decimal)
    ensures (exists k :: SaleBucket(quotes, btc, k))
       <==> Sellable(quotes, btc)
  {
    hide Quoted, Product;
    if k: nat :| SaleBucket(quotes, btc, k) {
      var b :| Bucket(quotes, 0.0, b) && Bucket(quotes, Product(btc, quotes[b]), k);
      BucketExistsIff(quotes, Product(btc, quotes[b]));
    }
    if b: nat :| Bucket(quotes, 0.0, b) && Quoted(quotes, Product(btc, quotes[b])) {
      BucketExistsIff(quotes, Product(btc, quotes[b]));
      var k: nat :| Bucket(quotes, Product(btc, quotes[b]), k);
      assert SaleBucket(quotes, btc, k);
    }
  }

  /** BTC can be sold exactly when some bid quote is for at least the whole part of its value at the first quote. */
  lemma SaleExistsIff(d: Desks, amount: Money, target: Currency)
    requires ValidDesks(d) && amount.currency == BTC && IsFiat(target) && amount.value >= 0.0
    ensures GetRate(d, amount, target).Some?
       <==> target in d.bids && Sellable(d.bids[target], amount.value)
  {
    hide GetRate, CutRate, Product, SaleBucket, Bucket, Quoted, Sellable;
    if target in d.bids {
      SaleBucketExistsIff(d.bids[target], amount.value);
    }
    var r := GetRate(d, amount, target);
    if r.Some? {
      GetRateIs(d, amount, target, r.value.value);
      var k := SaleParts(d, amount.value, target, r.value.value);
    } else if target in d.bids {
      if k: nat :| SaleBucket(d.bids[target], amount.value, k) {
        OneSaleBucket(d.bids[target], amount.value, k, k);
        var exact := Product(d.bids[target][k], 1.0 - d.half);
        NewRateCut(BTC, target, exact);
        GetRateIs(d, amount, target, NewRate(BTC, target, exact).value);
      }
    }
  }
}
