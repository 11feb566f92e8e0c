/**
 Deriving swap rates from the quotes (dealer/src/dealer_engine.rs) and why no sequence of swaps
 gains value.
 */
module Rates {
  import opened Options
  import opened Decimals
  import opened Money
  import opened OrderBook
  import opened OrderBookReplica
  import opened StandingQuotes
  import opened Sums

  /** The dealer's quotes for every fiat currency, and half of its spread. */
  datatype Desks = Desks(bids: map<Currency, Quotes>, asks: map<Currency, Quotes>, half: Decimal)

  const U64_MAX: nat := 0xFFFF_FFFF_FFFF_FFFF

  /** `range(q..u64::MAX).next()`: the quote of the smallest quantity that is at least `q`. */
  ghost predicate IsNext(quotes: Quotes, q: nat, k: nat) {
    k in quotes && q <= k < U64_MAX && forall j :: j in quotes && q <= j < U64_MAX ==> k <= j
  }

  ghost function NextQuote(quotes: Quotes, q: nat): (p: Option<Decimal>)
    ensures p.Some? ==> exists k :: k in quotes && quotes[k] == p.value
  {
    if k :| IsNext(quotes, q, k) then Some(quotes[k]) else None
  }

  function ToU64(x: Decimal): Option<nat> {
    var k := ToZero(x);
    if 0 <= k <= U64_MAX then Some(k) else None
  }

  /** A conversion with BTC on one side; `linear` when it starts from BTC. */
  datatype Conversion = Conversion(source: Currency, target: Currency)

  predicate IsConversion(c: Conversion) {
    (c.source == BTC && IsFiat(c.target)) || (IsFiat(c.source) && c.target == BTC)
  }

  predicate IsLinear(c: Conversion) {
    c.source == BTC
  }

  function LinearRate(price: Decimal, half: Decimal, charge: bool): Decimal {
    Product(price, if charge then 1.0 - half else 1.0)
  }

  function InverseRate(price: Decimal, half: Decimal, charge: bool): Decimal
    requires price > 0.0 && half >= 0.0
  {
    Reciprocal(Product(price, if charge then 1.0 + half else 1.0))
  }

  predicate PositiveQuotes(quotes: map<Currency, Quotes>) {
    forall c, q :: c in quotes && q in quotes[c] ==> quotes[c][q] > 0.0
  }

  predicate ValidDesks(d: Desks) {
    PositiveQuotes(d.bids) && PositiveQuotes(d.asks) && 0.0 <= d.half <= 1.0
  }

  /** Selling BTC looks at the bids, buying it at the asks. */
  function Side(d: Desks, c: Conversion): Option<Quotes> {
    if c.source == BTC then (if c.target in d.bids then Some(d.bids[c.target]) else None)
    else (if c.source in d.asks then Some(d.asks[c.source]) else None)
  }

  /** The price for an amount: the amount is valued in fiat at the best quote, then looked up by quantity. */
  ghost function PriceFor(quotes: Quotes, amount: Money, c: Conversion): (p: Option<Decimal>)
    ensures p.Some? ==> exists k :: k in quotes && quotes[k] == p.value
  {
    var best := if c.source == BTC then NextQuote(quotes, 0) else Some(1.0);
    if best.None? then None
    else
      var lookup := ToU64(Product(amount.value, best.value));
      if lookup.None? then None else NextQuote(quotes, lookup.value)
  }

  /** `get_btc_cross_rate` */
  ghost function CrossRate(d: Desks, amount: Money, c: Conversion, charge: bool): (r: Option<Rate>)
    requires ValidDesks(d) && IsConversion(c)
    ensures r.Some? ==> r.value.base == c.source && r.value.quote == c.target
  {
    var side := Side(d, c);
    if side.None? then None
    else
      var price := PriceFor(side.value, amount, c);
      if price.None? then None
      else
        assert price.value > 0.0;
        Some(NewRate(c.source, c.target,
                     if IsLinear(c) then LinearRate(price.value, d.half, charge)
                     else InverseRate(price.value, d.half, charge)))
  }

  predicate Swappable(source: Currency, target: Currency) {
    source != target && source != KKP && target != KKP
  }

  /** `get_rate`: directly when BTC is on one side, else through BTC with the spread charged once. */
  ghost function GetRate(d: Desks, amount: Money, target: Currency): (r: Option<Rate>)
    requires ValidDesks(d) && Swappable(amount.currency, target)
    ensures r.Some? ==> r.value.base == amount.currency && r.value.quote == target
  {
    if amount.currency == BTC || target == BTC then
      CrossRate(d, amount, Conversion(amount.currency, target), true)
    else
      var first := CrossRate(d, amount, Conversion(amount.currency, BTC), false);
      if first.None? then None
      else
        var btc := NewMoney(BTC, Product(amount.value, first.value.value));
        var second := CrossRate(d, btc, Conversion(BTC, target), true);
        if second.None? then None
        else Some(NewRate(amount.currency, target, Product(first.value.value, second.value.value)))
  }

  // ---- valuing money

  /** BTC prices of the fiat currencies. */
  type Prices = map<Currency, Decimal>

  predicate ValidPrices(p: Prices) {
    forall c :: IsFiat(c) ==> c in p && p[c] > 0.0
  }

  /** Every bid quote is at most the price and every ask quote at least. */
  predicate Brackets(d: Desks, p: Prices)
    requires ValidPrices(p)
  {
    && (forall c, q :: IsFiat(c) && c in d.bids && q in d.bids[c] ==> d.bids[c][q] <= p[c])
    && (forall c, q :: IsFiat(c) && c in d.asks && q in d.asks[c] ==> p[c] <= d.asks[c][q])
  }

  /** What one unit of a currency is worth in BTC. */
  function UnitValue(p: Prices, c: Currency): (v: Decimal)
    requires ValidPrices(p) && c != KKP
    ensures v > 0.0
  {
    if c == BTC then 1.0 else Reciprocal(p[c])
  }

  function Worth(p: Prices, m: Money): Decimal
    requires ValidPrices(p) && m.currency != KKP
  {
    Product(m.value, UnitValue(p, m.currency))
  }

  /** A rate from which nobody gains at these prices. */
  predicate Fair(r: Rate, p: Prices)
    requires ValidPrices(p) && r.base != KKP && r.quote != KKP
  {
    r.value >= 0.0 && Product(r.value, UnitValue(p, r.quote)) <= UnitValue(p, r.base)
  }

  lemma LinearIsFair(price: Decimal, half: Decimal, charge: bool, p: Prices, c: Currency)
    requires ValidPrices(p) && IsFiat(c) && 0.0 < price <= p[c] && 0.0 <= half <= 1.0
    ensures Fair(NewRate(BTC, c, LinearRate(price, half, charge)), p)
  {
    hide NewRate;
    var x := LinearRate(price, half, charge);
    var k := if charge then 1.0 - half else 1.0;
    MulMono(0.0, k, price);
    MulMono(k, 1.0, price);
    assert 0.0 <= x <= price;
    AtMostOne(NewRate(BTC, c, x).value, p[c]);
  }

  lemma AtMostOne(x: Decimal, y: Decimal)
    requires x <= y && y > 0.0
    ensures Product(x, Reciprocal(y)) <= 1.0
  {
    MulMono(x, y, 1.0 / y);
  }

  lemma InverseIsFair(price: Decimal, half: Decimal, charge: bool, p: Prices, c: Currency)
    requires ValidPrices(p) && IsFiat(c) && price >= p[c] && half >= 0.0
    ensures price > 0.0 && Fair(NewRate(c, BTC, InverseRate(price, half, charge)), p)
  {
    hide NewRate;
    assert p[c] > 0.0;
    var k := if charge then 1.0 + half else 1.0;
    MulMono(1.0, k, price);
    ReciprocalOrder(p[c], Product(price, k));
    var r := NewRate(c, BTC, InverseRate(price, half, charge));
  }

  lemma ReciprocalOrder(a: Decimal, b: Decimal)
    requires 0.0 < a <= b
    ensures 0.0 < Reciprocal(b) <= Reciprocal(a)
  {
    var x, y := Reciprocal(a), Reciprocal(b);
    assert a * x == 1.0 && b * y == 1.0 && x > 0.0 && y > 0.0;
    MulMono(a, b, x * y);
    assert a * (x * y) == a * x * y && b * (x * y) == b * y * x;
  }

  lemma CrossRateIsFair(d: Desks, amount: Money, c: Conversion, charge: bool, p: Prices)
    requires ValidDesks(d) && IsConversion(c) && ValidPrices(p) && Brackets(d, p)
    ensures var r := CrossRate(d, amount, c, charge);
            r.Some? ==> Fair(r.value, p)
  {
    hide Fair, LinearRate, InverseRate, NewRate, PriceFor;
    var side := Side(d, c);
    if side.Some? {
      var price := PriceFor(side.value, amount, c);
      if price.Some? {
        if IsLinear(c) {
          LinearIsFair(price.value, d.half, charge, p, c.target);
        } else {
          InverseIsFair(price.value, d.half, charge, p, c.source);
        }
      }
    }
  }

  /** Going through BTC multiplies two fair rates. */
  lemma FairProduct(r: Rate, s: Rate, p: Prices)
    requires ValidPrices(p) && r.base != KKP && r.quote == BTC == s.base && s.quote != KKP && Fair(r, p) && Fair(s, p)
    ensures Fair(NewRate(r.base, s.quote, Product(r.value, s.value)), p)
  {
    hide NewRate, UnitValue, Product;
    BtcUnit(p);
    ProductNonNegative(r.value, s.value);
    var t := NewRate(r.base, s.quote, Product(r.value, s.value));
    FairChain(r.value, s.value, t.value, UnitValue(p, s.quote), UnitValue(p, r.base));
  }

  lemma ProductNonNegative(x: Decimal, y: Decimal)
    requires x >= 0.0 && y >= 0.0
    ensures Product(x, y) >= 0.0
  {
    MulMono(0.0, x, y);
  }

  lemma FairChain(x: Decimal, y: Decimal, t: Decimal, v: Decimal, w: Decimal)
    requires x >= 0.0 && v >= 0.0 && t <= Product(x, y) && Product(x, 1.0) <= w && Product(y, v) <= 1.0
    ensures Product(t, v) <= w
  {
    MulMono(t, x * y, v);
    MulMono(y * v, 1.0, x);
    assert x * y * v == y * v * x;
  }

  lemma BtcUnit(p: Prices)
    requires ValidPrices(p)
    ensures UnitValue(p, BTC) == 1.0
  {
  }

  lemma RatesAreFair(d: Desks, amount: Money, target: Currency, p: Prices)
    requires ValidDesks(d) && Swappable(amount.currency, target) && ValidPrices(p) && Brackets(d, p)
    ensures var r := GetRate(d, amount, target);
            r.Some? ==> Fair(r.value, p)
  {
    hide Fair, CrossRate, Brackets, ValidPrices, NewMoney;
    if amount.currency == BTC || target == BTC {
      CrossRateIsFair(d, amount, Conversion(amount.currency, target), true, p);
    } else {
      CrossRateIsFair(d, amount, Conversion(amount.currency, BTC), false, p);
      var first := CrossRate(d, amount, Conversion(amount.currency, BTC), false);
      if first.Some? {
        var mid := NewMoney(BTC, Product(amount.value, first.value.value));
        CrossRateIsFair(d, mid, Conversion(BTC, target), true, p);
        var second := CrossRate(d, mid, Conversion(BTC, target), true);
        if second.Some? {
          FairProduct(first.value, second.value, p);
        }
      }
    }
  }

  // ---- sequences of swaps

  /** What a holder has of each currency. */
  type Holdings = map<Currency, Decimal>

  function Has(h: Holdings, c: Currency): Decimal {
    if c in h then h[c] else 0.0
  }

  predicate NoDebts(h: Holdings) {
    forall c :: c in h ==> h[c] >= 0.0
  }

  /** One swap: the rate the dealer gives for the amount, applied by the bank. */
  datatype SwapOrder = SwapOrder(desks: Desks, amount: Money, target: Currency)

  ghost predicate Executable(o: SwapOrder, h: Holdings) {
    && ValidDesks(o.desks) && Swappable(o.amount.currency, o.target)
    && 0.0 <= o.amount.value <= Has(h, o.amount.currency)
    && GetRate(o.desks, o.amount, o.target).Some?
  }

  ghost function Received(o: SwapOrder): (m: Money)
    requires ValidDesks(o.desks) && Swappable(o.amount.currency, o.target) && GetRate(o.desks, o.amount, o.target).Some?
    ensures m.currency == o.target
  {
    Exchange(o.amount, GetRate(o.desks, o.amount, o.target).value).money
  }

  ghost function AfterSwap(h: Holdings, o: SwapOrder): Holdings
    requires Executable(o, h)
  {
    var source := o.amount.currency;
    h[source := Has(h, source) - o.amount.value][o.target := Has(h, o.target) + Received(o).value]
  }

  /** The value of everything held. */
  function Value(h: Holdings, p: Prices): Decimal
    requires ValidPrices(p)
  {
    HeldWorth(h, p, BTC) + HeldWorth(h, p, USD) + HeldWorth(h, p, EUR) + HeldWorth(h, p, GBP)
  }

  function HeldWorth(h: Holdings, p: Prices, c: Currency): Decimal
    requires ValidPrices(p) && c != KKP
  {
    Worth(p, Money(Has(h, c), c))
  }

  lemma FairExchange(m: Money, r: Rate, p: Prices)
    requires ValidPrices(p) && m.currency == r.base && r.base != KKP && r.quote != KKP && Fair(r, p) && m.value >= 0.0
    ensures var e := Exchange(m, r).money; e.value >= 0.0 && Worth(p, e) <= Worth(p, m)
  {
    hide UnitValue, NewMoney, Unit, ValidPrices;
    var e := Exchange(m, r).money;
    MulMono(0.0, m.value, r.value);
    assert Kept(e.value, Product(m.value, r.value), Unit(r.quote));
    NoGain(e.value, m.value, r.value, UnitValue(p, r.quote), UnitValue(p, r.base));
  }

  lemma NoGain(e: real, m: real, r: real, vq: real, vb: real)
    requires e <= Product(m, r) && Product(r, vq) <= vb && m >= 0.0 && vq > 0.0
    ensures Product(e, vq) <= Product(m, vb)
  {
    MulMono(e, m * r, vq);
    MulMono(r * vq, vb, m);
    assert m * r * vq == r * vq * m;
  }

  lemma ValueSet(h: Holdings, p: Prices, c: Currency, y: Decimal)
    requires ValidPrices(p) && c != KKP
    ensures Value(h[c := y], p) == Value(h, p) - Worth(p, Money(Has(h, c), c)) + Worth(p, Money(y, c))
  {
    hide Worth, ValidPrices;
  }

  lemma WorthOfSum(p: Prices, c: Currency, x: Decimal, y: Decimal)
    requires ValidPrices(p) && c != KKP
    ensures Worth(p, Money(x + y, c)) == Worth(p, Money(x, c)) + Worth(p, Money(y, c))
    ensures Worth(p, Money(x - y, c)) == Worth(p, Money(x, c)) - Worth(p, Money(y, c))
  {
    hide UnitValue, ValidPrices;
    Distribute(x, y, UnitValue(p, c));
  }

  /** The value changes by what is given and what is received. */
  lemma ValueAfter(h: Holdings, p: Prices, s: Currency, x: Decimal, t: Currency, y: Decimal)
    requires ValidPrices(p) && Swappable(s, t)
    ensures Value(h[s := Has(h, s) - x][t := Has(h, t) + y], p)
         == Value(h, p) - Worth(p, Money(x, s)) + Worth(p, Money(y, t))
  {
    hide Worth, Value, ValidPrices;
    var g := h[s := Has(h, s) - x];
    ValueSet(h, p, s, Has(h, s) - x);
    ValueSet(g, p, t, Has(h, t) + y);
    WorthOfSum(p, s, Has(h, s), x);
    WorthOfSum(p, t, Has(h, t), y);
  }

  lemma SwapLosesValue(h: Holdings, o: SwapOrder, p: Prices)
    requires Executable(o, h) && NoDebts(h) && ValidPrices(p) && Brackets(o.desks, p)
    ensures Value(AfterSwap(h, o), p) <= Value(h, p) && NoDebts(AfterSwap(h, o))
  {
    hide Value, Worth, GetRate, Fair, Brackets, Exchange, ValidPrices, ValidDesks;
    RatesAreFair(o.desks, o.amount, o.target, p);
    FairExchange(o.amount, GetRate(o.desks, o.amount, o.target).value, p);
    ValueAfter(h, p, o.amount.currency, o.amount.value, o.target, Received(o).value);
  }

  /** A run of swaps; the dealer's quotes may change from one to the next. */
  ghost predicate SwapRun(h: Holdings, orders: seq<SwapOrder>, last: Holdings)
    decreases orders
  {
    if orders == [] then h == last
    else Executable(orders[0], h) && SwapRun(AfterSwap(h, orders[0]), orders[1..], last)
  }

  /** As long as the quotes bracket a price vector, no sequence of swaps raises the value held at those prices. */
  lemma {:induction false} NoSequenceGains(h: Holdings, orders: seq<SwapOrder>, last: Holdings, p: Prices)
    requires SwapRun(h, orders, last) && NoDebts(h) && ValidPrices(p)
    requires forall i :: 0 <= i < |orders| ==> Brackets(orders[i].desks, p)
    ensures Value(last, p) <= Value(h, p) && NoDebts(last)
    decreases orders
  {
    hide Value, Executable, AfterSwap, Brackets, ValidPrices, NoDebts;
    if orders != [] {
      SwapLosesValue(h, orders[0], p);
      NoSequenceGains(AfterSwap(h, orders[0]), orders[1..], last, p);
    }
  }

  /** Start with one currency, end with that currency: never more of it than at the start. */
  lemma ClosedCycleLoses(h: Holdings, orders: seq<SwapOrder>, last: Holdings, p: Prices, c: Currency)
    requires SwapRun(h, orders, last) && NoDebts(h) && ValidPrices(p) && c != KKP
    requires forall i :: 0 <= i < |orders| ==> Brackets(orders[i].desks, p)
    requires forall d :: d != c ==> Has(h, d) == 0.0
    ensures Has(last, c) <= Has(h, c)
  {
    hide SwapRun, Brackets, Value, Worth, ValidPrices, HeldWorth;
    NoSequenceGains(h, orders, last, p);
    forall d | d != KKP
      ensures HeldWorth(last, p, d) >= 0.0
    {
      WorthNonNegative(last, p, d);
    }
    forall d | d != KKP && d != c
      ensures HeldWorth(h, p, d) == 0.0
    {
      WorthOfNothing(h, p, d);
    }
    OnlyOne(h, last, p, c);
    WorthOrder(h, last, p, c);
  }

  lemma WorthNonNegative(h: Holdings, p: Prices, c: Currency)
    requires ValidPrices(p) && c != KKP && NoDebts(h)
    ensures HeldWorth(h, p, c) >= 0.0
  {
    hide UnitValue, ValidPrices;
    MulMono(0.0, Has(h, c), UnitValue(p, c));
  }

  lemma WorthOfNothing(h: Holdings, p: Prices, c: Currency)
    requires ValidPrices(p) && c != KKP && Has(h, c) == 0.0
    ensures HeldWorth(h, p, c) == 0.0
  {
    hide UnitValue, ValidPrices;
  }

  lemma WorthOrder(h: Holdings, last: Holdings, p: Prices, c: Currency)
    requires ValidPrices(p) && c != KKP && HeldWorth(last, p, c) <= HeldWorth(h, p, c)
    ensures Has(last, c) <= Has(h, c)
  {
    hide UnitValue, ValidPrices, Has;
    Cancel(Has(last, c), Has(h, c), UnitValue(p, c));
  }

  lemma OnlyOne(h: Holdings, last: Holdings, p: Prices, c: Currency)
    requires ValidPrices(p) && c != KKP && Value(last, p) <= Value(h, p)
    requires forall d :: d != KKP ==> HeldWorth(last, p, d) >= 0.0
    requires forall d :: d != KKP && d != c ==> HeldWorth(h, p, d) == 0.0
    ensures HeldWorth(last, p, c) <= HeldWorth(h, p, c)
  {
    hide HeldWorth, ValidPrices;
  }

  // ---- from the quotes to a price between them

  predicate Between(bids: Quotes, p: Decimal, asks: Quotes) {
    (forall q :: q in bids ==> bids[q] <= p) && (forall q :: q in asks ==> p <= asks[q])
  }

  lemma {:induction false} Highest(quotes: Quotes) returns (q: nat)
    requires quotes != map[]
    ensures q in quotes && forall k :: k in quotes ==> quotes[k] <= quotes[q]
    decreases |quotes|
  {
    q := SomeKey(quotes);
    var rest := quotes - {q};
    if rest != map[] {
      var k := Highest(rest);
      assert forall j :: j in quotes ==> j == q || j in rest;
      q := if quotes[k] > quotes[q] then k else q;
    } else {
      assert forall j :: j in quotes ==> j == q || j in rest;
    }
  }

  lemma PriceBetween(bids: Quotes, asks: Quotes) returns (p: Decimal)
    requires Ordered(bids, asks)
    requires (forall q :: q in bids ==> bids[q] > 0.0) && (forall q :: q in asks ==> asks[q] > 0.0)
    ensures p > 0.0 && Between(bids, p, asks)
  {
    if bids != map[] {
      var q := Highest(bids);
      p := bids[q];
    } else if asks != map[] {
      var negated: Quotes := map q | q in asks :: -asks[q];
      assert negated.Keys == asks.Keys;
      var q := Highest(negated);
      p := asks[q];
      assert forall k :: k in asks ==> negated[k] <= negated[q];
    } else {
      p := 1.0;
    }
  }

  function QuotesOf(quotes: map<Currency, Quotes>, c: Currency): Quotes {
    if c in quotes then quotes[c] else map[]
  }

  /** Every symbol's highest bid quote is at most its lowest ask quote. */
  predicate OrderedDesks(d: Desks) {
    forall c :: IsFiat(c) ==> Ordered(QuotesOf(d.bids, c), QuotesOf(d.asks, c))
  }

  lemma BracketingPrices(d: Desks) returns (p: Prices)
    requires ValidDesks(d) && OrderedDesks(d)
    ensures ValidPrices(p) && Brackets(d, p)
  {
    hide Between, Ordered;
    var usd := PriceBetween(QuotesOf(d.bids, USD), QuotesOf(d.asks, USD));
    var eur := PriceBetween(QuotesOf(d.bids, EUR), QuotesOf(d.asks, EUR));
    var gbp := PriceBetween(QuotesOf(d.bids, GBP), QuotesOf(d.asks, GBP));
    p := map[USD := usd, EUR := eur, GBP := gbp];
    assert ValidPrices(p);
    forall c | IsFiat(c)
      ensures c in d.bids ==> forall q :: q in d.bids[c] ==> d.bids[c][q] <= p[c]
      ensures c in d.asks ==> forall q :: q in d.asks[c] ==> p[c] <= d.asks[c][q]
    {
      BetweenIs(QuotesOf(d.bids, c), p[c], QuotesOf(d.asks, c));
    }
  }

  lemma BetweenIs(bids: Quotes, p: Decimal, asks: Quotes)
    requires Between(bids, p, asks)
    ensures (forall q :: q in bids ==> bids[q] <= p) && (forall q :: q in asks ==> p <= asks[q])
  {
  }

  /** While the quotes stand, no closed cycle of swaps of any length ends with more than it started with. */
  lemma StandingQuotesAreArbitrageFree(d: Desks, h: Holdings, orders: seq<SwapOrder>, last: Holdings, c: Currency)
    requires ValidDesks(d) && OrderedDesks(d) && forall i :: 0 <= i < |orders| ==> orders[i].desks == d
    requires SwapRun(h, orders, last) && NoDebts(h) && c != KKP
    requires forall e :: e != c ==> Has(h, e) == 0.0
    ensures Has(last, c) <= Has(h, c)
  {
    hide *;
    var p := BracketingPrices(d);
    ClosedCycleLoses(h, orders, last, p, c);
  }

  // ---- from order books to swaps

  /** The quotes of one fiat currency were last updated from this book. */
  ghost predicate QuotedFrom(d: Desks, before: Desks, c: Currency, b: Book, scale: int) {
    && c in d.bids && c in d.asks && scale > 0
    && Requoted(QuotesOf(before.bids, c), d.bids[c], Descending(b.bids), Up, scale, |QUANTITIES|)
    && Requoted(QuotesOf(before.asks, c), d.asks[c], Ascending(b.asks), Down, scale, |QUANTITIES|)
  }

  ghost predicate OnlyQuantities(quotes: Quotes) {
    forall q :: q in quotes ==> q in QUANTITIES
  }

  lemma DeepBooksGiveValidDesks(d: Desks, before: Desks, books: map<Currency, Book>, scales: map<Currency, int>)
    requires forall c :: IsFiat(c) ==> c in books && c in scales && Deep(books[c])
    requires forall c :: IsFiat(c) ==> QuotedFrom(d, before, c, books[c], scales[c])
    requires forall c :: IsFiat(c) ==>
               OnlyQuantities(QuotesOf(before.bids, c)) && OnlyQuantities(QuotesOf(before.asks, c))
    requires (forall c :: c in d.bids || c in d.asks ==> IsFiat(c)) && 0.0 <= d.half <= 1.0
    ensures ValidDesks(d) && OrderedDesks(d)
  {
    hide Deep, Requoted, OnlyQuantities, Ordered;
    forall c | IsFiat(c)
      ensures Ordered(d.bids[c], d.asks[c])
      ensures forall q :: q in d.bids[c] ==> d.bids[c][q] > 0.0
      ensures forall q :: q in d.asks[c] ==> d.asks[c][q] > 0.0
    {
      var bids0, asks0 := QuotesOf(before.bids, c), QuotesOf(before.asks, c);
      QuantitiesOf(bids0);
      QuantitiesOf(asks0);
      DeepBookQuotesAreOrdered(bids0, d.bids[c], asks0, d.asks[c], books[c], scales[c]);
    }
  }

  lemma QuantitiesOf(quotes: Quotes)
    requires OnlyQuantities(quotes)
    ensures forall q :: q in quotes ==> q in QUANTITIES
  {
  }

  /** While quotes stand that were taken from deep, uncrossed books in whole positive ticks, for all three
      fiat currencies, no closed cycle of swaps ends with more than it started with. */
  lemma DeepBooksAreArbitrageFree(d: Desks, before: Desks, books: map<Currency, Book>, scales: map<Currency, int>,
                                  h: Holdings, orders: seq<SwapOrder>, last: Holdings, c: Currency)
    requires forall f :: IsFiat(f) ==> f in books && f in scales && Deep(books[f])
    requires forall f :: IsFiat(f) ==> QuotedFrom(d, before, f, books[f], scales[f])
    requires forall f :: IsFiat(f) ==>
               OnlyQuantities(QuotesOf(before.bids, f)) && OnlyQuantities(QuotesOf(before.asks, f))
    requires (forall f :: f in d.bids || f in d.asks ==> IsFiat(f)) && 0.0 <= d.half <= 1.0
    requires forall i :: 0 <= i < |orders| ==> orders[i].desks == d
    requires SwapRun(h, orders, last) && NoDebts(h) && c != KKP
    requires forall e :: e != c ==> Has(h, e) == 0.0
    ensures Has(last, c) <= Has(h, c)
  {
    hide QuotedFrom, Deep, OnlyQuantities, SwapRun, ValidDesks, OrderedDesks, NoDebts;
    DeepBooksGiveValidDesks(d, before, books, scales);
    StandingQuotesAreArbitrageFree(d, h, orders, last, c);
  }
}
