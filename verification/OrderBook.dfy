/** Pricing fixed quantities from the order book in one pass (dealer/src/dealer_engine.rs). */
module OrderBook {
  import opened Decimals
  import opened Money

  datatype Level = Level(price: Decimal, volume: nat)

  /** One side of the book, best price first. */
  type Levels = seq<Level>

  function Times(price: Decimal, n: nat): Decimal {
    price * n as real
  }

  function Depth(levels: Levels): nat {
    if levels == [] then 0 else levels[0].volume + Depth(levels[1..])
  }

  /** Cost of the first `qty` units, walking the book from scratch. */
  function Cost(levels: Levels, qty: nat): Decimal {
    if qty == 0 || levels == [] then 0.0
    else if qty <= levels[0].volume then Times(levels[0].price, qty)
    else Times(levels[0].price, levels[0].volume) + Cost(levels[1..], qty - levels[0].volume)
  }

  lemma {:induction false} DepthConcat(a: Levels, b: Levels)
    ensures Depth(a + b) == Depth(a) + Depth(b)
  {
    if a == [] {
      assert a + b == b;
    } else {
      assert (a + b)[1..] == a[1..] + b;
      DepthConcat(a[1..], b);
    }
  }

  /** Within a level the cost grows by that level's price per unit. */
  lemma {:induction false} CostInLevel(levels: Levels, i: nat, qty: nat, more: nat)
    requires i < |levels| && Depth(levels[..i]) <= qty && qty + more <= Depth(levels[..i + 1])
    ensures Cost(levels, qty + more) == Cost(levels, qty) + Times(levels[i].price, more)
    decreases i
  {
    hide Cost;
    var rest, v := levels[1..], levels[0].volume;
    DepthFirst(levels, i);
    DepthFirst(levels, i + 1);
    if i == 0 {
      FirstLevel(levels, qty);
      FirstLevel(levels, qty + more);
      Distribute(qty as real, more as real, levels[0].price);
    } else {
      CostInLevel(rest, i - 1, qty - v, more);
      PastFirstLevel(levels, qty);
      PastFirstLevel(levels, qty + more);
    }
  }

  lemma DepthFirst(levels: Levels, i: nat)
    requires i <= |levels|
    ensures i == 0 ==> Depth(levels[..i]) == 0
    ensures i > 0 ==> Depth(levels[..i]) == levels[0].volume + Depth(levels[1..][..i - 1])
  {
    if i > 0 {
      assert levels[..i][1..] == levels[1..][..i - 1];
    }
  }

  lemma FirstLevel(levels: Levels, qty: nat)
    requires levels != [] && qty <= levels[0].volume
    ensures Cost(levels, qty) == Times(levels[0].price, qty)
  {
  }

  lemma PastFirstLevel(levels: Levels, qty: nat)
    requires levels != [] && qty >= levels[0].volume
    ensures Cost(levels, qty) == Times(levels[0].price, levels[0].volume) + Cost(levels[1..], qty - levels[0].volume)
  {
  }

  // ---- the incremental walk

  /** The running counters of the walk: what is left of the current level, how much was taken, at what cost,
      and how many levels the iterator has handed out. */
  datatype Walk = Walk(atLevel: nat, price: Decimal, taken: nat, cost: Decimal, next: nat)

  const START: Walk := Walk(0, 0.0, 0, 0.0, 0)

  ghost predicate Tracks(levels: Levels, w: Walk) {
    && w.next <= |levels|
    && w.cost == Cost(levels, w.taken)
    && if w.atLevel == 0 then
         Depth(levels[..w.next]) == w.taken
       else
         && w.next > 0 && w.price == levels[w.next - 1].price
         && Depth(levels[..w.next - 1]) <= w.taken && w.taken + w.atLevel == Depth(levels[..w.next])
  }

  lemma DepthNext(levels: Levels, i: nat)
    requires i < |levels|
    ensures Depth(levels[..i + 1]) == Depth(levels[..i]) + levels[i].volume
  {
    assert levels[..i + 1] == levels[..i] + [levels[i]];
    DepthConcat(levels[..i], [levels[i]]);
    assert Depth([levels[i]]) == levels[i].volume;
  }

  lemma DepthWhole(levels: Levels, i: nat)
    requires i <= |levels|
    ensures Depth(levels[..i]) <= Depth(levels) && levels[..|levels|] == levels
  {
    assert levels == levels[..i] + levels[i..];
    DepthConcat(levels[..i], levels[i..]);
  }

  lemma TakeFromLevel(levels: Levels, w: Walk, n: nat)
    requires Tracks(levels, w) && n <= w.atLevel
    ensures Tracks(levels, w.(atLevel := w.atLevel - n, taken := w.taken + n, cost := w.cost + Times(w.price, n)))
  {
    if w.atLevel > 0 {
      CostInLevel(levels, w.next - 1, w.taken, n);
    }
  }

  /** Continue the walk until `qty` units are taken or the book is exhausted; `missing` is what is left to match. */
  method MatchUpTo(levels: Levels, start: Walk, qty: nat) returns (w: Walk, missing: nat)
    requires Tracks(levels, start) && start.taken <= qty
    ensures Tracks(levels, w) && w.taken + missing == qty
    ensures missing == 0 <==> qty <= Depth(levels)
    ensures missing > 0 ==> w.taken == Depth(levels)
  {
    w, missing := start, qty - start.taken;
    while missing > 0
      invariant Tracks(levels, w) && w.taken + missing == qty
      decreases |levels| - w.next, missing
    {
      if missing <= w.atLevel {
        TakeFromLevel(levels, w, missing);
        w := w.(atLevel := w.atLevel - missing, taken := w.taken + missing, cost := w.cost + Times(w.price, missing));
        missing := 0;
      } else {
        TakeFromLevel(levels, w, w.atLevel);
        missing := missing - w.atLevel;
        w := w.(taken := w.taken + w.atLevel, cost := w.cost + Times(w.price, w.atLevel), atLevel := 0);
        if w.next < |levels| {
          DepthNext(levels, w.next);
          w := w.(price := levels[w.next].price, atLevel := levels[w.next].volume, next := w.next + 1);
        } else {
          w := w.(price := 0.0, atLevel := 0);
          break;
        }
      }
    }
    DepthWhole(levels, w.next);
  }

  // ---- quotes

  /** Quotes by quantity. */
  type Quotes = map<nat, Decimal>

  const QUANTITIES: seq<nat> := [10, 100, 1_000, 2_000, 3_000, 5_000, 10_000, 100_000, 1_000_000]

  datatype Rounding = Up | Down

  function Average(cost: Decimal, qty: nat): Decimal
    requires qty > 0
  {
    cost / qty as real
  }

  /** The price of a quantity in ticks, rounded and then shifted to the symbol's number of decimal places. */
  function Quote(cost: Decimal, qty: nat, r: Rounding, scale: int): Decimal
    requires qty > 0 && scale > 0
  {
    var avg := Average(cost, qty);
    Units(if r == Up then Ceil(avg) else avg.Floor, scale)
  }

  /** `after` is `before` with the quote of every quantity the book can fill, and nothing deleted. */
  ghost predicate Requoted(before: Quotes, after: Quotes, levels: Levels, r: Rounding, scale: int, n: nat)
    requires n <= |QUANTITIES| && scale > 0
  {
    && (forall q :: q in after <==> q in before || (q in QUANTITIES[..n] && q <= Depth(levels)))
    && (forall q :: q in after && !(q in QUANTITIES[..n] && q <= Depth(levels)) ==> after[q] == before[q])
    && (forall q :: q in QUANTITIES[..n] && q <= Depth(levels) ==> after[q] == Quote(Cost(levels, q), q, r, scale))
  }

  /** One more quantity. */
  lemma RequotedStep(before: Quotes, mid: Quotes, after: Quotes, levels: Levels, r: Rounding, scale: int, n: nat)
    requires n < |QUANTITIES| && scale > 0 && Requoted(before, mid, levels, r, scale, n)
    requires var q := QUANTITIES[n];
             after == if q <= Depth(levels) then mid[q := Quote(Cost(levels, q), q, r, scale)] else mid
    ensures Requoted(before, after, levels, r, scale, n + 1)
  {
    hide Quote, Cost, Depth;
    assert QUANTITIES[..n + 1] == QUANTITIES[..n] + [QUANTITIES[n]];
  }

  /** The quotes of one symbol. */
  class Desk {
    var bids: Quotes
    var asks: Quotes

    constructor ()
      ensures bids == map[] && asks == map[]
    {
      bids, asks := map[], map[];
    }

    /** `update_quotes`: both sides priced in a single pass over the quantities. */
    method UpdateQuotes(bidLevels: Levels, askLevels: Levels, scale: int)
      requires scale > 0
      modifies this
      ensures Requoted(old(bids), bids, bidLevels, Up, scale, |QUANTITIES|)
      ensures Requoted(old(asks), asks, askLevels, Down, scale, |QUANTITIES|)
    {
      hide Quote, Cost, Depth, Requoted, Tracks;
      var bid, ask := START, START;
      StartTracks(bidLevels);
      StartTracks(askLevels);
      RequotedNone(bids, bidLevels, Up, scale);
      RequotedNone(asks, askLevels, Down, scale);
      for n := 0 to |QUANTITIES|
        invariant Tracks(bidLevels, bid) && Tracks(askLevels, ask)
        invariant n < |QUANTITIES| ==> bid.taken <= QUANTITIES[n] && ask.taken <= QUANTITIES[n]
        invariant Requoted(old(bids), bids, bidLevels, Up, scale, n)
        invariant Requoted(old(asks), asks, askLevels, Down, scale, n)
      {
        var qty := QUANTITIES[n];
        ghost var bids0, asks0 := bids, asks;
        var bidMissing, askMissing;
        bid, bidMissing := MatchUpTo(bidLevels, bid, qty);
        ask, askMissing := MatchUpTo(askLevels, ask, qty);
        TracksCost(bidLevels, bid);
        TracksCost(askLevels, ask);
        if bidMissing == 0 {
          bids := bids[qty := Quote(bid.cost, bid.taken, Up, scale)];
        }
        if askMissing == 0 {
          asks := asks[qty := Quote(ask.cost, ask.taken, Down, scale)];
        }
        RequotedStep(old(bids), bids0, bids, bidLevels, Up, scale, n);
        RequotedStep(old(asks), asks0, asks, askLevels, Down, scale, n);
      }
    }
  }

  lemma StartTracks(levels: Levels)
    ensures Tracks(levels, START)
  {
  }

  lemma TracksCost(levels: Levels, w: Walk)
    requires Tracks(levels, w)
    ensures w.cost == Cost(levels, w.taken)
  {
  }

  lemma RequotedNone(quotes: Quotes, levels: Levels, r: Rounding, scale: int)
    requires scale > 0
    ensures Requoted(quotes, quotes, levels, r, scale, 0)
  {
  }

  /** A book a million units deep is quoted for nine quantities. */
  lemma NineQuantities(after: Quotes, levels: Levels, r: Rounding, scale: int)
    requires scale > 0 && Requoted(map[], after, levels, r, scale, |QUANTITIES|) && Depth(levels) >= 1_000_000
    ensures after.Keys == {10, 100, 1_000, 2_000, 3_000, 5_000, 10_000, 100_000, 1_000_000}
  {
    hide Quote, Cost, Depth;
    assert QUANTITIES[..|QUANTITIES|] == QUANTITIES;
    InQuantities();
  }

  lemma InQuantities()
    ensures forall q: nat ::
              q in QUANTITIES <==> q in {10, 100, 1_000, 2_000, 3_000, 5_000, 10_000, 100_000, 1_000_000}
  {
    assert QUANTITIES[0] == 10 && QUANTITIES[1] == 100 && QUANTITIES[2] == 1_000 && QUANTITIES[3] == 2_000;
    assert QUANTITIES[4] == 3_000 && QUANTITIES[5] == 5_000 && QUANTITIES[6] == 10_000;
    assert QUANTITIES[7] == 100_000 && QUANTITIES[8] == 1_000_000;
  }

  // ---- bigger quantities get no better price

  predicate Falling(levels: Levels) {
    forall i, j :: 0 <= i < j < |levels| ==> levels[i].price >= levels[j].price
  }

  predicate Rising(levels: Levels) {
    forall i, j :: 0 <= i < j < |levels| ==> levels[i].price <= levels[j].price
  }

  predicate AtMost(levels: Levels, p: Decimal) {
    forall i :: 0 <= i < |levels| ==> levels[i].price <= p
  }

  /** Taking more costs at most the highest price per extra unit. */
  lemma {:induction false} CostSlope(levels: Levels, p: Decimal, q1: nat, q2: nat)
    requires AtMost(levels, p) && q1 <= q2 <= Depth(levels)
    ensures Cost(levels, q2) - Cost(levels, q1) <= p * (q2 - q1) as real
    decreases levels
  {
    hide Cost;
    if q1 == q2 {
    } else {
      var v, p0, rest := levels[0].volume, levels[0].price, levels[1..];
      if q2 <= v {
        FirstLevel(levels, q1);
        FirstLevel(levels, q2);
        MulMono(p0, p, (q2 - q1) as real);
        assert p0 * q2 as real - p0 * q1 as real == p0 * (q2 - q1) as real;
      } else if q1 <= v {
        FirstLevel(levels, q1);
        PastFirstLevel(levels, q2);
        CostOfNone(rest);
        CostSlope(rest, p, 0, q2 - v);
        MulMono(p0, p, (v - q1) as real);
        assert p0 * v as real - p0 * q1 as real == p0 * (v - q1) as real;
        assert p * (q2 - q1) as real == p * (v - q1) as real + p * (q2 - v) as real;
      } else {
        PastFirstLevel(levels, q1);
        PastFirstLevel(levels, q2);
        CostSlope(rest, p, q1 - v, q2 - v);
      }
    }
  }

  lemma CostOfNone(levels: Levels)
    ensures Cost(levels, 0) == 0.0
  {
  }

  lemma {:induction false} AverageFalls(levels: Levels, q1: nat, q2: nat)
    requires Falling(levels) && q1 <= q2 <= Depth(levels)
    ensures Cost(levels, q2) * q1 as real <= Cost(levels, q1) * q2 as real
    decreases levels
  {
    hide Cost;
    if q1 == q2 || q1 == 0 {
      CostOfNone(levels);
    } else {
      var v, p0, rest := levels[0].volume, levels[0].price, levels[1..];
      if q1 <= v {
        FirstLevel(levels, q1);
        CostOfNone(levels);
        CostSlope(levels, p0, 0, q2);
        FirstLevelDearest(p0, q1 as real, q2 as real, Cost(levels, q1), Cost(levels, q2));
      } else {
        PastFirstLevel(levels, q1);
        PastFirstLevel(levels, q2);
        AverageFalls(rest, q1 - v, q2 - v);
        CostSlope(rest, p0, q1 - v, q2 - v);
        Mix(p0, v as real, q1 as real, q2 as real, Cost(rest, q1 - v), Cost(rest, q2 - v));
      }
    }
  }

  lemma FirstLevelDearest(p: real, q1: real, q2: real, c1: real, c2: real)
    requires q1 >= 0.0 && c1 == p * q1 && c2 <= p * q2
    ensures c2 * q1 <= c1 * q2
  {
    MulMono(c2, p * q2, q1);
    Associate(p, q2, q1);
    Associate(p, q1, q2);
  }

  lemma Mix(p: real, v: real, q1: real, q2: real, c1: real, c2: real)
    requires v >= 0.0 && c2 * (q1 - v) <= c1 * (q2 - v) && c2 - c1 <= p * (q2 - q1)
    ensures (p * v + c2) * q1 <= (p * v + c1) * q2
  {
    MulMono(c2 - c1, p * (q2 - q1), v);
    Distribute(c2, c1, v);
    Distribute(q2, q1, p);
    Distribute(p * q2, p * q1, v);
    MixedProducts(p, v, q1, c2);
    MixedProducts(p, v, q2, c1);
  }

  lemma MixedProducts(p: real, v: real, q: real, c: real)
    ensures (p * v + c) * q == p * q * v + c * q && c * q == c * (q - v) + c * v
  {
    Distribute(p * v, -c, q);
    Associate(p, v, q);
    Associate(p, q, v);
    Distribute(q, v, c);
  }

  // ---- the ask side is the bid side of the negated book

  function Negated(levels: Levels): (n: Levels)
    ensures |n| == |levels| && forall i :: 0 <= i < |n| ==> n[i] == Level(-levels[i].price, levels[i].volume)
  {
    seq(|levels|, i requires 0 <= i < |levels| => Level(-levels[i].price, levels[i].volume))
  }

  lemma {:induction false} NegatedCost(levels: Levels, q: nat)
    ensures Depth(Negated(levels)) == Depth(levels) && Cost(Negated(levels), q) == -Cost(levels, q)
    decreases levels
  {
    if levels != [] {
      assert Negated(levels)[1..] == Negated(levels[1..]);
      NegatedCost(levels[1..], if q > levels[0].volume then q - levels[0].volume else 0);
    }
  }

  lemma QuoteOrder(c1: Decimal, q1: nat, c2: Decimal, q2: nat, scale: int)
    requires q1 > 0 && q2 > 0 && scale > 0 && c2 * q1 as real <= c1 * q2 as real
    ensures Quote(c2, q2, Up, scale) <= Quote(c1, q1, Up, scale)
    ensures Quote(c2, q2, Down, scale) <= Quote(c1, q1, Down, scale)
  {
    var a1, a2 := Average(c1, q1), Average(c2, q2);
    assert a2 <= a1 by {
      assert a1 * q1 as real == c1 && a2 * q2 as real == c2;
      CrossMultiplied(a1, a2, q1 as real, q2 as real);
    }
    assert Ceil(a2) <= Ceil(a1) && a2.Floor <= a1.Floor;
    UnitsMono(Ceil(a2), Ceil(a1), scale);
    UnitsMono(a2.Floor, a1.Floor, scale);
  }

  lemma CrossMultiplied(a1: real, a2: real, q1: real, q2: real)
    requires q1 > 0.0 && q2 > 0.0 && a2 * q2 * q1 <= a1 * q1 * q2
    ensures a2 <= a1
  {
    assert q1 * q2 > 0.0;
    assert a2 * q2 * q1 == a2 * (q1 * q2) && a1 * q1 * q2 == a1 * (q1 * q2);
    Cancel(a2, a1, q1 * q2);
  }

  lemma UnitsMono(i: int, j: int, scale: int)
    requires i <= j && scale > 0
    ensures Units(i, scale) <= Units(j, scale)
  {
    UnitsScaled(i, scale);
    UnitsScaled(j, scale);
    Cancel(Units(i, scale), Units(j, scale), scale as real);
  }

  /** Among the quantities one update fills, bid quotes never rise with the quantity. */
  lemma BidQuotesFall(levels: Levels, q1: nat, q2: nat, scale: int)
    requires Falling(levels) && 0 < q1 <= q2 <= Depth(levels) && scale > 0
    ensures Quote(Cost(levels, q2), q2, Up, scale) <= Quote(Cost(levels, q1), q1, Up, scale)
  {
    hide Cost, Quote;
    AverageFalls(levels, q1, q2);
    QuoteOrder(Cost(levels, q1), q1, Cost(levels, q2), q2, scale);
  }

  /** Ask quotes never fall. */
  lemma AskQuotesRise(levels: Levels, q1: nat, q2: nat, scale: int)
    requires Rising(levels) && 0 < q1 <= q2 <= Depth(levels) && scale > 0
    ensures Quote(Cost(levels, q1), q1, Down, scale) <= Quote(Cost(levels, q2), q2, Down, scale)
  {
    hide Cost, Quote;
    var n := Negated(levels);
    NegatedCost(levels, q1);
    NegatedCost(levels, q2);
    AverageFalls(n, q1, q2);
    Distribute(Cost(levels, q1), 0.0, q2 as real);
    Distribute(Cost(levels, q2), 0.0, q1 as real);
    QuoteOrder(Cost(levels, q2), q2, Cost(levels, q1), q1, scale);
  }

  // ---- an uncrossed book gives uncrossed quotes

  predicate Uncrossed(bids: Levels, asks: Levels) {
    Falling(bids) && Rising(asks) && (bids != [] && asks != [] ==> bids[0].price <= asks[0].price)
  }

  predicate WholeTicks(levels: Levels) {
    forall i :: 0 <= i < |levels| ==> Whole(levels[i].price, 1)
  }

  lemma AverageAtMost(levels: Levels, p: int, q: nat)
    requires AtMost(levels, p as real) && 0 < q <= Depth(levels)
    ensures Ceil(Average(Cost(levels, q), q)) <= p
  {
    hide Cost, AtMost, Depth, Ceil;
    CostOfNone(levels);
    CostSlope(levels, p as real, 0, q);
    CeilAtMost(Cost(levels, q), q, p);
  }

  lemma CeilAtMost(c: Decimal, q: nat, p: int)
    requires q > 0 && c <= p as real * q as real
    ensures Ceil(Average(c, q)) <= p
  {
    var a := Average(c, q);
    assert a * q as real == c;
    Cancel(a, p as real, q as real);
  }

  lemma FloorOfNegated(c: Decimal, q: nat)
    requires q > 0
    ensures Ceil(Average(-c, q)) == -(Average(c, q).Floor)
  {
    assert -Average(-c, q) == Average(c, q);
  }

  /** Every bid quote is at most every ask quote, for all quantities the two sides can fill. */
  ghost predicate AllUncrossed(bids: Levels, asks: Levels, scale: int)
    requires scale > 0
  {
    forall q1: nat, q2: nat :: 0 < q1 <= Depth(bids) && 0 < q2 <= Depth(asks) ==>
      Quote(Cost(bids, q1), q1, Up, scale) <= Quote(Cost(asks, q2), q2, Down, scale)
  }

  /** If the best prices are a whole tick apart, rounded outwards, no two quotes cross. */
  lemma RoundedBestPrices(bids: Levels, asks: Levels, q1: nat, q2: nat, scale: int)
    requires Falling(bids) && Rising(asks) && scale > 0
    requires 0 < q1 <= Depth(bids) && 0 < q2 <= Depth(asks) && Ceil(bids[0].price) <= asks[0].price.Floor
    ensures Quote(Cost(bids, q1), q1, Up, scale) <= Quote(Cost(asks, q2), q2, Down, scale)
  {
    hide Cost, Average, Units;
    var b, a := Ceil(bids[0].price), asks[0].price.Floor;
    AverageAtMost(bids, b, q1);
    NegatedCost(asks, q2);
    AverageAtMost(Negated(asks), -a, q2);
    FloorOfNegated(Cost(asks, q2), q2);
    UnitsMono(Ceil(Average(Cost(bids, q1), q1)), Average(Cost(asks, q2), q2).Floor, scale);
  }

  lemma OneUnit(levels: Levels, r: Rounding, scale: int)
    requires levels != [] && levels[0].volume > 0 && scale > 0
    ensures Quote(Cost(levels, 1), 1, r, scale)
         == Units(if r == Up then Ceil(levels[0].price) else levels[0].price.Floor, scale)
    ensures Depth(levels) >= 1
  {
    FirstLevel(levels, 1);
  }

  lemma UnitsReflect(i: int, j: int, scale: int)
    requires scale > 0 && Units(i, scale) <= Units(j, scale)
    ensures i <= j
  {
    UnitsScaled(i, scale);
    UnitsScaled(j, scale);
    MulMono(Units(i, scale), Units(j, scale), scale as real);
  }

  /** All quotes are uncrossed exactly when the best bid, rounded up, is at most the best ask, rounded down. */
  lemma UncrossedIff(bids: Levels, asks: Levels, scale: int)
    requires Falling(bids) && Rising(asks) && scale > 0
    requires bids != [] && bids[0].volume > 0 && asks != [] && asks[0].volume > 0
    ensures AllUncrossed(bids, asks, scale) <==> Ceil(bids[0].price) <= asks[0].price.Floor
  {
    hide Cost, Quote, Falling, Rising, Ceil;
    if Ceil(bids[0].price) <= asks[0].price.Floor {
      forall q1: nat, q2: nat | 0 < q1 <= Depth(bids) && 0 < q2 <= Depth(asks)
        ensures Quote(Cost(bids, q1), q1, Up, scale) <= Quote(Cost(asks, q2), q2, Down, scale)
      {
        RoundedBestPrices(bids, asks, q1, q2, scale);
      }
    } else if AllUncrossed(bids, asks, scale) {
      OneUnit(bids, Up, scale);
      OneUnit(asks, Down, scale);
      UnitsReflect(Ceil(bids[0].price), asks[0].price.Floor, scale);
    }
  }

  lemma WholeTick(p: Decimal)
    requires Whole(p, 1)
    ensures Ceil(p) as real == p && p.Floor as real == p
  {
    var k := WholeCount(p, 1);
    FloorIs(p, k);
    FloorIs(-p, -k);
  }

  /** In particular on an uncrossed book in whole ticks, whatever the quantities. */
  lemma QuotesUncrossed(bids: Levels, asks: Levels, q1: nat, q2: nat, scale: int)
    requires Uncrossed(bids, asks) && WholeTicks(bids) && WholeTicks(asks) && scale > 0
    requires 0 < q1 <= Depth(bids) && 0 < q2 <= Depth(asks)
    ensures Quote(Cost(bids, q1), q1, Up, scale) <= Quote(Cost(asks, q2), q2, Down, scale)
  {
    hide Cost, Quote, Whole, Ceil;
    WholeTick(bids[0].price);
    WholeTick(asks[0].price);
    RoundedBestPrices(bids, asks, q1, q2, scale);
  }

  /** Between ticks the rounding can cross the quotes of an uncrossed book. */
  lemma HalfTicksCross()
    ensures var bids, asks := [Level(1.2, 10)], [Level(1.4, 10)];
            Uncrossed(bids, asks) && Quote(Cost(bids, 10), 10, Up, 1) > Quote(Cost(asks, 10), 10, Down, 1)
  {
    var bids, asks := [Level(1.2, 10)], [Level(1.4, 10)];
    FirstLevel(bids, 10);
    FirstLevel(asks, 10);
    assert Average(Cost(bids, 10), 10) == 1.2 && Average(Cost(asks, 10), 10) == 1.4;
    FloorIs(-1.2, -2);
    FloorIs(1.4, 1);
  }
}
