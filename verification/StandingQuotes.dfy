/**
 The quotes that stand after an update (dealer/src/dealer_engine.rs): those just refilled from the book, and
 those left over from earlier books, which are never deleted.
 */
module StandingQuotes {
  import opened Options
  import opened Decimals
  import opened OrderBook
  import opened OrderBookReplica

  /** No bid quote is above an ask quote. */
  predicate Ordered(bids: Quotes, asks: Quotes) {
    forall q, k :: q in bids && k in asks ==> bids[q] <= asks[k]
  }

  /** The smallest quantity that is quoted. */
  const LEAST: nat := 10

  /** An update from these levels quotes the quantity anew. */
  predicate Refilled(levels: Levels, q: nat) {
    q in QUANTITIES && q <= Depth(levels)
  }

  /** The quote stays as it was. */
  predicate LeftOver(quotes: Quotes, levels: Levels, q: nat) {
    q in quotes && !Refilled(levels, q)
  }

  function Fresh(levels: Levels, q: nat, r: Rounding, scale: int): Decimal
    requires q > 0 && scale > 0
  {
    Quote(Cost(levels, q), q, r, scale)
  }

  lemma Quantities(q: nat)
    requires q in QUANTITIES
    ensures q >= LEAST
  {
  }

  lemma AfterUpdate(before: Quotes, after: Quotes, levels: Levels, r: Rounding, scale: int)
    requires scale > 0 && Requoted(before, after, levels, r, scale, |QUANTITIES|)
    ensures forall q: nat :: q in after <==> LeftOver(before, levels, q) || Refilled(levels, q)
    ensures forall q: nat :: LeftOver(before, levels, q) ==> after[q] == before[q]
    ensures forall q: nat :: Refilled(levels, q) ==> q >= LEAST && after[q] == Fresh(levels, q, r, scale)
  {
    hide Quote, Cost, Depth;
    assert QUANTITIES[..|QUANTITIES|] == QUANTITIES;
    forall q: nat | Refilled(levels, q)
      ensures q >= LEAST
    {
      Quantities(q);
    }
  }

  /** No quote that is left over crosses another that is left over, or the best of the refilled ones. */
  ghost predicate LeftoversFit(bids: Quotes, asks: Quotes, bidLevels: Levels, askLevels: Levels, scale: int)
    requires scale > 0
  {
    && (forall q, k :: LeftOver(bids, bidLevels, q) && LeftOver(asks, askLevels, k) ==> bids[q] <= asks[k])
    && (LEAST <= Depth(askLevels) ==>
          forall q :: LeftOver(bids, bidLevels, q) ==> bids[q] <= Fresh(askLevels, LEAST, Down, scale))
    && (LEAST <= Depth(bidLevels) ==>
          forall k :: LeftOver(asks, askLevels, k) ==> Fresh(bidLevels, LEAST, Up, scale) <= asks[k])
  }

  /** The best of the refilled quotes do not cross. */
  predicate FreshFit(bidLevels: Levels, askLevels: Levels, scale: int)
    requires scale > 0
  {
    LEAST <= Depth(bidLevels) && LEAST <= Depth(askLevels) ==>
      Fresh(bidLevels, LEAST, Up, scale) <= Fresh(askLevels, LEAST, Down, scale)
  }

  lemma FreshFalls(bidLevels: Levels, q: nat, scale: int)
    requires Falling(bidLevels) && LEAST <= q <= Depth(bidLevels) && scale > 0
    ensures Fresh(bidLevels, q, Up, scale) <= Fresh(bidLevels, LEAST, Up, scale)
  {
    hide Quote, Cost, Depth, Falling;
    BidQuotesFall(bidLevels, LEAST, q, scale);
  }

  lemma FreshRises(askLevels: Levels, q: nat, scale: int)
    requires Rising(askLevels) && LEAST <= q <= Depth(askLevels) && scale > 0
    ensures Fresh(askLevels, LEAST, Down, scale) <= Fresh(askLevels, q, Down, scale)
  {
    hide Quote, Cost, Depth, Rising;
    AskQuotesRise(askLevels, LEAST, q, scale);
  }

  lemma LeastIsRefilled(levels: Levels)
    requires LEAST <= Depth(levels)
    ensures Refilled(levels, LEAST)
  {
    assert QUANTITIES[0] == LEAST;
  }

  /** After an update from any sorted book the quotes are ordered exactly when the refilled quotes for the
      smallest quantity do not cross and no left-over quote crosses. */
  lemma QuotesAreOrderedIff(bids0: Quotes, bids: Quotes, asks0: Quotes, asks: Quotes,
                            bidLevels: Levels, askLevels: Levels, scale: int)
    requires scale > 0 && Falling(bidLevels) && Rising(askLevels)
    requires Requoted(bids0, bids, bidLevels, Up, scale, |QUANTITIES|)
    requires Requoted(asks0, asks, askLevels, Down, scale, |QUANTITIES|)
    ensures Ordered(bids, asks)
       <==> LeftoversFit(bids0, asks0, bidLevels, askLevels, scale) && FreshFit(bidLevels, askLevels, scale)
  {
    hide Requoted, Quote, Cost, Depth, Falling, Rising, Fresh, LeftOver, Refilled;
    AfterUpdate(bids0, bids, bidLevels, Up, scale);
    AfterUpdate(asks0, asks, askLevels, Down, scale);
    if LEAST <= Depth(bidLevels) {
      LeastIsRefilled(bidLevels);
    }
    if LEAST <= Depth(askLevels) {
      LeastIsRefilled(askLevels);
    }
    if LeftoversFit(bids0, asks0, bidLevels, askLevels, scale) && FreshFit(bidLevels, askLevels, scale) {
      forall q, k | q in bids && k in asks
        ensures bids[q] <= asks[k]
      {
        if Refilled(bidLevels, q) {
          RefilledDepth(bidLevels, q);
          FreshFalls(bidLevels, q, scale);
        }
        if Refilled(askLevels, k) {
          RefilledDepth(askLevels, k);
          FreshRises(askLevels, k, scale);
        }
      }
    }
  }

  lemma RefilledDepth(levels: Levels, q: nat)
    requires Refilled(levels, q)
    ensures q <= Depth(levels)
  {
  }

  /** On an uncrossed book in whole ticks only the quotes left over matter. */
  lemma UncrossedQuotesAreOrderedIff(bids0: Quotes, bids: Quotes, asks0: Quotes, asks: Quotes, b: Book, scale: int)
    requires scale > 0 && UncrossedBook(b) && WholeTickPrices(b.bids) && WholeTickPrices(b.asks)
    requires Requoted(bids0, bids, Descending(b.bids), Up, scale, |QUANTITIES|)
    requires Requoted(asks0, asks, Ascending(b.asks), Down, scale, |QUANTITIES|)
    ensures Ordered(bids, asks) <==> LeftoversFit(bids0, asks0, Descending(b.bids), Ascending(b.asks), scale)
  {
    hide Requoted, Quote, Cost, Depth, Descending, Ascending, LeftoversFit;
    BookInOrder(b);
    var bidLevels, askLevels := Descending(b.bids), Ascending(b.asks);
    QuotesAreOrderedIff(bids0, bids, asks0, asks, bidLevels, askLevels, scale);
    if LEAST <= Depth(bidLevels) && LEAST <= Depth(askLevels) {
      QuotesUncrossed(bidLevels, askLevels, LEAST, LEAST, scale);
    }
  }

  // ---- deep books

  /** Uncrossed, in whole positive ticks, and deep enough for every quantity. */
  ghost predicate Deep(b: Book) {
    && UncrossedBook(b) && WholeTickPrices(b.bids) && WholeTickPrices(b.asks)
    && (forall p :: p in b.bids || p in b.asks ==> p > 0.0)
    && (forall q :: q in QUANTITIES ==> q <= Depth(Descending(b.bids)) && q <= Depth(Ascending(b.asks)))
  }

  predicate AtLeastOne(levels: Levels) {
    forall i :: 0 <= i < |levels| ==> levels[i].price >= 1.0
  }

  lemma FreshIsPositive(levels: Levels, q: nat, r: Rounding, scale: int)
    requires AtLeastOne(levels) && 0 < q <= Depth(levels) && scale > 0
    ensures Fresh(levels, q, r, scale) > 0.0
  {
    hide Cost, Depth, Average, Units;
    NegatedCost(levels, q);
    AverageAtMost(Negated(levels), -1, q);
    FloorOfNegated(Cost(levels, q), q);
    var avg := Average(Cost(levels, q), q);
    PositiveUnits(avg.Floor, scale);
    PositiveUnits(Ceil(avg), scale);
  }

  lemma PositiveUnits(k: int, scale: int)
    requires scale > 0
    ensures k >= 1 ==> Units(k, scale) > 0.0
  {
    UnitsScaled(k, scale);
    if k >= 1 && Units(k, scale) <= 0.0 {
      MulMono(Units(k, scale), 0.0, scale as real);
    }
  }

  lemma WholePositive(p: Decimal)
    requires Whole(p, 1) && p > 0.0
    ensures p >= 1.0
  {
    WholeTick(p);
  }

  lemma PricesAtLeastOne(b: Book)
    requires Deep(b)
    ensures AtLeastOne(Descending(b.bids)) && AtLeastOne(Ascending(b.asks))
  {
    hide Descending, Ascending, Whole, Depth;
    DescendingIsSorted(b.bids);
    AscendingIsSorted(b.asks);
    forall p | p in b.bids || p in b.asks
      ensures p >= 1.0
    {
      WholePositive(p);
    }
    var down, up := Descending(b.bids), Ascending(b.asks);
    assert forall i :: 0 <= i < |down| ==> down[i] in down;
    assert forall i :: 0 <= i < |up| ==> up[i] in up;
  }

  /** A deep book leaves positive, ordered quotes behind, whatever quotes for these quantities were there before. */
  lemma DeepBookQuotesAreOrdered(bids0: Quotes, bids: Quotes, asks0: Quotes, asks: Quotes, b: Book, scale: int)
    requires scale > 0 && Deep(b)
    requires (forall q :: q in bids0 ==> q in QUANTITIES) && (forall q :: q in asks0 ==> q in QUANTITIES)
    requires Requoted(bids0, bids, Descending(b.bids), Up, scale, |QUANTITIES|)
    requires Requoted(asks0, asks, Ascending(b.asks), Down, scale, |QUANTITIES|)
    ensures Ordered(bids, asks)
    ensures (forall q :: q in bids ==> bids[q] > 0.0) && (forall q :: q in asks ==> asks[q] > 0.0)
  {
    hide Requoted, Depth, Descending, Ascending, Fresh, Ordered, Quote, Cost;
    var down, up := Descending(b.bids), Ascending(b.asks);
    UncrossedQuotesAreOrderedIff(bids0, bids, asks0, asks, b, scale);
    AfterUpdate(bids0, bids, down, Up, scale);
    AfterUpdate(asks0, asks, up, Down, scale);
    PricesAtLeastOne(b);
    forall q | q in bids
      ensures bids[q] > 0.0
    {
      FreshIsPositive(down, q, Up, scale);
    }
    forall q | q in asks
      ensures asks[q] > 0.0
    {
      FreshIsPositive(up, q, Down, scale);
    }
  }

  // ---- a shallow book

  lemma OneLevel(p: Decimal, v: nat)
    ensures Ascending(map[p := v]) == [Level(p, v)] == Descending(map[p := v])
  {
    var side: Side := map[p := v];
    AscendingFrom(side, p);
    assert side - {p} == map[];
  }

  lemma OneLevelQuotes()
    ensures Fresh([Level(50.0, 100)], 100, Up, 1) == 50.0
    ensures Fresh([Level(10.0, 10)], 10, Down, 1) == 10.0
  {
    FirstLevel([Level(50.0, 100)], 100);
    FirstLevel([Level(10.0, 10)], 10);
    hide Cost;
    assert Cost([Level(50.0, 100)], 100) == 5000.0;
    assert Cost([Level(10.0, 10)], 10) == 100.0;
  }

  lemma StaleBid(bids1: Quotes, bids2: Quotes, asks1: Quotes, asks2: Quotes)
    requires Requoted(map[], bids1, [Level(50.0, 100)], Up, 1, |QUANTITIES|)
    requires Requoted(bids1, bids2, [Level(9.0, 10)], Up, 1, |QUANTITIES|)
    requires Requoted(asks1, asks2, [Level(10.0, 10)], Down, 1, |QUANTITIES|)
    ensures 100 in bids2 && bids2[100] == 50.0 && 10 in asks2 && asks2[10] == 10.0 && !Ordered(bids2, asks2)
  {
    OneLevelRefills(50.0, 100, 100);
    OneLevelRefills(9.0, 10, 100);
    OneLevelRefills(10.0, 10, 10);
    hide Requoted, Fresh, Refilled, QUANTITIES;
    AfterUpdate(map[], bids1, [Level(50.0, 100)], Up, 1);
    AfterUpdate(bids1, bids2, [Level(9.0, 10)], Up, 1);
    AfterUpdate(asks1, asks2, [Level(10.0, 10)], Down, 1);
    OneLevelQuotes();
    assert LeftOver(bids1, [Level(9.0, 10)], 100);
  }

  lemma OneLevelRefills(p: Decimal, v: nat, q: nat)
    requires q == 10 || q == 100
    ensures Refilled([Level(p, v)], q) <==> q <= v
  {
    assert QUANTITIES[0] == 10 && QUANTITIES[1] == 100;
    assert Depth([Level(p, v)]) == v;
  }

  /** Two updates from empty quotes, both of uncrossed books in whole ticks: the bid quote for 100 is left over
      from the first and crosses the ask quote for 10 from the second. */
  method StaleQuotesCanCross() returns (f: Feed)
    ensures f.book.Some? && UncrossedBook(f.book.value)
    ensures WholeTickPrices(f.book.value.bids) && WholeTickPrices(f.book.value.asks)
    ensures !Ordered(f.desk.bids, f.desk.asks)
  {
    hide Requoted, Ascending, Descending, Ordered;
    var desk := new Desk();
    f := new Feed(desk);
    var panicked := f.Process(Snapshot(Book(map[50.0 := 100], map[])), Some(0));
    ghost var bids1, asks1 := desk.bids, desk.asks;
    panicked := f.Process(Snapshot(Book(map[9.0 := 10], map[10.0 := 10])), Some(0));
    OneLevel(50.0, 100);
    OneLevel(9.0, 10);
    OneLevel(10.0, 10);
    StaleBid(bids1, desk.bids, asks1, desk.asks);
    WholeBy(9.0, 1, 9);
    WholeBy(10.0, 1, 10);
  }
}
