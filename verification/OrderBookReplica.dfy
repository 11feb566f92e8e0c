/** The dealer's replica of an order book and the quotes it leads to (dealer/src/dealer_engine.rs). */
module OrderBookReplica {
  import opened Options
  import opened Decimals
  import opened Sums
  import opened OrderBook

  /** One side of the book: volume by price. */
  type Side = map<Decimal, nat>

  datatype Book = Book(bids: Side, asks: Side)

  // ---- applying updates

  /** A delta sets the volume of its prices, and zero removes the level. */
  ghost function Merged(side: Side, delta: Side): Side {
    map p | p in side.Keys + delta.Keys && (p in delta ==> delta[p] > 0) :: if p in delta then delta[p] else side[p]
  }

  /** The side while `rest` of a delta is still to be applied. */
  ghost predicate MergedSoFar(side: Side, delta: Side, rest: Side, m: Side) {
    && (forall p :: p in m <==> if p in delta && p !in rest then delta[p] > 0 else p in side)
    && (forall p :: p in m ==> m[p] == if p in delta && p !in rest then delta[p] else side[p])
  }

  lemma MergedStep(side: Side, delta: Side, rest: Side, m: Side, p: Decimal)
    requires MergedSoFar(side, delta, rest, m) && p in rest && p in delta
    ensures MergedSoFar(side, delta, rest - {p}, if delta[p] == 0 then m - {p} else m[p := delta[p]])
  {
  }

  lemma MergedAtEnd(side: Side, delta: Side, m: Side)
    requires MergedSoFar(side, delta, map[], m)
    ensures m == Merged(side, delta)
  {
    var n := Merged(side, delta);
    assert forall p :: p in m <==> p in n;
    assert forall p :: p in m ==> m[p] == n[p];
    assert m == n;
  }

  /** One `for_each` over the levels of a delta. */
  method Merge(side: Side, delta: Side) returns (m: Side)
    ensures m == Merged(side, delta)
  {
    hide MergedSoFar, Merged;
    m := side;
    var rest := delta;
    assert MergedSoFar(side, delta, rest, m) by {
      MergedAtStart(side, delta);
    }
    while rest != map[]
      invariant forall p :: p in rest ==> p in delta && rest[p] == delta[p]
      invariant MergedSoFar(side, delta, rest, m)
      decreases |rest|
    {
      ghost var some := SomeKey(rest);
      var p :| p in rest;
      MergedStep(side, delta, rest, m, p);
      m := if rest[p] == 0 then m - {p} else m[p := rest[p]];
      rest := rest - {p};
    }
    MergedAtEnd(side, delta, m);
  }

  lemma MergedAtStart(side: Side, delta: Side)
    ensures MergedSoFar(side, delta, delta, side)
  {
  }

  // ---- the replica follows the exchange

  /** What the exchange sends when a side of its book changes: the new volumes, zero for a level that is gone. */
  ghost function Difference(before: Side, after: Side): Side {
    map p | p in before.Keys + after.Keys && !(p in before && p in after && before[p] == after[p]) ::
      if p in after then after[p] else 0
  }

  /** A replica of the old side becomes the new side, exactly when no level was set to an explicit zero. */
  lemma DeltaCatchesUpIff(before: Side, after: Side)
    ensures Merged(before, Difference(before, after)) == after
       <==> forall p :: p in after && after[p] == 0 ==> p in before && before[p] == 0
  {
    var delta := Difference(before, after);
    var m := Merged(before, delta);
    assert forall p :: p in m ==> p in after && m[p] == after[p];
    if forall p :: p in after && after[p] == 0 ==> p in before && before[p] == 0 {
      forall p | p in after
        ensures p in m
      {
        assert p in delta || before[p] == after[p];
      }
      assert m == after;
    } else {
      var p :| p in after && after[p] == 0 && !(p in before && before[p] == 0);
      assert p in delta && p !in m;
    }
  }

  datatype Update = Snapshot(book: Book) | Delta(bids: Side, asks: Side) | Unsupported

  ghost function Updated(book: Option<Book>, u: Update): Option<Book> {
    match u
    case Snapshot(b) => Some(b)
    case Delta(bids, asks) =>
      if book.None? then None else Some(Book(Merged(book.value.bids, bids), Merged(book.value.asks, asks)))
    case Unsupported => book
  }

  ghost function Replayed(book: Option<Book>, us: seq<Update>): Option<Book> {
    if us == [] then book else Updated(Replayed(book, us[..|us| - 1]), us[|us| - 1])
  }

  ghost predicate NoEmptyLevels(side: Side) {
    forall p :: p in side ==> side[p] > 0
  }

  /** The updates an exchange sends for a history of its book. */
  ghost predicate Reports(books: seq<Book>, us: seq<Update>) {
    && |us| == |books| > 0 && us[0] == Snapshot(books[0])
    && forall i :: 0 < i < |us| ==>
         us[i] == Delta(Difference(books[i - 1].bids, books[i].bids), Difference(books[i - 1].asks, books[i].asks))
  }

  /** Whatever the replica held before, a snapshot and every delta since leave it equal to the exchange's book. */
  lemma {:induction false} ReplicaFollowsExchange(start: Option<Book>, books: seq<Book>, us: seq<Update>)
    requires Reports(books, us)
    requires forall i :: 0 <= i < |books| ==> NoEmptyLevels(books[i].bids) && NoEmptyLevels(books[i].asks)
    ensures Replayed(start, us) == Some(books[|books| - 1])
    decreases |us|
  {
    var n := |us| - 1;
    if n == 0 {
      assert us[..0] == [];
    } else {
      ReplicaFollowsExchange(start, books[..n], us[..n]);
      DeltaCatchesUpIff(books[n - 1].bids, books[n].bids);
      DeltaCatchesUpIff(books[n - 1].asks, books[n].asks);
    }
  }

  /** Until the first snapshot there is no replica: deltas are dropped. */
  lemma {:induction false} NoReplicaBeforeSnapshot(us: seq<Update>)
    requires forall i :: 0 <= i < |us| ==> !us[i].Snapshot?
    ensures Replayed(None, us) == None
  {
    if us != [] {
      NoReplicaBeforeSnapshot(us[..|us| - 1]);
    }
  }

  // ---- iterating a side in price order

  lemma {:induction false} LeastPrice(side: Side) returns (p: Decimal)
    requires side != map[]
    ensures IsLeast(side, p)
    decreases |side|
  {
    var some := SomeKey(side);
    var rest := side - {some};
    assert forall q :: q in side ==> q == some || q in rest;
    p := some;
    if rest != map[] {
      var q := LeastPrice(rest);
      p := if q < some then q else some;
    }
  }

  ghost predicate IsLeast(side: Side, p: Decimal) {
    p in side && forall q :: q in side ==> p <= q
  }

  lemma LeastExists(side: Side)
    requires side != map[]
    ensures exists p :: IsLeast(side, p)
  {
    var p := LeastPrice(side);
  }

  /** The levels in ascending price order, as a sorted map iterates. */
  ghost function Ascending(side: Side): Levels
    decreases |side|
  {
    if side == map[] then []
    else
      LeastExists(side);
      var p :| IsLeast(side, p);
      [Level(p, side[p])] + Ascending(side - {p})
  }

  ghost function Descending(side: Side): Levels {
    Backwards(Ascending(side))
  }

  function Backwards(levels: Levels): (b: Levels)
    ensures |b| == |levels| && forall i :: 0 <= i < |b| ==> b[i] == levels[|levels| - 1 - i]
  {
    seq(|levels|, i requires 0 <= i < |levels| => levels[|levels| - 1 - i])
  }

  lemma {:induction false} AscendingIsSorted(side: Side)
    ensures Rising(Ascending(side)) && |Ascending(side)| == |side|
    ensures forall l :: l in Ascending(side) <==> l.price in side && l.volume == side[l.price]
    decreases |side|
  {
    if side != map[] {
      LeastExists(side);
      var p :| IsLeast(side, p) && Ascending(side) == [Level(p, side[p])] + Ascending(side - {p});
      AscendingIsSorted(side - {p});
      SortedStep(Level(p, side[p]), Ascending(side - {p}));
    }
  }

  lemma SortedStep(l: Level, rest: Levels)
    requires Rising(rest) && forall m :: m in rest ==> l.price <= m.price
    ensures Rising([l] + rest)
  {
    forall i, j | 0 <= i < j < |[l] + rest|
      ensures ([l] + rest)[i].price <= ([l] + rest)[j].price
    {
      assert rest[j - 1] in rest;
    }
  }

  lemma DescendingIsSorted(side: Side)
    ensures Falling(Descending(side)) && |Descending(side)| == |side|
    ensures forall l :: l in Descending(side) <==> l.price in side && l.volume == side[l.price]
  {
    AscendingIsSorted(side);
    var up, down := Ascending(side), Descending(side);
    forall l
      ensures l in down <==> l in up
    {
      if l in up {
        var i :| 0 <= i < |up| && up[i] == l;
        assert down[|up| - 1 - i] == l;
      }
    }
  }

  // ---- quotes from the replica

  predicate WholeTickPrices(side: Side) {
    forall p :: p in side ==> Whole(p, 1)
  }

  /** No bid is above an ask. */
  predicate UncrossedBook(b: Book) {
    forall p, q :: p in b.bids && q in b.asks ==> p <= q
  }

  lemma BookInOrder(b: Book)
    requires UncrossedBook(b) && WholeTickPrices(b.bids) && WholeTickPrices(b.asks)
    ensures Uncrossed(Descending(b.bids), Ascending(b.asks))
    ensures WholeTicks(Descending(b.bids)) && WholeTicks(Ascending(b.asks))
  {
    hide Descending, Ascending, Whole;
    DescendingIsSorted(b.bids);
    AscendingIsSorted(b.asks);
    var down, up := Descending(b.bids), Ascending(b.asks);
    assert forall i :: 0 <= i < |down| ==> down[i] in down;
    assert forall i :: 0 <= i < |up| ==> up[i] in up;
  }

  function Pow10(n: nat): (r: int)
    ensures r > 0
  {
    if n == 0 then 1 else 10 * Pow10(n - 1)
  }

  lemma {:induction false} PowersOfTen(m: nat, n: nat)
    ensures Pow10(m + n) == Pow10(m) * Pow10(n) && Pow10(1) == 10
  {
    if m > 0 {
      PowersOfTen(m - 1, n);
      assert 10 * Pow10(m - 1) * Pow10(n) == 10 * (Pow10(m - 1) * Pow10(n));
    }
  }

  /** A quote with `dp` decimal places is a whole number of ticks, the first not below the average price for bids and
      the last not above it for asks. */
  lemma QuoteInTicks(levels: Levels, q: nat, dp: nat) returns (bid: int, ask: int)
    requires q > 0
    ensures Quote(Cost(levels, q), q, Up, Pow10(dp)) * Pow10(dp) as real == bid as real
    ensures Quote(Cost(levels, q), q, Down, Pow10(dp)) * Pow10(dp) as real == ask as real
    ensures var average := Cost(levels, q) / q as real;
            average <= bid as real < average + 1.0 && average - 1.0 < ask as real <= average
  {
    hide Cost, Pow10, Units;
    var average := Average(Cost(levels, q), q);
    bid, ask := Ceil(average), average.Floor;
    UnitsScaled(bid, Pow10(dp));
    UnitsScaled(ask, Pow10(dp));
  }

  /** One symbol: its replica, and the quotes derived from it. */
  class Feed {
    var book: Option<Book>
    const desk: Desk

    constructor (desk: Desk)
      ensures book == None && this.desk == desk
    {
      book := None;
      this.desk := desk;
    }

    /** `process_orderbook_update`: `dp` is the number of decimal places of a tradable symbol. An unsupported
        update panics. */
    method Process(u: Update, dp: Option<nat>) returns (panicked: bool)
      modifies this`book, desk
      ensures panicked <==> u.Unsupported?
      ensures book == Updated(old(book), u)
      ensures if !panicked && dp.Some? && book.Some? then
                && Requoted(old(desk.bids), desk.bids, Descending(book.value.bids), Up, Pow10(dp.value), |QUANTITIES|)
                && Requoted(old(desk.asks), desk.asks, Ascending(book.value.asks), Down, Pow10(dp.value), |QUANTITIES|)
              else desk.bids == old(desk.bids) && desk.asks == old(desk.asks)
    {
      hide Merged, Requoted, Ascending, Pow10;
      match u {
        case Snapshot(b) =>
          book := Some(b);
        case Delta(bids, asks) =>
          if book.Some? {
            var newBids := Merge(book.value.bids, bids);
            var newAsks := Merge(book.value.asks, asks);
            book := Some(Book(newBids, newAsks));
          }
        case Unsupported =>
          return true;
      }
      panicked := false;
      if dp.Some? && book.Some? {
        var bidLevels := InOrder(book.value.bids);
        var askLevels := InOrder(book.value.asks);
        desk.UpdateQuotes(Backwards(bidLevels), askLevels, Pow10(dp.value));
      }
    }
  }

  /** Walking a sorted map from its least key. */
  method InOrder(side: Side) returns (levels: Levels)
    ensures levels == Ascending(side)
  {
    levels := [];
    var rest := side;
    while rest != map[]
      invariant forall p :: p in rest ==> p in side && rest[p] == side[p]
      invariant levels + Ascending(rest) == Ascending(side)
      decreases |rest|
    {
      LeastExists(rest);
      var p :| p in rest && forall q :: q in rest ==> p <= q;
      AscendingFrom(rest, p);
      levels := levels + [Level(p, rest[p])];
      rest := rest - {p};
    }
  }

  lemma AscendingFrom(side: Side, p: Decimal)
    requires IsLeast(side, p)
    ensures Ascending(side) == [Level(p, side[p])] + Ascending(side - {p})
  {
  }

  /** Quotes filled from one book: bids never rise and asks never fall with the quantity, and no bid is above an ask. */
  lemma QuotesOfBook(b: Book, q1: nat, q2: nat, scale: int)
    requires UncrossedBook(b) && WholeTickPrices(b.bids) && WholeTickPrices(b.asks) && scale > 0 && q1 > 0 && q2 > 0
    ensures var bids, asks := Descending(b.bids), Ascending(b.asks);
            && (q1 <= q2 <= Depth(bids) ==>
                  Quote(Cost(bids, q2), q2, Up, scale) <= Quote(Cost(bids, q1), q1, Up, scale))
            && (q1 <= q2 <= Depth(asks) ==>
                  Quote(Cost(asks, q1), q1, Down, scale) <= Quote(Cost(asks, q2), q2, Down, scale))
            && (q1 <= Depth(bids) && q2 <= Depth(asks) ==>
                  Quote(Cost(bids, q1), q1, Up, scale) <= Quote(Cost(asks, q2), q2, Down, scale))
  {
    hide Descending, Ascending, Quote, Cost, Depth;
    var bids, asks := Descending(b.bids), Ascending(b.asks);
    BookInOrder(b);
    if q1 <= q2 <= Depth(bids) {
      BidQuotesFall(bids, q1, q2, scale);
    }
    if q1 <= q2 <= Depth(asks) {
      AskQuotesRise(asks, q1, q2, scale);
    }
    if q1 <= Depth(bids) && q2 <= Depth(asks) {
      QuotesUncrossed(bids, asks, q1, q2, scale);
    }
  }
}
