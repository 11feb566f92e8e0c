/** The scheduler of recurring purchases (bank/src/dca.rs). Times are in milliseconds. */
module Dca {

  type Time = nat

  datatype Interval = Interval(name: string, next: Time, duration: Time)

  /** The index of the aligned period [k * d, (k + 1) * d) that holds an instant. */
  function Period(x: Time, d: Time): nat
    requires d > 0
  {
    x / d
  }

  /** `get_next_timestamp`: the start of the period after the one the clock shows. */
  function NextStamp(clock: Time, d: Time): (next: Time)
    requires d > 0
    ensures next > clock && next <= clock + d && next % d == 0
  {
    DivisionBounds(clock, d);
    MultipleRemainder(clock / d + 1, d);
    (clock / d + 1) * d
  }

  lemma DivisionBounds(x: int, d: int)
    requires d > 0
    ensures x / d * d <= x < (x / d + 1) * d && (x / d + 1) * d <= x + d
  {
  }

  lemma MultipleRemainder(k: int, d: int)
    requires d > 0
    ensures k * d % d == 0 && k * d / d == k
  {
    var q := k * d / d;
    if q < k {
      Monotone(q + 1, k, d);
    } else if q > k {
      Monotone(k + 1, q, d);
    }
  }

  lemma Monotone(a: int, b: int, d: int)
    requires d >= 0 && a <= b
    ensures a * d <= b * d
  {
  }

  const DURATIONS: seq<(string, Time)> := [("1d", 86400000), ("1w", 604800000), ("1m", 2419200000)]

  /** A day, a week and four weeks. */
  lemma Durations()
    ensures var day := 24 * 60 * 60 * 1000;
            DURATIONS == [("1d", day), ("1w", 7 * day), ("1m", 28 * day)]
  {
  }

  class Scheduler {
    var intervals: seq<Interval>

    predicate Valid()
      reads this
    {
      forall i :: 0 <= i < |intervals| ==> intervals[i].duration > 0
    }

    /** Start-up: each interval waits for the first boundary after its own clock reading. */
    constructor (clock: seq<Time>)
      requires |clock| == |DURATIONS|
      ensures Valid() && |intervals| == |DURATIONS|
      ensures forall i :: 0 <= i < |intervals| ==>
                intervals[i] == Interval(DURATIONS[i].0, Due(clock[i], [], DURATIONS[i].1), DURATIONS[i].1)
    {
      intervals := seq(|DURATIONS|, i requires 0 <= i < |DURATIONS| =>
        Interval(DURATIONS[i].0, NextStamp(clock[i], DURATIONS[i].1), DURATIONS[i].1));
    }

    /** One turn of the loop: `now` is read once, and the clock again for every interval that fires. */
    method Turn(now: Time, clock: seq<Time>) returns (fired: seq<bool>)
      requires Valid() && |clock| == |intervals|
      modifies this
      ensures Valid() && |fired| == |intervals| == |old(intervals)|
      ensures forall i :: 0 <= i < |fired| ==> fired[i] == (old(intervals)[i].next < now)
      ensures forall i :: 0 <= i < |fired| ==>
                intervals[i] == Polled(old(intervals)[i], Poll(now, clock[i]))
    {
      fired := [];
      for n := 0 to |intervals|
        invariant Valid() && |intervals| == |old(intervals)| && |fired| == n
        invariant forall i :: n <= i < |intervals| ==> intervals[i] == old(intervals)[i]
        invariant forall i :: 0 <= i < n ==> fired[i] == (old(intervals)[i].next < now)
        invariant forall i :: 0 <= i < n ==>
                    intervals[i] == Polled(old(intervals)[i], Poll(now, clock[i]))
      {
        var interval := intervals[n];
        var due := interval.next < now;
        if due {
          intervals := intervals[n := interval.(next := NextStamp(clock[n], interval.duration))];
        }
        fired := fired + [due];
      }
    }
  }

  // ---- runs of one interval

  /** The loop's reading and the one taken when it fires. */
  datatype Poll = Poll(now: Time, again: Time)

  function Advanced(next: Time, p: Poll, d: Time): Time
    requires d > 0
  {
    if next < p.now then NextStamp(p.again, d) else next
  }

  function Polled(i: Interval, p: Poll): Interval
    requires i.duration > 0
  {
    i.(next := Advanced(i.next, p, i.duration))
  }

  /** The stamp after a start-up reading and some turns. */
  function Due(start: Time, polls: seq<Poll>, d: Time): Time
    requires d > 0
  {
    if polls == [] then NextStamp(start, d)
    else Advanced(Due(start, polls[..|polls| - 1], d), polls[|polls| - 1], d)
  }

  predicate Fires(start: Time, polls: seq<Poll>, d: Time, i: nat)
    requires d > 0 && i < |polls|
  {
    Due(start, polls[..i], d) < polls[i].now
  }

  ghost predicate Chronological(start: Time, polls: seq<Poll>) {
    && (forall i | 0 <= i < |polls| :: start <= polls[i].now <= polls[i].again)
    && (forall i, j | 0 <= i < j < |polls| :: polls[i].again <= polls[j].now)
  }

  lemma DueAfter(start: Time, polls: seq<Poll>, d: Time, n: nat)
    requires d > 0 && n < |polls|
    ensures Due(start, polls[..n + 1], d) == Advanced(Due(start, polls[..n], d), polls[n], d)
  {
    assert polls[..n + 1][..n] == polls[..n];
  }

  /** The stamp never moves back. */
  lemma {:induction false} DueGrows(start: Time, polls: seq<Poll>, d: Time, i: nat, n: nat)
    requires d > 0 && i <= n <= |polls| && Chronological(start, polls)
    ensures Due(start, polls[..i], d) <= Due(start, polls[..n], d)
    decreases n
  {
    hide Due;
    if i < n {
      DueGrows(start, polls, d, i, n - 1);
      DueAfter(start, polls, d, n - 1);
    }
  }

  lemma FiredBefore(start: Time, polls: seq<Poll>, d: Time, i: nat, n: nat)
    requires d > 0 && i < n <= |polls| && Chronological(start, polls) && Fires(start, polls, d, i)
    ensures Due(start, polls[..n], d) >= NextStamp(polls[i].again, d)
  {
    DueAfter(start, polls, d, i);
    DueGrows(start, polls, d, i + 1, n);
  }

  lemma PeriodOrder(x: Time, y: Time, d: Time)
    requires d > 0
    ensures Period(x, d) < Period(y, d) <==> NextStamp(x, d) <= y
    ensures x <= y ==> Period(x, d) <= Period(y, d)
  {
    hide Period, NextStamp;
    StampIsStart(x, d);
    StampIsStart(y, d);
    if Period(x, d) < Period(y, d) {
      Monotone(Period(x, d) + 1, Period(y, d), d);
    } else {
      Monotone(Period(y, d) + 1, Period(x, d) + 1, d);
    }
  }

  lemma StampIsStart(x: Time, d: Time)
    requires d > 0
    ensures NextStamp(x, d) == (Period(x, d) + 1) * d && Period(x, d) * d <= x < NextStamp(x, d)
  {
    DivisionBounds(x, d);
  }

  /** Two firings fall in different periods, the later one also beyond the period of the earlier one's second
      reading. */
  lemma FiringsAreInDifferentPeriods(start: Time, polls: seq<Poll>, d: Time, i: nat, j: nat)
    requires d > 0 && i < j < |polls| && Chronological(start, polls)
    requires Fires(start, polls, d, i) && Fires(start, polls, d, j)
    ensures Period(polls[i].now, d) <= Period(polls[i].again, d) < Period(polls[j].now, d)
  {
    FiredBefore(start, polls, d, i, j);
    PeriodOrder(polls[i].now, polls[i].again, d);
    PeriodOrder(polls[i].again, polls[j].now, d);
  }

  /** The stamp was set at start-up or by a firing. */
  lemma {:induction false} DueOrigin(start: Time, polls: seq<Poll>, d: Time, n: nat)
    requires d > 0 && n <= |polls|
    ensures Due(start, polls[..n], d) == NextStamp(start, d)
         || exists i | 0 <= i < n && Fires(start, polls, d, i) ::
              Due(start, polls[..n], d) == NextStamp(polls[i].again, d)
    decreases n
  {
    if n > 0 {
      hide Due;
      DueOrigin(start, polls, d, n - 1);
      DueAfter(start, polls, d, n - 1);
      if Fires(start, polls, d, n - 1) {
        assert Due(start, polls[..n], d) == NextStamp(polls[n - 1].again, d);
      }
    }
  }

  /** Polls are closer together than the period. */
  ghost predicate Frequent(polls: seq<Poll>, d: Time) {
    forall i | 0 <= i < |polls| - 1 :: polls[i + 1].now < polls[i].now + d
  }

  /** A firing read the clock again only after the period `k` had begun, though it came before it. */
  ghost predicate Crossed(start: Time, polls: seq<Poll>, d: Time, k: nat)
    requires d > 0
  {
    exists i | 0 <= i < |polls| :: Fires(start, polls, d, i) && Period(polls[i].now, d) < k <= Period(polls[i].again, d)
  }

  /** Poll `i` fires in the period `k`. */
  ghost predicate FiresAt(start: Time, polls: seq<Poll>, d: Time, k: nat, i: nat)
    requires d > 0 && i < |polls|
  {
    Fires(start, polls, d, i) && Period(polls[i].now, d) == k
  }

  ghost predicate FiresIn(start: Time, polls: seq<Poll>, d: Time, k: nat)
    requires d > 0
  {
    exists i | 0 <= i < |polls| :: FiresAt(start, polls, d, k, i)
  }

  /** The last poll of a period that the polls outlast comes after the period's first instant. */
  lemma {:induction false} LastPollOfPeriod(start: Time, polls: seq<Poll>, d: Time, k: nat, n: nat) returns (m: nat)
    requires d > 0 && Frequent(polls, d) && n < |polls|
    requires Period(polls[0].now, d) <= k < Period(polls[n].now, d)
    ensures m < n && Period(polls[m].now, d) == k && polls[m].now > k * d
    decreases n
  {
    hide Period;
    m := n - 1;
    if Period(polls[m].now, d) > k {
      m := LastPollOfPeriod(start, polls, d, k, n - 1);
    } else {
      LeavingPeriod(polls[m].now, polls[n].now, d, k);
    }
  }

  lemma LeavingPeriod(x: Time, y: Time, d: Time, k: nat)
    requires d > 0 && Period(x, d) <= k < Period(y, d) && y < x + d
    ensures Period(x, d) == k && x > k * d
  {
    DivisionBounds(y, d);
    Monotone(k + 1, y / d, d);
    assert y >= k * d + d;
    DivisionBounds(x, d);
    if x / d < k {
      Monotone(x / d + 1, k, d);
    }
  }

  /** On frequent polls, a period after the first boundary that the polls outlast gets exactly one firing,
      unless an earlier firing's second reading strayed into it, and then it gets none. */
  lemma EveryPeriodFiresIff(start: Time, polls: seq<Poll>, d: Time, k: nat, n: nat)
    requires d > 0 && n < |polls| && Chronological(start, polls) && Frequent(polls, d)
    requires Period(start, d) < k && Period(polls[0].now, d) <= k < Period(polls[n].now, d)
    ensures FiresIn(start, polls, d, k) <==> !Crossed(start, polls, d, k)
    ensures forall i, j | 0 <= i < |polls| && 0 <= j < |polls| ::
              FiresAt(start, polls, d, k, i) && FiresAt(start, polls, d, k, j) ==> i == j
  {
    hide Fires, Due, Period;
    forall i, j | 0 <= i < j < |polls| && Fires(start, polls, d, i) && Fires(start, polls, d, j)
      ensures Period(polls[i].now, d) <= Period(polls[i].again, d) < Period(polls[j].now, d)
    {
      FiringsAreInDifferentPeriods(start, polls, d, i, j);
    }
    if !Crossed(start, polls, d, k) {
      UncrossedFires(start, polls, d, k, n);
    }
  }

  lemma UncrossedFires(start: Time, polls: seq<Poll>, d: Time, k: nat, n: nat)
    requires d > 0 && n < |polls| && Chronological(start, polls) && Frequent(polls, d)
    requires Period(start, d) < k && Period(polls[0].now, d) <= k < Period(polls[n].now, d)
    requires !Crossed(start, polls, d, k)
    ensures FiresIn(start, polls, d, k)
  {
    hide Due, Period;
    var m := LastPollOfPeriod(start, polls, d, k, n);
    if Fires(start, polls, d, m) {
      assert FiresAt(start, polls, d, k, m);
    } else {
      DueOrigin(start, polls, d, m);
      StampBefore(start, d, k);
      var i :| 0 <= i < m && Fires(start, polls, d, i) && Due(start, polls[..m], d) == NextStamp(polls[i].again, d);
      StampAfter(polls[i].again, d, k, polls[m].now);
      PeriodOrder(polls[i].now, polls[m].now, d);
      assert !(Period(polls[i].now, d) < k);
      assert FiresAt(start, polls, d, k, i);
    }
  }

  lemma StampBefore(x: Time, d: Time, k: nat)
    requires d > 0 && Period(x, d) < k
    ensures NextStamp(x, d) <= k * d
  {
    Monotone(x / d + 1, k, d);
  }

  lemma StampAfter(x: Time, d: Time, k: nat, y: Time)
    requires d > 0 && k * d < y <= NextStamp(x, d)
    ensures Period(x, d) >= k
  {
    if x / d < k {
      Monotone(x / d + 1, k, d);
    }
  }

  // ---- periods open on the left

  /** Poll `i` fires in the period that runs from just after `k * d` up to `(k + 1) * d`. */
  ghost predicate FiresAfter(start: Time, polls: seq<Poll>, d: Time, k: nat, i: nat)
    requires d > 0 && i < |polls|
  {
    Fires(start, polls, d, i) && k * d < polls[i].now <= k * d + d
  }

  /** A firing read the clock again at or after the boundary `k * d`, though it came no later. */
  ghost predicate Straddled(start: Time, polls: seq<Poll>, d: Time, k: nat)
    requires d > 0
  {
    exists i | 0 <= i < |polls| :: Fires(start, polls, d, i) && polls[i].now <= k * d <= polls[i].again
  }

  lemma StampFrom(x: Time, d: Time, k: nat)
    requires d > 0
    ensures x < k * d <==> NextStamp(x, d) <= k * d
    ensures NextStamp(x, d) > k * d ==> NextStamp(x, d) >= k * d + d
  {
    DivisionBounds(x, d);
    if x / d < k {
      Monotone(x / d + 1, k, d);
    } else {
      Monotone(k + 1, x / d + 1, d);
    }
  }

  /** A firing whose second reading reaches the period keeps every later poll of that period from firing. */
  lemma NoSecondFiring(start: Time, polls: seq<Poll>, d: Time, k: nat, i: nat, j: nat)
    requires d > 0 && i < j < |polls| && Chronological(start, polls)
    requires Fires(start, polls, d, i) && polls[i].again >= k * d
    ensures !FiresAfter(start, polls, d, k, j)
  {
    FiredBefore(start, polls, d, i, j);
    StampFrom(polls[i].again, d, k);
  }

  /** The last poll no later than the end of the period comes after its start. */
  lemma {:induction false} LastPollBy(polls: seq<Poll>, d: Time, e: Time, n: nat) returns (m: nat)
    requires d > 0 && Frequent(polls, d) && n < |polls| && polls[0].now <= e < polls[n].now
    ensures m < n && e - d < polls[m].now <= e
    decreases n
  {
    m := n - 1;
    if polls[m].now > e {
      m := LastPollBy(polls, d, e, n - 1);
    }
  }

  lemma UnstraddledFires(start: Time, polls: seq<Poll>, d: Time, k: nat, n: nat) returns (m: nat)
    requires d > 0 && n < |polls| && Chronological(start, polls) && Frequent(polls, d) && start < k * d
    requires polls[0].now <= k * d + d < polls[n].now && !Straddled(start, polls, d, k)
    ensures m < |polls| && FiresAfter(start, polls, d, k, m)
  {
    m := LastPollBy(polls, d, k * d + d, n);
    if !Fires(start, polls, d, m) {
      DueOrigin(start, polls, d, m);
      StampFrom(start, d, k);
      var i :| 0 <= i < m && Fires(start, polls, d, i) && Due(start, polls[..m], d) == NextStamp(polls[i].again, d);
      StampFrom(polls[i].again, d, k);
      assert !(polls[i].now <= k * d);
      m := i;
    }
  }

  /** On frequent polls, a period open on the left that begins after start-up and that the polls outlast
      gets exactly one firing, unless a firing's two readings lie on both sides of its start or on it,
      and then it gets none. */
  lemma EveryOpenPeriodFiresIff(start: Time, polls: seq<Poll>, d: Time, k: nat, n: nat)
    requires d > 0 && n < |polls| && Chronological(start, polls) && Frequent(polls, d) && start < k * d
    requires polls[0].now <= k * d + d < polls[n].now
    ensures (exists i | 0 <= i < |polls| :: FiresAfter(start, polls, d, k, i)) <==> !Straddled(start, polls, d, k)
    ensures forall i, j | 0 <= i < |polls| && 0 <= j < |polls| ::
              FiresAfter(start, polls, d, k, i) && FiresAfter(start, polls, d, k, j) ==> i == j
  {
    hide Due, Fires;
    forall i, j | 0 <= i < j < |polls| && Fires(start, polls, d, i) && polls[i].again >= k * d
      ensures !FiresAfter(start, polls, d, k, j)
    {
      NoSecondFiring(start, polls, d, k, i, j);
    }
    if !Straddled(start, polls, d, k) {
      var m := UnstraddledFires(start, polls, d, k, n);
    } else {
      var i :| 0 <= i < |polls| && Fires(start, polls, d, i) && polls[i].now <= k * d <= polls[i].again;
      forall j | 0 <= j < |polls|
        ensures !FiresAfter(start, polls, d, k, j)
      {
        assert j < i ==> polls[j].now <= polls[i].now;
      }
    }
  }

  /** A second reading on the boundary costs the next period its firing, although polls come less than a period
      apart. */
  lemma StrayReadingSkipsPeriod()
    ensures var polls := [Poll(22, 30), Poll(31, 31), Poll(40, 40)];
            && Chronological(15, polls) && Frequent(polls, 10) && Crossed(15, polls, 10, 3)
            && !FiresIn(15, polls, 10, 3)
  {
    var polls := [Poll(22, 30), Poll(31, 31), Poll(40, 40)];
    assert Chronological(15, polls) && Frequent(polls, 10);
    assert Fires(15, polls, 10, 0) by {
      assert polls[..0] == [];
    }
    hide Fires, Chronological, Frequent;
    assert Crossed(15, polls, 10, 3);
    EveryPeriodFiresIff(15, polls, 10, 3, 2);
  }

  /** With periods open on the left the claim fails even when both readings of every poll agree: a first poll
      on a boundary fires there and leaves the period after it empty. */
  lemma OpenPeriodsCanBeEmpty()
    ensures var polls := [Poll(20, 20), Poll(25, 25), Poll(31, 31)];
            && Chronological(0, polls) && Frequent(polls, 10)
            && (forall i | 0 <= i < |polls| :: polls[i].now == polls[i].again)
            && Straddled(0, polls, 10, 2) && forall i | 0 <= i < |polls| :: !FiresAfter(0, polls, 10, 2, i)
  {
    var polls := [Poll(20, 20), Poll(25, 25), Poll(31, 31)];
    assert polls[..0] == [];
    assert Fires(0, polls, 10, 0);
    hide Fires;
    EveryOpenPeriodFiresIff(0, polls, 10, 2, 2);
  }
}
