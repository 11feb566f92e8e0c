/** The per-user limiter of deposit and of withdrawal requests (bank/src/bank_engine.rs). */
module RateLimiting {
  import opened Options
  import opened Ledger

  type Time = int

  datatype Window = Window(counter: nat, since: Time)

  /** A call reads the clock when it opens an entry, when it asks for the elapsed time and when it starts afresh. */
  datatype Request = Request(user: UserId, entered: Time, asked: Time, restarted: Time)

  datatype Limits = Limits(limit: nat, interval: nat)

  /** A user's entry after a request, and whether the request is let through. */
  function Judge(w: Option<Window>, r: Request, l: Limits): (Window, bool) {
    var entry := if w.Some? then w.value else Window(0, r.entered);
    if r.asked - entry.since < l.interval
    then (Window(entry.counter + 1, entry.since), entry.counter + 1 <= l.limit)
    else (Window(0, r.restarted), true)
  }

  type Windows = map<UserId, Window>

  function Lookup(ws: Windows, u: UserId): Option<Window> {
    if u in ws then Some(ws[u]) else None
  }

  /** A limiter as the engine keeps one for deposits and one for withdrawals. */
  class RateLimiter {
    const limits: Limits
    var windows: Windows

    constructor (limits: Limits)
      ensures this.limits == limits && windows == After([], limits)
    {
      this.limits, windows := limits, map[];
    }

    /** The verdict depends on the user's own entry, and only that entry changes. */
    method Check(r: Request, ghost past: seq<Request>) returns (ok: bool)
      requires windows == After(past, limits)
      modifies this`windows
      ensures windows == After(past + [r], limits) && ok == Admitted(past + [r], limits, |past|)
      ensures Lookup(windows, r.user) == Some(Judge(old(Lookup(windows, r.user)), r, limits).0)
      ensures ok == Judge(old(Lookup(windows, r.user)), r, limits).1
      ensures forall u :: u != r.user ==> Lookup(windows, u) == old(Lookup(windows, u))
    {
      assert (past + [r])[..|past|] == past;
      var entry := if r.user in windows then windows[r.user] else Window(0, r.entered);
      if r.asked - entry.since < limits.interval {
        entry := entry.(counter := entry.counter + 1);
        ok := entry.counter <= limits.limit;
      } else {
        entry := Window(0, r.restarted);
        ok := true;
      }
      windows := windows[r.user := entry];
    }
  }

  // ---- histories

  /** The limiter's entries after a sequence of requests from the start. */
  function After(rs: seq<Request>, l: Limits): Windows {
    if rs == [] then map[]
    else
      var ws, r := After(rs[..|rs| - 1], l), rs[|rs| - 1];
      ws[r.user := Judge(Lookup(ws, r.user), r, l).0]
  }

  /** Request `i` was let through. */
  predicate Admitted(rs: seq<Request>, l: Limits, i: nat)
    requires i < |rs|
  {
    Judge(Lookup(After(rs[..i], l), rs[i].user), rs[i], l).1
  }

  /** How many of a user's requests in the half-open span [t, t + interval) were let through. */
  function Passed(rs: seq<Request>, l: Limits, u: UserId, t: Time): nat {
    if rs == [] then 0
    else
      var past, r := rs[..|rs| - 1], rs[|rs| - 1];
      Passed(past, l, u, t)
      + if r.user == u && t <= r.asked < t + l.interval && Admitted(rs, l, |rs| - 1) then 1 else 0
  }

  /** The indices of the user's requests in the span that were let through. */
  ghost function Through(rs: seq<Request>, l: Limits, u: UserId, t: Time): set<int> {
    set i | 0 <= i < |rs| && rs[i].user == u && t <= rs[i].asked < t + l.interval && Admitted(rs, l, i)
  }

  lemma AdmittedEarlier(rs: seq<Request>, l: Limits, n: nat, i: nat)
    requires i < n <= |rs|
    ensures Admitted(rs[..n], l, i) == Admitted(rs, l, i)
  {
    assert rs[..n][..i] == rs[..i];
  }

  lemma ThroughGrows(rs: seq<Request>, l: Limits, u: UserId, t: Time)
    requires rs != []
    ensures var n := |rs| - 1;
            var last := rs[n].user == u && t <= rs[n].asked < t + l.interval && Admitted(rs, l, n);
            && n !in Through(rs[..n], l, u, t)
            && Through(rs, l, u, t) == Through(rs[..n], l, u, t) + if last then {n} else {}
  {
    hide Admitted;
    var n := |rs| - 1;
    forall i | 0 <= i < n
      ensures Admitted(rs[..n], l, i) == Admitted(rs, l, i)
    {
      AdmittedEarlier(rs, l, n, i);
    }
  }

  lemma {:induction false} PassedCounts(rs: seq<Request>, l: Limits, u: UserId, t: Time)
    ensures Passed(rs, l, u, t) == |Through(rs, l, u, t)|
  {
    if rs != [] {
      hide Admitted, Through;
      ThroughGrows(rs, l, u, t);
      PassedCounts(rs[..|rs| - 1], l, u, t);
    }
  }

  ghost predicate Chronological(rs: seq<Request>) {
    && (forall i | 0 <= i < |rs| :: rs[i].entered <= rs[i].asked <= rs[i].restarted)
    && (forall i, j | 0 <= i < j < |rs| :: rs[i].restarted <= rs[j].entered)
  }

  function Min(a: int, b: int): int {
    if a < b then a else b
  }

  /** What the count can be, by where the user's current window began. */
  predicate Bounded(n: int, w: Option<Window>, l: Limits, t: Time) {
    match w
    case None => n == 0
    case Some(w) =>
      if w.since < t then n <= Min(w.counter, l.limit)
      else if w.since < t + l.interval then n <= l.limit + 1 + Min(w.counter, l.limit)
      else n <= 2 * l.limit + 1
  }

  /** One request keeps the bound. */
  lemma JudgeBounded(n: int, w: Option<Window>, r: Request, l: Limits, t: Time)
    requires Bounded(n, w, l, t) && r.entered <= r.asked <= r.restarted && (w.Some? ==> w.value.since <= r.entered)
    requires r.entered < t ==> n == 0
    ensures var (after, ok) := Judge(w, r, l);
            && Bounded(n + if t <= r.asked < t + l.interval && ok then 1 else 0, Some(after), l, t)
            && after.since <= r.restarted && (r.restarted < t ==> n == 0 && !(t <= r.asked))
  {
  }

  lemma {:induction false} HistoryBounded(rs: seq<Request>, l: Limits, u: UserId, t: Time)
    requires Chronological(rs)
    ensures Bounded(Passed(rs, l, u, t), Lookup(After(rs, l), u), l, t)
    ensures u in After(rs, l) ==> rs != [] && After(rs, l)[u].since <= rs[|rs| - 1].restarted
    ensures rs == [] || rs[|rs| - 1].restarted < t ==> Passed(rs, l, u, t) == 0
  {
    if rs != [] {
      hide Bounded, Judge;
      var n := |rs| - 1;
      HistoryBounded(rs[..n], l, u, t);
      if rs[n].user == u {
        JudgeBounded(Passed(rs[..n], l, u, t), Lookup(After(rs[..n], l), u), rs[n], l, t);
      }
    }
  }

  /** However the others behave, a span as long as the interval lets through at most 2 * limit + 1 requests of a
      user. */
  lemma SpanAdmitsTwiceTheLimit(rs: seq<Request>, l: Limits, u: UserId, t: Time)
    requires Chronological(rs)
    ensures |Through(rs, l, u, t)| <= 2 * l.limit + 1
  {
    HistoryBounded(rs, l, u, t);
    PassedCounts(rs, l, u, t);
  }

  // ---- exactly the limit passes in a window

  /** How many of the requests `b` up to `n` are the user's. */
  function Count(rs: seq<Request>, u: UserId, b: nat, n: nat): nat
    requires b <= n <= |rs|
  {
    if b == n then 0 else Count(rs, u, b, n - 1) + if rs[n - 1].user == u then 1 else 0
  }

  /** Within a window every request of the user is counted, and nothing else changes the user's entry. */
  lemma {:induction false} WindowCounts(rs: seq<Request>, l: Limits, u: UserId, b: nat, n: nat, w: Window)
    requires b <= n <= |rs| && Lookup(After(rs[..b], l), u) == Some(w)
    requires forall k :: b <= k < n && rs[k].user == u ==> rs[k].asked - w.since < l.interval
    ensures Lookup(After(rs[..n], l), u) == Some(Window(w.counter + Count(rs, u, b, n), w.since))
    decreases n
  {
    if b < n {
      WindowCounts(rs, l, u, b, n - 1, w);
      assert rs[..n][..n - 1] == rs[..n - 1];
    }
  }

  /** The user's first request opens a window in which it is the first of `limit` to pass. */
  lemma FirstWindowIsExact(rs: seq<Request>, l: Limits, u: UserId, b: nat, n: nat)
    requires Chronological(rs) && b <= n < |rs| && rs[b].user == u == rs[n].user
    requires (forall i :: 0 <= i < b ==> rs[i].user != u) && rs[n].asked - rs[b].entered < l.interval
    ensures Admitted(rs, l, n) <==> Count(rs, u, b, n + 1) <= l.limit
  {
    NotSeenYet(rs, l, u, b);
    AfterNext(rs, l, b);
    CountOne(rs, u, b);
    AskedInOrder(rs, n);
    if b < n {
      WindowCounts(rs, l, u, b + 1, n, Window(1, rs[b].entered));
      CountSplit(rs, u, b, b + 1, n);
    }
  }

  /** A request that comes an interval or more after its window began passes and opens the next, in which
      `limit` further requests pass. */
  lemma NextWindowIsExact(rs: seq<Request>, l: Limits, u: UserId, b: nat, n: nat, w: Window)
    requires Chronological(rs) && b < n < |rs| && rs[b].user == u == rs[n].user
    requires Lookup(After(rs[..b], l), u) == Some(w) && rs[b].asked - w.since >= l.interval
    requires rs[n].asked - rs[b].restarted < l.interval
    ensures Admitted(rs, l, b) && (Admitted(rs, l, n) <==> Count(rs, u, b + 1, n + 1) <= l.limit)
  {
    AfterNext(rs, l, b);
    AskedInOrder(rs, n);
    WindowCounts(rs, l, u, b + 1, n, Window(0, rs[b].restarted));
  }

  lemma {:induction false} NotSeenYet(rs: seq<Request>, l: Limits, u: UserId, b: nat)
    requires b <= |rs| && forall i :: 0 <= i < b ==> rs[i].user != u
    ensures Lookup(After(rs[..b], l), u) == None
  {
    if b > 0 {
      NotSeenYet(rs, l, u, b - 1);
      assert rs[..b][..b - 1] == rs[..b - 1];
    }
  }

  lemma AfterNext(rs: seq<Request>, l: Limits, b: nat)
    requires b < |rs|
    ensures Lookup(After(rs[..b + 1], l), rs[b].user) == Some(Judge(Lookup(After(rs[..b], l), rs[b].user), rs[b], l).0)
  {
    assert rs[..b + 1][..b] == rs[..b];
  }

  lemma AskedInOrder(rs: seq<Request>, n: nat)
    requires Chronological(rs) && n < |rs|
    ensures forall k :: 0 <= k <= n ==> rs[k].asked <= rs[n].asked
  {
  }

  lemma CountOne(rs: seq<Request>, u: UserId, b: nat)
    requires b < |rs| && rs[b].user == u
    ensures Count(rs, u, b, b + 1) == 1
  {
    assert Count(rs, u, b, b) == 0;
  }

  lemma {:induction false} CountSplit(rs: seq<Request>, u: UserId, b: nat, m: nat, n: nat)
    requires b <= m <= n <= |rs|
    ensures Count(rs, u, b, n) == Count(rs, u, b, m) + Count(rs, u, m, n)
  {
    if m < n {
      CountSplit(rs, u, b, m, n - 1);
    }
  }

  // ---- the bound is attained

  function At(u: UserId, x: Time): Request {
    Request(u, x, x, x)
  }

  /** A history with `n` more requests at one instant. */
  function Burst(rs: seq<Request>, u: UserId, x: Time, n: nat): seq<Request>
    decreases n
  {
    if n == 0 then rs else Burst(rs, u, x, n - 1) + [At(u, x)]
  }

  ghost predicate Until(rs: seq<Request>, x: Time) {
    Chronological(rs) && forall i | 0 <= i < |rs| :: rs[i].restarted <= x
  }

  lemma OneMore(rs: seq<Request>, l: Limits, u: UserId, t: Time, x: Time)
    ensures var (after, ok) := Judge(Lookup(After(rs, l), u), At(u, x), l);
            && Lookup(After(rs + [At(u, x)], l), u) == Some(after)
            && Passed(rs + [At(u, x)], l, u, t) == Passed(rs, l, u, t) + if t <= x < t + l.interval && ok then 1 else 0
    ensures Until(rs, x) ==> Until(rs + [At(u, x)], x)
  {
    assert (rs + [At(u, x)])[..|rs|] == rs;
  }

  /** Requests within the limit and the window are all let through. */
  lemma {:induction false} BurstPasses(rs: seq<Request>, l: Limits, u: UserId, t: Time, w: Window, x: Time, n: nat)
    requires Lookup(After(rs, l), u) == Some(w) && x - w.since < l.interval && w.counter + n <= l.limit
    requires t <= x < t + l.interval && Until(rs, x)
    ensures Lookup(After(Burst(rs, u, x, n), l), u) == Some(Window(w.counter + n, w.since))
    ensures Passed(Burst(rs, u, x, n), l, u, t) == Passed(rs, l, u, t) + n && Until(Burst(rs, u, x, n), x)
    decreases n
  {
    hide After, Passed, Until;
    if n > 0 {
      BurstPasses(rs, l, u, t, w, x, n - 1);
      OneMore(Burst(rs, u, x, n - 1), l, u, t, x);
    }
  }

  /** A full window late in its interval, then the start of the next and another full window. */
  function Bursts(l: Limits, u: UserId): seq<Request> {
    var i := l.interval;
    var full := Burst([At(u, 0)] + [At(u, i)], u, 2 * i - 1, l.limit);
    Burst(full + [At(u, 2 * i)], u, 2 * i, l.limit)
  }

  lemma Later(rs: seq<Request>, x: Time, y: Time)
    requires Until(rs, x) && x <= y
    ensures Until(rs, y) && Chronological(rs)
  {
  }

  lemma StartOfHistory(l: Limits, u: UserId, t: Time)
    ensures Passed([], l, u, t) == 0 && Lookup(After([], l), u) == None && Until([], 0)
    ensures [] + [At(u, 0)] == [At(u, 0)]
  {
  }

  /** The bound cannot be lowered: some history reaches it, for every limit and interval. */
  lemma BoundIsAttained(l: Limits, u: UserId)
    requires l.interval >= 2
    ensures Chronological(Bursts(l, u)) && |Through(Bursts(l, u), l, u, 2 * l.interval - 1)| == 2 * l.limit + 1
  {
    hide After, Passed, Through, Until, Chronological, Burst;
    var i := l.interval;
    var t := 2 * i - 1;
    StartOfHistory(l, u, t);
    OneMore([], l, u, t, 0);
    var first := [At(u, 0)];
    Later(first, 0, i);
    OneMore(first, l, u, t, i);
    var second := first + [At(u, i)];
    Later(second, i, t);
    BurstPasses(second, l, u, t, Window(0, i), t, l.limit);
    var full := Burst(second, u, t, l.limit);
    Later(full, t, 2 * i);
    OneMore(full, l, u, t, 2 * i);
    var third := full + [At(u, 2 * i)];
    BurstPasses(third, l, u, t, Window(0, 2 * i), 2 * i, l.limit);
    Later(Bursts(l, u), 2 * i, 2 * i);
    PassedCounts(Bursts(l, u), l, u, t);
  }
}
