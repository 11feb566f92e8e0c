/** The dealer's single-use quotes with a time limit (dealer/src/dealer_engine.rs). */
module GuaranteedQuotes {
  import opened Options
  import opened Decimals
  import opened Money

  /** Microseconds since the epoch; also the id of a quote issued at that time. */
  type Time = int

  const QUOTE_TTL: Time := 5_000_000

  datatype Offer = Offer(uid: int, source: Currency, target: Currency, amount: Money, rate: Rate)
  type Offers = map<Time, Offer>

  /** A message to the dealer, with the rate `get_rate` yields at that moment. */
  datatype Event =
    | QuoteRequest(time: Time, uid: int, source: Currency, target: Currency, amount: Money, current: Option<Rate>)
    | SwapRequest(time: Time, uid: int, source: Currency, target: Currency, amount: Money,
                  quoteId: Option<Time>, current: Option<Rate>)
    | Disconnected(time: Time)

  datatype Reply =
    | Quoted(id: Time, validUntilMillis: int, rate: Rate)
    | Swapped(rate: Rate)
    | Invalid
    | CurrencyNotAvailable
    | InvalidQuoteId
    | Silent

  /** `split_off`: keep the quotes that are not older than the time limit. */
  function Live(offers: Offers, now: Time): Offers {
    map id | id in offers && id >= now - QUOTE_TTL :: offers[id]
  }

  /** `validate_quote`: amounts are compared by value. */
  predicate Fits(o: Offer, e: Event)
    requires e.SwapRequest?
  {
    o.source == e.source && o.target == e.target && o.amount.value == e.amount.value && o.uid == e.uid
  }

  predicate IsLinear(source: Currency, target: Currency) {
    if source == BTC || target == BTC then source == BTC else true
  }

  /** `get_better_rate`: the larger value in the linear direction, the smaller one in the other. */
  function Better(quoted: Rate, current: Option<Rate>, linear: bool): Rate {
    if current.None? then quoted
    else if linear then (if quoted.value > current.value.value then quoted else current.value)
    else (if quoted.value < current.value.value then quoted else current.value)
  }

  function Next(offers: Offers, e: Event): Offers {
    match e
    case QuoteRequest(now, uid, s, t, amount, current) =>
      if current.Some? then offers[now := Offer(uid, s, t, amount, current.value)] else offers
    case SwapRequest(now, uid, s, t, amount, id, current) =>
      if s == t then offers
      else if id.Some? then Live(offers, now) - {id.value}
      else Live(offers, now)
    case Disconnected(_) => map[]
  }

  function Respond(offers: Offers, e: Event): Reply {
    match e
    case QuoteRequest(now, uid, s, t, amount, current) =>
      if current.Some? then Quoted(now, (now + QUOTE_TTL) / 1000, current.value) else CurrencyNotAvailable
    case SwapRequest(now, uid, s, t, amount, id, current) =>
      if s == t then Invalid
      else if id.None? then (if current.Some? then Swapped(current.value) else CurrencyNotAvailable)
      else
        var live := Live(offers, now);
        if id.value in live && Fits(live[id.value], e) then
          Swapped(Better(live[id.value].rate, current, IsLinear(s, t)))
        else InvalidQuoteId
    case Disconnected(_) => Silent
  }

  class Dealer {
    var offers: Offers

    constructor ()
      ensures offers == map[]
    {
      offers := map[];
    }

    /** The quote arms of `process_msg`. */
    method Process(e: Event) returns (r: Reply)
      modifies this
      ensures offers == Next(old(offers), e) && r == Respond(old(offers), e)
    {
      match e
      case QuoteRequest(now, uid, s, t, amount, current) =>
        if current.None? {
          return CurrencyNotAvailable;
        }
        offers := offers[now := Offer(uid, s, t, amount, current.value)];
        r := Quoted(now, (now + QUOTE_TTL) / 1000, current.value);
      case SwapRequest(now, uid, s, t, amount, id, current) =>
        if s == t {
          return Invalid;
        }
        offers := map k | k in offers && k >= now - QUOTE_TTL :: offers[k];
        if id.None? {
          if current.Some? {
            return Swapped(current.value);
          }
          return CurrencyNotAvailable;
        }
        if id.value !in offers {
          assert offers - {id.value} == offers;
          return InvalidQuoteId;
        }
        var offer := offers[id.value];
        offers := offers - {id.value};
        if offer.source != s || offer.target != t || offer.amount.value != amount.value || offer.uid != uid {
          return InvalidQuoteId;
        }
        r := Swapped(Better(offer.rate, current, IsLinear(s, t)));
      case Disconnected(_) =>
        offers := map[];
        r := Silent;
    }
  }

  // ---- runs

  /** The offers before each event of a run that starts with none, on a strictly increasing clock. */
  ghost predicate IsRun(states: seq<Offers>, events: seq<Event>) {
    && |states| == |events| + 1 && states[0] == map[]
    && (forall i :: 0 <= i < |events| ==> states[i + 1] == Next(states[i], events[i]))
    && (forall i, j :: 0 <= i < j < |events| ==> events[i].time < events[j].time)
  }

  /** Event `j` is a swap that used quote `id`. */
  ghost predicate Honours(states: seq<Offers>, events: seq<Event>, j: nat, id: Time)
    requires IsRun(states, events) && j < |events|
  {
    && events[j].SwapRequest? && events[j].quoteId == Some(id) && Respond(states[j], events[j]).Swapped?
  }

  /** Every offer on the books was issued by an earlier quote request. */
  lemma {:induction false} Origin(states: seq<Offers>, events: seq<Event>, n: nat, id: Time) returns (i: nat)
    requires IsRun(states, events) && n <= |events| && id in states[n]
    ensures i < n && events[i].QuoteRequest? && events[i].time == id && events[i].current.Some?
    ensures var e := events[i]; states[n][id] == Offer(e.uid, e.source, e.target, e.amount, e.current.value)
  {
    var e := events[n - 1];
    assert states[n] == Next(states[n - 1], e);
    if e.QuoteRequest? && e.time == id && e.current.Some? {
      i := n - 1;
    } else {
      i := Origin(states, events, n - 1, id);
    }
  }

  /** What honouring a quote means: it was issued before, to the same user, for the same currencies and
      amount, at most the time limit ago, and the rate is the chosen one of the quoted and the current rate. */
  lemma HonouredAsIssued(states: seq<Offers>, events: seq<Event>, j: nat, id: Time) returns (i: nat)
    requires IsRun(states, events) && j < |events| && Honours(states, events, j, id)
    ensures i < j && events[i].QuoteRequest? && events[i].time == id && events[i].current.Some?
    ensures events[i].uid == events[j].uid && events[i].source == events[j].source
    ensures events[i].target == events[j].target
    ensures events[i].amount.value == events[j].amount.value
    ensures 0 < events[j].time - id <= QUOTE_TTL
    ensures Respond(states[i], events[i]) == Quoted(id, (id + QUOTE_TTL) / 1000, events[i].current.value)
    ensures Respond(states[j], events[j])
         == Swapped(Better(events[i].current.value, events[j].current, IsLinear(events[j].source, events[j].target)))
  {
    i := Origin(states, events, j, id);
  }

  /** A used quote is gone for good. */
  lemma {:induction false} GoneForGood(states: seq<Offers>, events: seq<Event>, j: nat, n: nat, id: Time)
    requires IsRun(states, events) && j < n <= |events| && Honours(states, events, j, id)
    ensures id !in states[n]
  {
    var i := HonouredAsIssued(states, events, j, id);
    assert states[n] == Next(states[n - 1], events[n - 1]);
    if n > j + 1 {
      GoneForGood(states, events, j, n - 1, id);
      assert events[i].time < events[n - 1].time;
    }
  }

  /** Each issued quote is honoured at most once. */
  lemma HonouredOnce(states: seq<Offers>, events: seq<Event>, j: nat, k: nat, id: Time)
    requires IsRun(states, events) && j < |events| && k < |events|
    requires Honours(states, events, j, id) && Honours(states, events, k, id)
    ensures j == k
  {
    if j < k {
      GoneForGood(states, events, j, k, id);
    } else if k < j {
      GoneForGood(states, events, k, j, id);
    }
  }

  /** The swap gets at least the quoted rate exactly when it starts from BTC or joins two fiats, or the
      current rate is no worse: from fiat to BTC the worse of the two is chosen. */
  lemma QuotedRateIsKeptIff(quoted: Rate, current: Option<Rate>, source: Currency, target: Currency)
    ensures Better(quoted, current, IsLinear(source, target)).value >= quoted.value
       <==> IsLinear(source, target) || current.None? || current.value.value >= quoted.value
  {
  }

  /** Over whole runs: an honoured quote's rate is kept exactly when the swap does not go from fiat to BTC, or
      the current rate at that moment is missing or no worse. */
  lemma HonouredRateIsKeptIff(states: seq<Offers>, events: seq<Event>, j: nat, id: Time) returns (i: nat)
    requires IsRun(states, events) && j < |events| && Honours(states, events, j, id)
    ensures i < j && events[i].QuoteRequest? && events[i].time == id && events[i].current.Some?
    ensures Respond(states[j], events[j]).rate.value >= events[i].current.value.value
       <==> || events[j].source == BTC || events[j].target != BTC || events[j].current.None?
            || events[j].current.value.value >= events[i].current.value.value
  {
    i := HonouredAsIssued(states, events, j, id);
    QuotedRateIsKeptIff(events[i].current.value, events[j].current, events[j].source, events[j].target);
  }

  /** Over whole runs: a swap that does not go from fiat to BTC never gets less than it was quoted. */
  lemma HonouredRateIsNoWorse(states: seq<Offers>, events: seq<Event>, j: nat, id: Time) returns (i: nat)
    requires IsRun(states, events) && j < |events| && Honours(states, events, j, id)
    requires events[j].source == BTC || events[j].target != BTC
    ensures i < j && events[i].QuoteRequest? && events[i].time == id && events[i].current.Some?
    ensures Respond(states[j], events[j]).rate.value >= events[i].current.value.value
  {
    i := HonouredAsIssued(states, events, j, id);
    QuotedRateIsKeptIff(events[i].current.value, events[j].current, events[j].source, events[j].target);
  }

  /** Over whole runs: the rate of an honoured quote is the quoted or the current one; the larger of the two from
      BTC and between fiats, the smaller from fiat to BTC. */
  lemma HonouredRateIsChosen(states: seq<Offers>, events: seq<Event>, j: nat, id: Time) returns (i: nat)
    requires IsRun(states, events) && j < |events| && Honours(states, events, j, id)
    ensures i < j && events[i].QuoteRequest? && events[i].time == id && events[i].current.Some?
    ensures var quoted, current, rate := events[i].current.value, events[j].current, Respond(states[j], events[j]).rate;
            && (rate == quoted || (current.Some? && rate == current.value))
            && (if events[j].source == BTC || events[j].target != BTC
                then rate.value >= quoted.value && (current.Some? ==> rate.value >= current.value.value)
                else rate.value <= quoted.value && (current.Some? ==> rate.value <= current.value.value))
  {
    i := HonouredAsIssued(states, events, j, id);
  }

  /** A swap without a quote gets the current rate, if there is one. */
  lemma PlainSwapGetsTheCurrentRate(offers: Offers, e: Event)
    requires e.SwapRequest? && e.quoteId.None? && e.source != e.target
    ensures Respond(offers, e) == if e.current.Some? then Swapped(e.current.value) else CurrencyNotAvailable
  {
  }

  /** Requests that cannot be served change no offer: a currency into itself, or one without a rate. Losing the
      exchange drops all offers. */
  lemma Refusals(offers: Offers, e: Event)
    ensures e.SwapRequest? && e.source == e.target ==> Respond(offers, e) == Invalid && Next(offers, e) == offers
    ensures e.QuoteRequest? && e.current.None? ==>
              Respond(offers, e) == CurrencyNotAvailable && Next(offers, e) == offers
    ensures e.Disconnected? ==> Next(offers, e) == map[]
  {
  }

  /** The event leaves quote `id` alone: it neither presents the quote nor drops all quotes. */
  predicate Spares(e: Event, id: Time) {
    !e.Disconnected? && (e.SwapRequest? && e.source != e.target ==> e.quoteId != Some(id))
  }

  /** While nobody presents it, a quote stays on offer for the whole time limit. */
  lemma {:induction false} QuoteStaysOnOffer(states: seq<Offers>, events: seq<Event>, i: nat, n: nat)
    requires IsRun(states, events) && i < n <= |events| && events[i].QuoteRequest? && events[i].current.Some?
    requires forall k :: i < k < n ==> Spares(events[k], events[i].time)
    requires events[n - 1].time <= events[i].time + QUOTE_TTL
    ensures var e := events[i];
            && e.time in states[n] && states[n][e.time] == Offer(e.uid, e.source, e.target, e.amount, e.current.value)
  {
    assert states[n] == Next(states[n - 1], events[n - 1]);
    if i < n - 1 {
      assert events[i].time < events[n - 1].time;
      assert i < n - 2 ==> events[n - 2].time < events[n - 1].time;
      QuoteStaysOnOffer(states, events, i, n - 1);
    }
  }

  /** A quote presented in time by the user it was issued to, for the same currencies and amount, is honoured. */
  lemma FittingQuoteIsHonoured(states: seq<Offers>, events: seq<Event>, i: nat, j: nat)
    requires IsRun(states, events) && i < j < |events|
    requires events[i].QuoteRequest? && events[i].current.Some? && events[j].SwapRequest?
    requires forall k :: i < k < j ==> Spares(events[k], events[i].time)
    requires events[j].quoteId == Some(events[i].time) && events[j].time <= events[i].time + QUOTE_TTL
    requires events[j].uid == events[i].uid && events[j].amount.value == events[i].amount.value
    requires events[j].source == events[i].source != events[i].target == events[j].target
    ensures Honours(states, events, j, events[i].time)
  {
    assert i < j - 1 ==> events[j - 1].time < events[j].time;
    QuoteStaysOnOffer(states, events, i, j);
  }

  /** A quote that is presented is used up, honoured or not; if not, the answer is that it is invalid. */
  lemma PresentedQuoteIsUsedUp(states: seq<Offers>, events: seq<Event>, j: nat, id: Time)
    requires IsRun(states, events) && j < |events| && events[j].SwapRequest?
    requires events[j].quoteId == Some(id) && events[j].source != events[j].target
    ensures id !in states[j + 1] && (Honours(states, events, j, id) || Respond(states[j], events[j]) == InvalidQuoteId)
  {
  }

  /** From fiat to BTC a fallen current rate replaces the quote: a quote, and a millisecond later its swap. */
  lemma FiatToBtcLosesTheQuote()
    ensures var quoted, current, dollar := Rate(USD, BTC, 0.00005), Rate(USD, BTC, 0.00004), Money(1.0, USD);
            var events := [QuoteRequest(1_000, 7, USD, BTC, dollar, Some(quoted)),
                           SwapRequest(2_000, 7, USD, BTC, dollar, Some(1_000), Some(current))];
            var states := [map[], map[1_000 := Offer(7, USD, BTC, dollar, quoted)], map[]];
            && IsRun(states, events) && Honours(states, events, 1, 1_000)
            && Respond(states[0], events[0]) == Quoted(1_000, 5_001, quoted)
            && Respond(states[1], events[1]) == Swapped(current)
  {
    var quoted, current, dollar := Rate(USD, BTC, 0.00005), Rate(USD, BTC, 0.00004), Money(1.0, USD);
    var events := [QuoteRequest(1_000, 7, USD, BTC, dollar, Some(quoted)),
                   SwapRequest(2_000, 7, USD, BTC, dollar, Some(1_000), Some(current))];
    var offers: Offers := map[1_000 := Offer(7, USD, BTC, dollar, quoted)];
    assert Next(map[], events[0]) == offers;
    assert Live(offers, 2_000) == offers;
    assert Next(offers, events[1]) == map[];
  }
}
