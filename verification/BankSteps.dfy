/**
 What each bank message may do to the books (bank/src/bank_engine.rs), stated on values: the
 entries it posts, the accounts it opens, and the external payments it hands to the node.
 */
module BankSteps {
  import opened Decimals
  import opened Money
  import opened Sums
  import opened Ledger

  // ---- external payments

  /** A payment handed to the lightning node: everything its result is computed from. */
  datatype Launch = Launch(uid: UserId, currency: Currency, rate: Rate, invoice: Money, estimate: Money)

  predicate WholeSats(m: Money) {
    m.currency == BTC && Whole(m.value, SATS_IN_BITCOIN)
  }

  /** BTC is paid at parity, fiat at a rate quoted in BTC; both amounts are whole sats and not negative. */
  predicate ValidLaunch(l: Launch) {
    && WholeSats(l.invoice) && WholeSats(l.estimate) && l.invoice.value >= 0.0 && l.estimate.value >= 0.0
    && (l.currency == BTC || IsFiat(l.currency))
    && if l.currency == BTC then l.rate == Parity(BTC)
       else l.rate.base == l.currency && l.rate.quote == BTC && l.rate.value > 0.0
  }

  /** Worst-case amount in BTC: invoice plus fee estimate. */
  function Total(l: Launch): (m: Money)
    ensures m.currency == BTC && Normal(m)
  {
    FromBtc(l.invoice.value + l.estimate.value)
  }

  /** The same in the payer's currency. */
  function Debit(l: Launch): (m: Money)
    requires ValidLaunch(l)
    ensures m.currency == l.currency && Normal(m)
  {
    Exchange(Total(l), l.rate).money
  }

  // ---- karma

  function Share(total: Decimal, sum: Decimal, karma: Decimal): Decimal
    requires sum != 0.0
  {
    NewMoney(KKP, Product(total / sum, karma)).value
  }

  ghost function Shares(totals: map<UserId, Decimal>, sum: Decimal, karma: Decimal): (s: map<UserId, Decimal>)
    requires totals == map[] || sum != 0.0
    ensures s.Keys == totals.Keys
  {
    map u | u in totals :: Share(totals[u], sum, karma)
  }

  /** Shares exist: the division by the sum of the totals does not panic. */
  ghost predicate Divisible(totals: map<UserId, Decimal>) {
    totals == map[] || Sum(totals) != 0.0
  }

  /** Only positive shares are credited. */
  ghost function Credits(totals: map<UserId, Decimal>, sum: Decimal, karma: Decimal): (s: map<UserId, Decimal>)
    requires totals == map[] || sum != 0.0
    ensures s.Keys == totals.Keys
  {
    map u | u in totals :: Positive(Share(totals[u], sum, karma))
  }

  function Positive(x: Decimal): Decimal {
    if x > 0.0 then x else 0.0
  }

  // ---- messages

  datatype Msg =
    | Deposit(uid: UserId, sats: int)
    | FiatDeposit(uid: UserId, currency: Currency, amount: Money, rate: Rate)
    | DealerDeposit(sats: int, settlement: bool)
    | DealerInvoice(msats: nat, external: bool)
    | Transfer(uid: UserId, to: UserId, currency: Currency, amount: Money)
    | Pay(launch: Launch)
    | Settled(launch: Launch, fee: nat)
    | Failed(launch: Launch)
    | Swap(uid: UserId, source: Currency, target: Currency, amount: Money, rate: Rate)
    | Karma(karma: Decimal, totals: map<UserId, Decimal>)
    | Cli(outbound: Owner, inbound: Owner, currency: Currency, amount: Money)
    | Inquiry

  /** What the services that produce a message guarantee about it. */
  ghost predicate WellFormed(m: Msg) {
    match m
    case FiatDeposit(_, c, amount, r) =>
      IsFiat(c) && amount.currency == BTC && Normal(amount) && Connects(r, BTC, c)
    case Transfer(_, _, c, amount) => amount.currency == c && Normal(amount)
    case Pay(l) => ValidLaunch(l)
    case Settled(l, _) => ValidLaunch(l)
    case Failed(l) => ValidLaunch(l)
    case Swap(_, s, t, amount, r) =>
      s != KKP && t != KKP && amount.currency == s && Normal(amount) && Connects(r, s, t)
    case Cli(_, _, c, amount) => amount.currency == c && Normal(amount)
    case _ => true
  }

  /** External payments handed to the node whose result has not come back. */
  datatype InFlight = InFlight(launches: multiset<Launch>)

  datatype State = State(books: Books, payments: InFlight)

  /** One processed message: `start` is the books after opening accounts, then the entries posted, whether a
      payment left for the node. */
  datatype Action = Action(msg: Msg, start: Books, entries: seq<Entry>, launched: bool)

  /** One leg of double entry. */
  predicate IsLeg(es: seq<Entry>, outbound: Owner, inbound: Owner, c: Currency, amount: Decimal) {
    && |es| == 2 && amount > 0.0
    && es[0] == Entry(outbound, es[0].id, es[0].kind, c, -amount)
    && es[1] == Entry(inbound, es[1].id, es[1].kind, c, amount)
    && (outbound == inbound ==> es[0].id != es[1].id)
  }

  predicate Covered(b: Books, es: seq<Entry>) {
    |es| >= 1 && Fits(b, es[0]) && BalanceOf(b, es[0]) + es[0].delta >= 0.0
  }

  /** The bank's side of every entry is external, the dealer's internal, except for money the dealer moves to or
      from the exchange. */
  predicate Sided(m: Msg, es: seq<Entry>) {
    forall e :: e in es ==>
      && (e.owner == Bank ==> e.kind == External)
      && (e.owner == Dealer ==>
            (e.kind == External <==> (m.DealerDeposit? && e.delta < 0.0) || (m.DealerInvoice? && e.delta > 0.0)))
  }

  /** The entries a message posts when it posts any. */
  ghost predicate Posts(m: Msg, start: Books, es: seq<Entry>)
    requires WellFormed(m)
  {
    Sided(m, es) && PostsLegs(m, start, es)
  }

  ghost predicate PostsLegs(m: Msg, start: Books, es: seq<Entry>)
    requires WellFormed(m)
  {
    match m
    case Deposit(uid, sats) =>
      IsLeg(es, Bank, User(uid), BTC, FromSats(sats as real).value)
    case FiatDeposit(uid, c, amount, r) =>
      && |es| == 4 && IsLeg(es[..2], Bank, Dealer, BTC, amount.value)
      && IsLeg(es[2..], Dealer, User(uid), c, Exchange(amount, r).money.value)
    case DealerDeposit(sats, settlement) =>
      IsLeg(es, if settlement then Dealer else Bank, Dealer, BTC, FromSats(sats as real).value)
    case DealerInvoice(msats, external) =>
      IsLeg(es, Dealer, if external then Bank else Dealer, BTC, FromSats(msats as real / 1000.0).value)
    case Transfer(uid, to, c, amount) =>
      uid != to && Covered(start, es) && IsLeg(es, User(uid), User(to), c, amount.value)
    case Pay(l) =>
      && Covered(start, es)
      && if l.currency == BTC then IsLeg(es, User(l.uid), Bank, BTC, Debit(l).value)
         else
           && |es| == 4 && IsLeg(es[..2], User(l.uid), Dealer, l.currency, Debit(l).value)
           && IsLeg(es[2..], Dealer, Bank, BTC, Total(l).value)
    case Settled(l, fee) =>
      IsLeg(es, Bank, Dealer, BTC, Total(l).value - l.invoice.value - FromSats(fee as real).value)
    case Failed(l) =>
      if l.currency == BTC then IsLeg(es, Bank, User(l.uid), BTC, Total(l).value)
      else
        && |es| == 4 && IsLeg(es[..2], Bank, Dealer, BTC, Total(l).value)
        && IsLeg(es[2..], Dealer, User(l.uid), l.currency, Debit(l).value)
    case Swap(uid, s, t, amount, r) =>
      && s != t && Covered(start, es) && |es| == 4 && IsLeg(es[..2], User(uid), Dealer, s, amount.value)
      && IsLeg(es[2..], Dealer, User(uid), t, Exchange(amount, r).money.value)
    case Cli(outbound, inbound, c, amount) =>
      && IsLeg(es, outbound, inbound, c, amount.value)
      && outbound != Dealer && inbound != Dealer
      && (outbound == Insurance ==> inbound == Bank) && (inbound == Insurance ==> outbound == Bank)
      && (!outbound.User? || !inbound.User? ==> c == BTC)
    case Karma(_, _) => false
    case Inquiry => false
  }

  /** The dealer's new fiat accounts are internal ones. */
  ghost predicate OpensInternal(b: Books, after: Books) {
    Dealer in b && Dealer in after
    && forall id :: id in after[Dealer] && id !in b[Dealer] && IsFiat(after[Dealer][id].currency)
         ==> after[Dealer][id].kind == Internal
  }

  /** No user account disappears or shrinks, and new ones are not in debt. */
  ghost predicate UsersGrow(b: Books, after: Books) {
    && b.Keys <= after.Keys
    && (forall w :: w in b ==> b[w].Keys <= after[w].Keys)
    && (forall w, id :: w in b && id in b[w] && w.User? ==> after[w][id].balance >= b[w][id].balance)
    && (forall w, id :: w in after && id in after[w] && w.User? && !(w in b && id in b[w]) ==>
        after[w][id].balance >= 0.0)
  }

  /** New KKP balances are whole units, and whole ones stay so. */
  ghost predicate KarmaStaysWhole(b: Books, after: Books) {
    forall w, id :: w in after && id in after[w] && after[w][id].currency == KKP
      && (w in b && id in b[w] ==> Whole(b[w][id].balance, Scale(KKP)))
      ==> Whole(after[w][id].balance, Scale(KKP))
  }

  function Reported(karma: Decimal): Decimal {
    NewMoney(KKP, karma).value
  }

  ghost function Undistributed(b: Books, karma: Decimal): Decimal {
    NewMoney(KKP, Reported(karma) - Tally(b, Holders, KKP)).value
  }

  ghost function UserKarma(b: Books, u: UserId): Decimal {
    Tally(b, Only(User(u)), KKP)
  }

  /** Every user's karma grows by that user's credit, and nobody else's grows. */
  ghost predicate Gains(b: Books, after: Books, credits: map<UserId, Decimal>) {
    forall u :: UserKarma(after, u) == UserKarma(b, u) + if u in credits then credits[u] else 0.0
  }

  /** Where the undistributed karma goes: users get their positive shares, the dealer keeps the rest. */
  ghost predicate Apportions(b: Books, amount: Decimal, totals: map<UserId, Decimal>, after: Books) {
    if amount > 0.0 then
      && Divisible(totals) && Gains(b, after, Credits(totals, Sum(totals), amount))
      && Tally(after, Holders, KKP) == Tally(b, Holders, KKP) + Sum(Credits(totals, Sum(totals), amount))
      && Tally(after, DealerSide(Internal), KKP) == amount - Sum(Shares(totals, Sum(totals), amount))
    else
      && Gains(b, after, map[])
      && Tally(after, Holders, KKP) == Tally(b, Holders, KKP)
      && Tally(after, DealerSide(Internal), KKP) == Tally(b, DealerSide(Internal), KKP)
  }

  ghost predicate SameOwner(b: Books, after: Books, o: Owner) {
    o in b && o in after && after[o] == b[o]
  }

  /** Karma replaces the dealer's two KKP balances and credits users; no other currency moves. */
  ghost predicate SharesKarma(b: Books, m: Msg, after: Books)
    requires m.Karma?
  {
    && (forall c :: c != KKP ==> SameIn(b, after, c))
    && UsersGrow(b, after) && KarmaStaysWhole(b, after) && OpensInternal(b, after)
    && SameOwner(b, after, Bank) && SameOwner(b, after, Insurance)
    && Tally(after, DealerSide(External), KKP) == -Reported(m.karma)
    && Apportions(b, Undistributed(b, m.karma), m.totals, after)
  }

  function NextPayments(p: InFlight, m: Msg, launched: bool): InFlight {
    if m.Pay? && launched then InFlight(p.launches + multiset{m.launch})
    else if m.Settled? || m.Failed? then InFlight(p.launches - multiset{m.launch})
    else p
  }

  ghost predicate Step(s: State, a: Action, t: State) {
    && WellFormed(a.msg) && ValidBooks(s.books) && ValidBooks(t.books)
    && t.payments == NextPayments(s.payments, a.msg, a.launched)
    && (a.launched ==> a.msg.Pay? && a.entries != [])
    && (a.msg.Settled? || a.msg.Failed? ==> a.msg.launch in s.payments.launches)
    && Opens(s.books, a.start) && OpensInternal(s.books, a.start) && ValidBooks(a.start)
    && (forall e :: e in a.entries ==> Fits(a.start, e))
    && if a.msg.Karma? then
         a.entries == [] && (t.books == a.start || SharesKarma(s.books, a.msg, t.books))
       else
         && t.books == AdjustAll(a.start, a.entries)
         && (a.entries == [] || Posts(a.msg, a.start, a.entries))
  }
}
