/**
 The bank engine (bank/src/bank_engine.rs): message handlers that copy accounts out of the ledger,
 change the copies, and write them back one map insert at a time. Every handler is proved to do to
 the books what `BankSteps.Step` says, on success and on every early return.
 */
module BankEngine {
  import opened Options
  import opened Decimals
  import opened Money
  import opened Sums
  import opened Ledger
  import opened BankSteps
  import opened BankRuns
  import opened BankTheorems
  import opened BankEffects
  import opened Fees
  import opened Registers
  import opened Karma
  import opened KarmaLedger

  const BANK_UID: UserId := 23193913
  const DEALER_UID: UserId := 52172712

  /** Nothing was posted. */
  lemma QuietStep(s: State, a: Action)
    requires ValidBooks(s.books) && Opened(s.books, a.start) && WellFormed(a.msg)
    requires a.entries == [] && !a.launched && (a.msg.Settled? || a.msg.Failed? ==> a.msg.launch in s.payments.launches)
    ensures Step(s, a, State(a.start, NextPayments(s.payments, a.msg, a.launched))) && ValidBooks(a.start)
    ensures !a.msg.Settled? && !a.msg.Failed? ==> NextPayments(s.payments, a.msg, a.launched) == s.payments
    ensures !a.msg.Karma? ==> Changed(s.books, a.start, [])
  {
    if !a.msg.Karma? {
      QuietChangesNothing(s, a, State(a.start, NextPayments(s.payments, a.msg, a.launched)));
    }
  }

  /** The handler's write-backs amount to its entries. */
  lemma PostedStep(s: State, a: Action, t: Books)
    requires ValidBooks(s.books) && Opened(s.books, a.start) && WellFormed(a.msg) && !a.msg.Karma?
    requires (forall e :: e in a.entries ==> Fits(a.start, e)) && t == AdjustAll(a.start, a.entries)
    requires a.entries != [] && Posts(a.msg, a.start, a.entries) && (a.launched ==> a.msg.Pay?)
    requires a.msg.Settled? || a.msg.Failed? ==> a.msg.launch in s.payments.launches
    ensures Step(s, a, State(t, NextPayments(s.payments, a.msg, a.launched))) && ValidBooks(t)
    ensures !a.msg.Pay? && !a.msg.Settled? && !a.msg.Failed? ==>
              NextPayments(s.payments, a.msg, a.launched) == s.payments
  {
  }

  /** A one-leg handler, whichever of its two accounts it writes back first. */
  lemma PostedLeg(s: State, act: Action, o: Owner, a: Account, i: Owner, c: Account, x: Decimal)
    requires ValidBooks(s.books) && Opened(s.books, act.start) && WellFormed(act.msg) && !act.msg.Karma?
    requires Copy(act.start, o, a) && Copy(act.start, i, c) && (o == i ==> a.id != c.id)
    requires act.entries == Leg(o, a, i, c, x) && Posts(act.msg, act.start, act.entries)
    requires act.launched ==> act.msg.Pay?
    requires act.msg.Settled? || act.msg.Failed? ==> act.msg.launch in s.payments.launches
    ensures var t := Put(Put(act.start, o, Moved(a, -x)), i, Moved(c, x));
            && t == Put(Put(act.start, i, Moved(c, x)), o, Moved(a, -x))
            && ValidBooks(t) && Step(s, act, State(t, NextPayments(s.payments, act.msg, act.launched)))
    ensures !act.msg.Pay? && !act.msg.Settled? && !act.msg.Failed? ==>
              NextPayments(s.payments, act.msg, act.launched) == s.payments
    ensures act.entries != []
  {
    hide Step, Put, AdjustAll, Posts, WellFormed;
    LegPosted(act.start, o, a, i, c, x);
    PutCommutes(act.start, o, Moved(a, -x), i, Moved(c, x));
    PostedStep(s, act, AdjustAll(act.start, act.entries));
  }

  /** The orders in which the handlers write four distinct accounts back all come to the same. */
  lemma PutOrders(b: Books, o: Owner, a: Account, i: Owner, c: Account, p: Owner, d: Account, j: Owner, e: Account)
    requires o in b && i in b && p in b && j in b
    requires (o == i ==> a.id != c.id) && (o == p ==> a.id != d.id) && (o == j ==> a.id != e.id)
    requires (i == p ==> c.id != d.id) && (i == j ==> c.id != e.id) && (p == j ==> d.id != e.id)
    ensures var t := Put(Put(Put(Put(b, o, a), i, c), p, d), j, e);
            && t == Put(Put(Put(Put(b, j, e), o, a), i, c), p, d)
            && t == Put(Put(Put(Put(b, o, a), j, e), i, c), p, d)
            && t == Put(Put(Put(Put(b, o, a), j, e), p, d), i, c)
  {
    hide Put;
    PutHas(b, o, a);
    PutHas(b, j, e);
    PutHas(Put(b, o, a), i, c);
    PutHas(Put(b, o, a), j, e);
    PutCommutes(Put(Put(b, o, a), i, c), p, d, j, e);
    PutCommutes(Put(b, o, a), i, c, j, e);
    PutCommutes(b, o, a, j, e);
    PutCommutes(Put(Put(b, o, a), j, e), i, c, p, d);
  }

  lemma PutHas(b: Books, o: Owner, a: Account)
    ensures Put(b, o, a).Keys == b.Keys
  {
  }

  /** A two-leg handler, in any of the orders above. */
  lemma PostedTwoLegs(s: State, act: Action, o: Owner, a: Account, i: Owner, c: Account, x: Decimal,
                      p: Owner, d: Account, j: Owner, e: Account, y: Decimal)
    requires ValidBooks(s.books) && Opened(s.books, act.start) && WellFormed(act.msg) && !act.msg.Karma?
    requires Copy(act.start, o, a) && Copy(act.start, i, c) && Copy(act.start, p, d) && Copy(act.start, j, e)
    requires a.currency == c.currency != d.currency == e.currency && o != i && p != j
    requires act.entries == Leg(o, a, i, c, x) + Leg(p, d, j, e, y) && Posts(act.msg, act.start, act.entries)
    requires act.launched ==> act.msg.Pay?
    requires act.msg.Settled? || act.msg.Failed? ==> act.msg.launch in s.payments.launches
    ensures var b, a', c', d', e' := act.start, Moved(a, -x), Moved(c, x), Moved(d, -y), Moved(e, y);
            var t := Put(Put(Put(Put(b, o, a'), i, c'), p, d'), j, e');
            && t == Put(Put(Put(Put(b, j, e'), o, a'), i, c'), p, d')
            && t == Put(Put(Put(Put(b, o, a'), j, e'), i, c'), p, d')
            && t == Put(Put(Put(Put(b, o, a'), j, e'), p, d'), i, c')
            && ValidBooks(t) && Step(s, act, State(t, NextPayments(s.payments, act.msg, act.launched)))
    ensures !act.msg.Pay? && !act.msg.Settled? && !act.msg.Failed? ==>
              NextPayments(s.payments, act.msg, act.launched) == s.payments
    ensures act.entries != []
  {
    hide Step, Put, AdjustAll, Posts, WellFormed, Opened;
    OpenedValid(s.books, act.start);
    TwoLegsPosted(act.start, act.entries, o, a, i, c, x, p, d, j, e, y);
    PutOrders(act.start, o, Moved(a, -x), i, Moved(c, x), p, Moved(d, -y), j, Moved(e, y));
    PostedStep(s, act, AdjustAll(act.start, act.entries));
  }

  lemma PlainMessage(m: Msg)
    requires m.Deposit? || m.DealerDeposit? || m.DealerInvoice? || m.Inquiry?
    ensures WellFormed(m)
  {
  }

  lemma DepositPosts(uid: UserId, sats: int, start: Books, a: Account, c: Account)
    requires Matches(a, BTC, Some(External)) && Matches(c, BTC, None) && FromSats(sats as real).value > 0.0
    ensures Posts(Deposit(uid, sats), start, Leg(Bank, a, User(uid), c, FromSats(sats as real).value))
  {
  }

  lemma FiatDepositPosts(uid: UserId, c: Currency, amount: Money, r: Rate, start: Books,
                         bank: Account, btc: Account, fiat: Account, user: Account)
    requires WellFormed(FiatDeposit(uid, c, amount, r))
    requires Matches(bank, BTC, Some(External)) && Matches(btc, BTC, Some(Internal))
    requires Matches(fiat, c, Some(Internal)) && Matches(user, c, None)
    requires amount.value > 0.0 && Exchange(amount, r).money.value > 0.0
    ensures Posts(FiatDeposit(uid, c, amount, r), start,
                  Leg(Bank, bank, Dealer, btc, amount.value)
                  + Leg(Dealer, fiat, User(uid), user, Exchange(amount, r).money.value))
  {
    hide Exchange;
    TwoLegsSplit(Leg(Bank, bank, Dealer, btc, amount.value),
                 Leg(Dealer, fiat, User(uid), user, Exchange(amount, r).money.value));
  }

  lemma TwoLegsSplit(es: seq<Entry>, fs: seq<Entry>)
    requires |es| == 2
    ensures (es + fs)[..2] == es && (es + fs)[2..] == fs
  {
  }

  lemma SwapPosts(m: Msg, start: Books, outbound: Account, dealerIn: Account, dealerOut: Account, inbound: Account)
    requires m.Swap? && WellFormed(m) && m.source != m.target
    requires Copy(start, User(m.uid), outbound) && Matches(outbound, m.source, None)
    requires Matches(dealerIn, m.source, Some(Internal))
    requires Matches(dealerOut, m.target, Some(Internal)) && Matches(inbound, m.target, None)
    requires 0.0 < m.amount.value <= outbound.balance && Exchange(m.amount, m.rate).money.value > 0.0
    ensures Posts(m, start, Leg(User(m.uid), outbound, Dealer, dealerIn, m.amount.value)
                            + Leg(Dealer, dealerOut, User(m.uid), inbound, Exchange(m.amount, m.rate).money.value))
  {
    hide Exchange;
    TwoLegsSplit(Leg(User(m.uid), outbound, Dealer, dealerIn, m.amount.value),
                 Leg(Dealer, dealerOut, User(m.uid), inbound, Exchange(m.amount, m.rate).money.value));
  }

  lemma TransferPosts(m: Msg, start: Books, outbound: Account, inbound: Account)
    requires m.Transfer? && WellFormed(m) && m.uid != m.to && Copy(start, User(m.uid), outbound)
    requires Matches(outbound, m.currency, None) && Matches(inbound, m.currency, None)
    requires 0.0 < m.amount.value <= outbound.balance
    ensures Posts(m, start, Leg(User(m.uid), outbound, User(m.to), inbound, m.amount.value))
  {
  }

  lemma DealerDepositPosts(sats: int, settlement: bool, start: Books, outbound: Account, inbound: Account)
    requires Matches(inbound, BTC, Some(Internal)) && Matches(outbound, BTC, Some(External))
    requires FromSats(sats as real).value > 0.0 && (settlement ==> outbound.id != inbound.id)
    ensures Posts(DealerDeposit(sats, settlement), start,
                  Leg(if settlement then Dealer else Bank, outbound, Dealer, inbound, FromSats(sats as real).value))
  {
  }

  lemma DealerInvoicePosts(msats: nat, external: bool, start: Books, outbound: Account, inbound: Account)
    requires Matches(outbound, BTC, Some(Internal)) && Matches(inbound, BTC, Some(External))
    requires FromSats(msats as real / 1000.0).value > 0.0 && (!external ==> outbound.id != inbound.id)
    ensures Posts(DealerInvoice(msats, external), start,
                  Leg(Dealer, outbound, if external then Bank else Dealer, inbound,
                      FromSats(msats as real / 1000.0).value))
  {
  }

  lemma SameCurrency(a: Account, b: Account, c: Currency)
    requires exists k :: Matches(a, c, k)
    requires exists k :: Matches(b, c, k)
    ensures a.currency == b.currency == c
  {
  }

  lemma DifferentCurrencies(b: Books, o: Owner, a: Account, c: Currency, e: Account, d: Currency)
    requires Copy(b, o, a) && Matches(a, c, None) && Copy(b, o, e) && Matches(e, d, None) && c != d
    ensures a.id != e.id
  {
  }

  lemma SwapCurrencies(m: Msg)
    requires m.Swap? && WellFormed(m)
    ensures m.amount.currency == m.source && Connects(m.rate, m.source, m.target)
  {
  }

  lemma FiatDepositCurrencies(m: Msg)
    requires m.FiatDeposit? && WellFormed(m)
    ensures m.currency != BTC && m.amount.currency == BTC && Connects(m.rate, BTC, m.currency)
  {
  }

  /** Two accounts of one owner that differ in type are two accounts. */
  lemma KindsDiffer(b: Books, o: Owner, a: Account, c: Account)
    requires Copy(b, o, a) && Copy(b, o, c) && a.kind != c.kind
    ensures a.id != c.id
  {
  }

  /** Whichever account of the currency is picked, it covers the amount. */
  ghost predicate Enough(b: Books, uid: UserId, c: Currency, amount: Decimal) {
    User(uid) in b ==>
      forall id :: id in b[User(uid)] && b[User(uid)][id].currency == c ==> b[User(uid)][id].balance >= amount
  }

  lemma EnoughFor(b: Books, uid: UserId, c: Currency, amount: Decimal, a: Account)
    requires Copy(b, User(uid), a) && Matches(a, c, None)
    ensures Enough(b, uid, c, amount) ==> a.balance >= amount
  {
  }

  /** The payment the engine prepares for an invoice of `sats` in the payer's currency. */
  function NewLaunch(uid: UserId, c: Currency, quoted: Rate, sats: nat, margin: Decimal, probed: Option<int>): Launch {
    var invoice := FromSats(sats as real);
    Launch(uid, c, if c == BTC then Parity(BTC) else quoted, invoice, EstimatedFee(invoice, margin, probed))
  }

  /** The payment is for this payer, currency and rate; the invoice and the fee estimate are as asked. */
  predicate Describes(l: Launch, uid: UserId, c: Currency, quoted: Rate, sats: nat, margin: Decimal,
                      probed: Option<int>)
  {
    && l.uid == uid && l.currency == c && (c != BTC ==> l.rate == quoted)
    && l.invoice.value == Sats(sats) && IsEstimate(l.estimate.value, Sats(sats), margin, probed)
  }

  lemma NewLaunchDescribes(uid: UserId, c: Currency, quoted: Rate, sats: nat, margin: Decimal, probed: Option<int>)
    requires margin >= 0.0
    ensures Describes(NewLaunch(uid, c, quoted, sats, margin, probed), uid, c, quoted, sats, margin, probed)
  {
    hide FromSats, EstimatedFee, IsEstimate, Parity;
    SatsValue(sats);
    EstimateIs(FromSats(sats as real), margin, probed);
  }

  lemma NewLaunchIsValid(uid: UserId, c: Currency, quoted: Rate, sats: nat, margin: Decimal, probed: Option<int>)
    requires margin >= 0.0 && (probed.Some? ==> probed.value >= 0)
    requires c == BTC || (IsFiat(c) && quoted.base == c && quoted.quote == BTC && quoted.value > 0.0)
    ensures ValidLaunch(NewLaunch(uid, c, quoted, sats, margin, probed))
  {
    hide FromSats, EstimatedFee, Whole, Parity;
    SatsRoundTrip(sats);
    WholeUnits(sats, SATS_IN_BITCOIN);
    UnitsOrder(0, sats);
    EstimateIsWholeSats(FromSats(sats as real), margin, probed);
  }

  lemma PayMessage(l: Launch)
    requires ValidLaunch(l)
    ensures WellFormed(Pay(l))
  {
  }

  lemma ResultMessage(m: Msg)
    requires (m.Settled? || m.Failed?) && ValidLaunch(m.launch)
    ensures WellFormed(m)
  {
  }

  lemma SoundAmounts(l: Launch)
    requires Sound(l)
    ensures ValidLaunch(l) && Total(l).value > 0.0 && Debit(l).value > 0.0
    ensures l.currency != BTC ==> IsFiat(l.currency)
  {
  }

  lemma FlightIsSound(p: InFlight, l: Launch)
    requires AllSound(p) && l in p.launches
    ensures Sound(l) && ValidLaunch(l)
  {
  }

  lemma SettledPayments(s: State, a: Action)
    requires (a.msg.Settled? || a.msg.Failed?) && AllSound(s.payments)
    ensures NextPayments(s.payments, a.msg, a.launched) == InFlight(s.payments.launches - multiset{a.msg.launch})
    ensures AllSound(NextPayments(s.payments, a.msg, a.launched))
  {
  }

  lemma LaunchedPayments(s: State, a: Action)
    requires a.msg.Pay? && AllSound(s.payments) && (a.launched ==> Sound(a.msg.launch))
    ensures NextPayments(s.payments, a.msg, a.launched)
         == if a.launched then InFlight(s.payments.launches + multiset{a.msg.launch}) else s.payments
    ensures AllSound(NextPayments(s.payments, a.msg, a.launched))
  {
    hide Sound;
  }

  lemma FiatPayPosts(l: Launch, start: Books, user: Account, fiat: Account, btc: Account, bank: Account)
    requires ValidLaunch(l) && l.currency != BTC && Copy(start, User(l.uid), user)
    requires Matches(user, l.currency, None) && Matches(fiat, l.currency, Some(Internal))
    requires Matches(btc, BTC, Some(Internal)) && Matches(bank, BTC, Some(External))
    requires 0.0 < Debit(l).value <= user.balance && Total(l).value > 0.0
    ensures Posts(Pay(l), start, Leg(User(l.uid), user, Dealer, fiat, Debit(l).value)
                                 + Leg(Dealer, btc, Bank, bank, Total(l).value))
  {
    hide Total, Debit, ValidLaunch;
    TwoLegsSplit(Leg(User(l.uid), user, Dealer, fiat, Debit(l).value), Leg(Dealer, btc, Bank, bank, Total(l).value));
  }

  lemma BtcPayPosts(l: Launch, start: Books, user: Account, bank: Account)
    requires ValidLaunch(l) && l.currency == BTC && Copy(start, User(l.uid), user)
    requires Matches(user, BTC, None) && Matches(bank, BTC, Some(External)) && 0.0 < Debit(l).value <= user.balance
    ensures Posts(Pay(l), start, Leg(User(l.uid), user, Bank, bank, Debit(l).value))
  {
    hide Total, Debit, ValidLaunch;
  }

  lemma WithinLimit(l: Launch, fee: nat)
    requires ValidLaunch(l)
    ensures fee <= LaunchFeeLimit(l) ==> Excess(l, fee).value >= 0.0
    ensures Excess(l, fee).value == l.estimate.value - Sats(fee)
    ensures NewMoney(BTC, Excess(l, fee).value) == Excess(l, fee)
  {
    ExcessNormal(l, fee);
    TotalIsExact(l);
    SatsValue(fee);
    if fee <= LaunchFeeLimit(l) {
      ExcessIsNotNegative(l, fee);
    }
  }

  lemma SettledPosts(l: Launch, fee: nat, start: Books, bank: Account, btc: Account)
    requires ValidLaunch(l) && Matches(bank, BTC, Some(External)) && Matches(btc, BTC, Some(Internal))
    requires Excess(l, fee).value > 0.0
    ensures Posts(Settled(l, fee), start, Leg(Bank, bank, Dealer, btc, Excess(l, fee).value))
  {
    hide Total, ValidLaunch, FromSats;
  }

  lemma FiatRefundPosts(l: Launch, start: Books, bank: Account, btc: Account, fiat: Account, user: Account)
    requires Sound(l) && l.currency != BTC
    requires Matches(bank, BTC, Some(External)) && Matches(btc, BTC, Some(Internal))
    requires Matches(fiat, l.currency, Some(Internal)) && Matches(user, l.currency, None)
    ensures Posts(Failed(l), start, Leg(Bank, bank, Dealer, btc, Total(l).value)
                                    + Leg(Dealer, fiat, User(l.uid), user, Debit(l).value))
  {
    hide Total, Debit, ValidLaunch;
    TwoLegsSplit(Leg(Bank, bank, Dealer, btc, Total(l).value), Leg(Dealer, fiat, User(l.uid), user, Debit(l).value));
  }

  lemma BtcRefundPosts(l: Launch, start: Books, bank: Account, user: Account)
    requires Sound(l) && l.currency == BTC && Matches(bank, BTC, Some(External)) && Matches(user, BTC, None)
    ensures Posts(Failed(l), start, Leg(Bank, bank, User(l.uid), user, Total(l).value))
  {
    hide Total, Debit, ValidLaunch;
  }

  lemma KindsOf(a: Account, c: Currency, k: AccountType)
    requires Matches(a, c, Some(k))
    ensures a.kind == k
  {
  }

  lemma PutSame(b: Books, o: Owner, a: Account)
    requires Copy(b, o, a)
    ensures Put(b, o, a) == b
  {
    assert b[o][a.id := a] == b[o];
  }

  lemma KarmaStep(s: State, a: Action, t: Books)
    requires a.msg.Karma? && a.start == s.books && a.entries == [] && !a.launched
    requires ValidBooks(s.books) && ValidBooks(t) && SharesKarma(s.books, a.msg, t)
    ensures Step(s, a, State(t, s.payments))
  {
    hide SharesKarma;
    OpenedSelf(s.books);
  }

  // ---- command-line transfers

  /** A CLI account reference as the engine resolves it. */
  datatype Slot = Slot(owner: Owner, account: Account)

  /** The engine's reading of a user id and account id: the bank's liability account, the insurance fund, or a
      user's. */
  ghost predicate Resolves(r: Register, uid: UserId, id: AccountId, s: Slot) {
    && Copy(BooksOf(r), s.owner, s.account) && s.account.id == id
    && match s.owner
       case Bank => uid == BANK_UID && Matches(s.account, BTC, Some(External))
       case Insurance => uid == DEALER_UID && s.account == r.insurance
       case User(u) => u == uid
       case Dealer => false
  }

  lemma UserSlot(r: Register, uid: UserId, id: AccountId)
    requires ValidBooks(BooksOf(r)) && uid in r.users && id in r.users[uid]
    ensures Resolves(r, uid, id, Slot(User(uid), r.users[uid][id]))
  {
    assert Keyed(BooksOf(r)[User(uid)]);
  }

  lemma InsuranceSlot(r: Register)
    ensures Resolves(r, DEALER_UID, r.insurance.id, Slot(Insurance, r.insurance))
  {
  }

  lemma BankSlot(r: Register, id: AccountId, a: Account)
    requires Copy(BooksOf(r), Bank, a) && a.id == id && Matches(a, BTC, Some(External))
    ensures Resolves(r, BANK_UID, id, Slot(Bank, a))
  {
  }

  /** Two slots of one owner are two accounts, because the transfer is refused when they are one. */
  lemma SlotsDiffer(r: Register, ou: UserId, oi: AccountId, o: Slot, iu: UserId, ii: AccountId, i: Slot)
    requires Resolves(r, ou, oi, o) && Resolves(r, iu, ii, i) && !(ou == iu && oi == ii)
    ensures o.owner == i.owner ==> o.account.id != i.account.id
  {
  }

  lemma CliPosts(r: Register, start: Books, m: Msg, ou: UserId, oi: AccountId, o: Slot,
                 iu: UserId, ii: AccountId, i: Slot)
    requires Resolves(r, ou, oi, o) && Resolves(r, iu, ii, i) && !(ou == iu && oi == ii)
    requires m.Cli? && WellFormed(m) && m.outbound == o.owner && m.inbound == i.owner
    requires o.account.currency == i.account.currency == m.currency && m.amount.value > 0.0
    requires (o.owner == Insurance ==> i.owner == Bank) && (i.owner == Insurance ==> o.owner == Bank)
    ensures Posts(m, start, Leg(o.owner, o.account, i.owner, i.account, m.amount.value))
  {
    hide BooksOf, Copy;
    SlotsDiffer(r, ou, oi, o, iu, ii, i);
  }

  lemma CliMessage(o: Owner, i: Owner, c: Currency, amount: Decimal)
    ensures WellFormed(Cli(o, i, c, NewMoney(c, amount)))
  {
  }

  lemma ResolvesKept(r: Register, t: Register, uid: UserId, id: AccountId, s: Slot)
    requires Resolves(r, uid, id, s) && KeepsCopies(BooksOf(r), BooksOf(t)) && t.insurance == r.insurance
    ensures Resolves(t, uid, id, s)
  {
    hide BooksOf, Copy;
  }

  lemma SlotIds(r: Register, ou: UserId, oi: AccountId, o: Slot, iu: UserId, ii: AccountId, i: Slot)
    requires Resolves(r, ou, oi, o) && Resolves(r, iu, ii, i)
    ensures o.account.id == oi && i.account.id == ii
  {
  }

  /** The reference names this slot and could mean no other. */
  ghost predicate Names(r: Register, uid: UserId, id: AccountId, s: Slot) {
    match s.owner
    case Bank =>
      && uid == BANK_UID && id in r.liabilities && s.account == r.liabilities[id]
      && Matches(s.account, BTC, Some(External))
      && forall j :: j in r.liabilities && Matches(r.liabilities[j], BTC, Some(External)) ==> j == id
    case Insurance => uid == DEALER_UID && id == r.insurance.id && s.account == r.insurance
    case User(u) =>
      && u == uid != BANK_UID && !(uid == DEALER_UID && id == r.insurance.id)
      && uid in r.users && id in r.users[uid] && s.account == r.users[uid][id]
    case Dealer => false
  }

  /** The one account that can be meant is the one that is found. */
  lemma NamedBank(r: Register, id: AccountId, x: Slot, accounts: Accounts, a: Account)
    requires Names(r, BANK_UID, id, x) && IsDefault(r.liabilities, BTC, Some(External), accounts, a)
    requires Keyed(r.liabilities)
    ensures accounts == r.liabilities && x == Slot(Bank, a) && a.id == id
  {
    assert Matches(r.liabilities[id], BTC, Some(External));
  }

  lemma BankKeyed(r: Register)
    requires ValidBooks(BooksOf(r))
    ensures Keyed(r.liabilities)
  {
    assert BooksOf(r)[Bank] == r.liabilities;
  }

  lemma NamedOther(r: Register, uid: UserId, id: AccountId, x: Slot)
    requires Names(r, uid, id, x) && uid != BANK_UID
    ensures x == if uid == DEALER_UID && id == r.insurance.id then Slot(Insurance, r.insurance)
                 else if uid in r.users && id in r.users[uid] then Slot(User(uid), r.users[uid][id])
                 else Slot(Dealer, r.insurance)
    ensures x.owner != Dealer
  {
  }

  /** Look a CLI account up. `refused` when the user or the account does not exist. */
  method Resolve(r: Register, uid: UserId, id: AccountId, ghost origin: Books)
    returns (t: Register, found: bool, s: Slot)
    requires Opened(origin, BooksOf(r))
    ensures Opened(origin, BooksOf(t)) && KeepsCopies(BooksOf(r), BooksOf(t))
    ensures t.insurance == r.insurance && t.users == r.users
    ensures found ==> Resolves(t, uid, id, s)
    ensures !found ==> uid !in r.users || id !in r.users[uid]
    ensures forall x :: Names(r, uid, id, x) ==> found && s == x && t == r
  {
    hide BooksOf, Opened, Copy, Matches, Resolves, IsDefault, Keyed, Names;
    forall x | Names(r, uid, id, x) && uid != BANK_UID
      ensures x == if uid == DEALER_UID && id == r.insurance.id then Slot(Insurance, r.insurance)
                   else if uid in r.users && id in r.users[uid] then Slot(User(uid), r.users[uid][id])
                   else Slot(Dealer, r.insurance)
      ensures x.owner != Dealer
    {
      NamedOther(r, uid, id, x);
    }
    t := r;
    s := Slot(Insurance, r.insurance);
    OpenedValid(origin, BooksOf(r));
    OpenedSelf(BooksOf(r));
    OpenedKeepsCopies(origin, BooksOf(r), BooksOf(r));
    if uid == BANK_UID {
      var a;
      t, a := BankDefault(r, BTC, External, origin);
      BankKeyed(r);
      forall x | Names(r, uid, id, x)
        ensures t.liabilities == r.liabilities && x == Slot(Bank, a) && a.id == id
      {
        NamedBank(r, id, x, t.liabilities, a);
      }
      if a.id == id {
        BankSlot(t, id, a);
        return t, true, Slot(Bank, a);
      }
      OpenedValid(origin, BooksOf(t));
    }
    if uid == DEALER_UID && id == r.insurance.id {
      InsuranceSlot(t);
      return t, true, s;
    }
    if uid !in t.users || id !in t.users[uid] {
      return t, false, s;
    }
    UserSlot(t, uid, id);
    return t, true, Slot(User(uid), t.users[uid][id]);
  }

  method PutSlot(r: Register, s: Slot, a: Account) returns (t: Register)
    requires s.owner != Dealer && (s.owner.User? ==> s.owner.uid in r.users)
    requires s.owner == Insurance ==> a.id == r.insurance.id
    ensures BooksOf(t) == Put(BooksOf(r), s.owner, a) && t.insurance.id == r.insurance.id
    ensures forall u :: u in r.users ==> u in t.users
  {
    hide BooksOf, Put;
    match s.owner
    case Bank => t := PutBank(r, a);
    case Insurance => t := PutInsurance(r, a);
    case User(u) => t := PutUser(r, u, a);
  }

  lemma SlotIsWritable(r: Register, uid: UserId, id: AccountId, s: Slot)
    requires Resolves(r, uid, id, s)
    ensures s.owner != Dealer && (s.owner.User? ==> s.owner.uid in r.users)
    ensures s.owner == Insurance ==> s.account.id == r.insurance.id
    ensures Copy(BooksOf(r), s.owner, s.account)
  {
  }

  /** Every payment in flight can be refunded. */
  // ---- the leg of a command-line transfer

  method PostCli(r: Register, ghost s: State, outUid: UserId, outId: AccountId, from: Slot,
                 inUid: UserId, inId: AccountId, to: Slot, value: Money, db: Db)
    returns (t: Register, ok: bool, ghost act: Action)
    requires ValidBooks(s.books) && Opened(s.books, BooksOf(r)) && Normal(value)
    requires Resolves(r, outUid, outId, from) && Resolves(r, inUid, inId, to) && !(outUid == inUid && outId == inId)
    requires from.account.currency == to.account.currency == value.currency
    requires (from.owner == Insurance ==> to.owner == Bank) && (to.owner == Insurance ==> from.owner == Bank)
    ensures act.msg == Cli(from.owner, to.owner, value.currency, value) && ValidBooks(BooksOf(t))
    ensures Step(s, act, State(BooksOf(t), s.payments))
    ensures (ok <==> act.entries != []) && (ok <==> value.value > 0.0 && Works(db))
    ensures ok ==> |act.entries| == 2 && act.entries[0].id == from.account.id && act.entries[1].id == to.account.id
  {
    hide Step, Opened, ValidBooks, BooksOf, Put, Copy, Posts, NextPayments, Resolves;
    SlotIsWritable(r, inUid, inId, to);
    SlotIsWritable(r, outUid, outId, from);
    SlotsDiffer(r, outUid, outId, from, inUid, inId, to);
    act := Action(Cli(from.owner, to.owner, value.currency, value), BooksOf(r), [], false);
    QuietStep(s, act);
    var outbound, inbound;
    t := r;
    ok, outbound, inbound := MakeTx(from.account, to.account, value, db);
    if !ok {
      return t, false, act;
    }
    act := act.(entries := Leg(from.owner, from.account, to.owner, to.account, value.value));
    CliPosts(r, act.start, act.msg, outUid, outId, from, inUid, inId, to);
    PostedLeg(s, act, from.owner, from.account, to.owner, to.account, value.value);
    t := PutSlot(t, from, outbound);
    t := PutSlot(t, to, inbound);
  }

  // ---- the legs of a swap

  /** The exchange yields a positive amount. */
  predicate Pays(amount: Money, r: Rate) {
    && (amount.currency == r.base || (amount.currency == r.quote && r.value != 0.0))
    && Exchange(amount, r).money.value > 0.0
  }

  lemma PaysIff(amount: Money, r: Rate, c: Currency)
    requires Connects(r, amount.currency, c)
    ensures Pays(amount, r) <==> Exchange(amount, r).money.value > 0.0
  {
    hide Exchange;
  }

  /** The dealer's two accounts are looked up before the balance is checked. */
  method OpenDealerPair(r: Register, source: Currency, target: Currency, ghost origin: Books) returns (t: Register)
    requires Opened(origin, BooksOf(r))
    ensures Opened(origin, BooksOf(t)) && t == r.(dealer := t.dealer)
    ensures forall o, a :: Copy(BooksOf(r), o, a) ==> Copy(BooksOf(t), o, a)
  {
    hide Opened, BooksOf, Copy;
    var a;
    t, a := DealerDefault(r, target, Internal, origin);
    t, a := DealerDefault(t, source, Internal, origin);
  }

  /** Both transactions of a covered swap, and the four write-backs. */
  method SwapLegs(r: Register, ghost s: State, uid: UserId, source: Currency, target: Currency, amount: Money,
                  rate: Rate, outbound: Account, inbound: Account, db1: Db, db2: Db)
    returns (t: Register, ok: bool, ghost act: Action)
    requires ValidBooks(s.books) && Opened(s.books, BooksOf(r)) && uid in r.users && source != target
    requires WellFormed(BankSteps.Swap(uid, source, target, amount, rate)) && outbound.balance >= amount.value
    requires Copy(BooksOf(r), User(uid), outbound) && Matches(outbound, source, None)
    requires Copy(BooksOf(r), User(uid), inbound) && Matches(inbound, target, None)
    ensures act.msg == BankSteps.Swap(uid, source, target, amount, rate) && ValidBooks(BooksOf(t))
    ensures Step(s, act, State(BooksOf(t), s.payments))
    ensures ok <==> act.entries != []
    ensures ok <==> amount.value > 0.0 && Pays(amount, rate) && Works(db1) && Works(db2)
  {
    hide Step, Opened, ValidBooks, BooksOf, Put, Exchange, Copy, Posts, WellFormed, NextPayments, Leg;
    hide PutUser, PutDealer, PutBank, Matches;
    ghost var m := BankSteps.Swap(uid, source, target, amount, rate);
    SwapCurrencies(m);
    var dealerOut, dealerIn, user, payee;
    t, dealerOut := DealerDefault(r, target, Internal, s.books);
    t, dealerIn := DealerDefault(t, source, Internal, s.books);
    act := Action(m, BooksOf(t), [], false);
    QuietStep(s, act);
    ghost var x0, y0 := dealerOut, dealerIn;
    SameCurrency(outbound, y0, source);
    SameCurrency(x0, inbound, target);
    ok, user, dealerIn := MakeTx(outbound, dealerIn, amount, db1);
    if !ok {
      return t, false, act;
    }
    var value := Exchange(amount, rate).money;
    ok, dealerOut, payee := MakeTx(dealerOut, inbound, value, db2);
    if !ok {
      return t, false, act;
    }
    act := act.(entries := Leg(User(uid), outbound, Dealer, y0, amount.value)
                           + Leg(Dealer, x0, User(uid), inbound, value.value));
    SwapPosts(m, act.start, outbound, y0, x0, inbound);
    PostedTwoLegs(s, act, User(uid), outbound, Dealer, y0, amount.value, Dealer, x0, User(uid), inbound, value.value);
    t := PutUser(t, uid, user);
    t := PutUser(t, uid, payee);
    t := PutDealer(t, dealerOut);
    t := PutDealer(t, dealerIn);
  }

  // ---- the legs of an external payment

  lemma SoundIff(l: Launch)
    requires ValidLaunch(l)
    ensures Sound(l) <==> Total(l).value > 0.0 && Debit(l).value > 0.0
    ensures l.currency == BTC ==> Debit(l) == Total(l)
    ensures l.currency != BTC ==> IsFiat(l.currency)
  {
    if l.currency == BTC {
      BtcDebit(l);
    }
  }

  /** A fiat payer's debit: fiat to the dealer, the dealer's BTC to the bank. */
  method DebitFiat(r: Register, ghost s: State, l: Launch, outbound: Account, liability: Account, summary: bool,
                   db1: Db, db2: Db)
    returns (t: Register, ok: bool, ghost act: Action)
    requires ValidBooks(s.books) && Opened(s.books, BooksOf(r)) && ValidLaunch(l) && l.currency != BTC
    requires l.uid in r.users && Copy(BooksOf(r), User(l.uid), outbound) && Matches(outbound, l.currency, None)
    requires Copy(BooksOf(r), Bank, liability) && Matches(liability, BTC, Some(External))
    requires outbound.balance >= Debit(l).value
    ensures ok <==> act.entries != []
    ensures act.msg == Pay(l) && (act.launched <==> act.entries != [] && summary) && ValidBooks(BooksOf(t))
    ensures Step(s, act, State(BooksOf(t), NextPayments(s.payments, act.msg, act.launched)))
    ensures act.entries != [] <==> Works(db1) && Works(db2) && Sound(l)
  {
    hide Step, Opened, ValidBooks, BooksOf, Put, Exchange, Copy, Posts, WellFormed, NextPayments, Leg;
    hide PutUser, PutDealer, PutBank, Matches, ValidLaunch, Total, Debit, Sound, Parity;
    var fiat, btc;
    PayMessage(l);
    SoundIff(l);
    t, fiat := DealerDefault(r, l.currency, Internal, s.books);
    act := Action(Pay(l), BooksOf(t), [], false);
    ghost var u0, f0, l0 := outbound, fiat, liability;
    SameCurrency(u0, f0, l.currency);
    var user, bank;
    ok, user, fiat := MakeTx(outbound, fiat, Debit(l), db1);
    if !ok {
      QuietStep(s, act);
      return;
    }
    t, btc := DealerDefault(t, BTC, Internal, s.books);
    act := act.(start := BooksOf(t));
    ghost var b0 := btc;
    SameCurrency(b0, l0, BTC);
    ok, btc, bank := MakeTx(btc, liability, Total(l), db2);
    if !ok {
      QuietStep(s, act);
      return;
    }
    act := act.(entries := Leg(User(l.uid), u0, Dealer, f0, Debit(l).value) + Leg(Dealer, b0, Bank, l0, Total(l).value),
                launched := summary);
    FiatPayPosts(l, act.start, u0, f0, b0, l0);
    PostedTwoLegs(s, act, User(l.uid), u0, Dealer, f0, Debit(l).value, Dealer, b0, Bank, l0, Total(l).value);
    t := PutUser(t, l.uid, user);
    t := PutBank(t, bank);
    t := PutDealer(t, fiat);
    t := PutDealer(t, btc);
  }

  /** A BTC payer's debit. */
  method DebitBtc(r: Register, ghost s: State, l: Launch, outbound: Account, liability: Account, summary: bool, db: Db)
    returns (t: Register, ok: bool, ghost act: Action)
    requires ValidBooks(s.books) && Opened(s.books, BooksOf(r)) && ValidLaunch(l) && l.currency == BTC
    requires l.uid in r.users && Copy(BooksOf(r), User(l.uid), outbound) && Matches(outbound, l.currency, None)
    requires Copy(BooksOf(r), Bank, liability) && Matches(liability, BTC, Some(External))
    requires outbound.balance >= Debit(l).value
    ensures ok <==> act.entries != []
    ensures act.msg == Pay(l) && (act.launched <==> act.entries != [] && summary) && ValidBooks(BooksOf(t))
    ensures Step(s, act, State(BooksOf(t), NextPayments(s.payments, act.msg, act.launched)))
    ensures act.entries != [] <==> Works(db) && Sound(l)
  {
    hide Step, Opened, ValidBooks, BooksOf, Put, Exchange, Copy, Posts, WellFormed, NextPayments, Leg;
    hide PutUser, PutDealer, PutBank, Matches, ValidLaunch, Total, Debit, Sound, Parity;
    PayMessage(l);
    SoundIff(l);
    t := r;
    act := Action(Pay(l), BooksOf(t), [], false);
    SameCurrency(outbound, liability, BTC);
    var user, bank;
    ok, user, bank := MakeTx(outbound, liability, Debit(l), db);
    if !ok {
      QuietStep(s, act);
      return;
    }
    act := act.(entries := Leg(User(l.uid), outbound, Bank, liability, Debit(l).value), launched := summary);
    BtcPayPosts(l, act.start, outbound, liability);
    PostedLeg(s, act, User(l.uid), outbound, Bank, liability, Debit(l).value);
    t := PutBank(t, bank);
    t := PutUser(t, l.uid, user);
  }

  /** A fiat payer's refund: the bank's BTC back to the dealer, fiat back to the payer. */
  method RefundFiat(r: Register, ghost s: State, l: Launch, liability: Account, inbound: Account, btc: Account,
                    db1: Db, db2: Db)
    returns (t: Register, ghost act: Action)
    requires ValidBooks(s.books) && Opened(s.books, BooksOf(r)) && Sound(l) && l.currency != BTC
    requires l in s.payments.launches && l.uid in r.users
    requires Copy(BooksOf(r), User(l.uid), inbound) && Matches(inbound, l.currency, None)
    requires Copy(BooksOf(r), Bank, liability) && Matches(liability, BTC, Some(External))
    requires Copy(BooksOf(r), Dealer, btc) && Matches(btc, BTC, Some(Internal))
    ensures act.msg == Failed(l) && !act.launched && ValidBooks(BooksOf(t))
    ensures Step(s, act, State(BooksOf(t), NextPayments(s.payments, act.msg, act.launched)))
    ensures act.entries != [] <==> Works(db1) && Works(db2)
  {
    hide Step, Opened, ValidBooks, BooksOf, Put, Exchange, Copy, Posts, WellFormed, NextPayments, Leg;
    hide PutUser, PutDealer, PutBank, Matches, ValidLaunch, Total, Debit, Sound, Parity;
    SoundAmounts(l);
    ResultMessage(Failed(l));
    var fiat, ok, bank, dealer, user;
    t, fiat := DealerDefault(r, l.currency, Internal, s.books);
    act := Action(Failed(l), BooksOf(t), [], false);
    ghost var f0 := fiat;
    SameCurrency(liability, btc, BTC);
    SameCurrency(f0, inbound, l.currency);
    ok, bank, dealer := MakeTx(liability, btc, Total(l), db1);
    if !ok {
      QuietStep(s, act);
      return;
    }
    ok, fiat, user := MakeTx(fiat, inbound, Debit(l), db2);
    if !ok {
      QuietStep(s, act);
      return;
    }
    act := act.(entries := Leg(Bank, liability, Dealer, btc, Total(l).value)
                           + Leg(Dealer, f0, User(l.uid), inbound, Debit(l).value));
    FiatRefundPosts(l, act.start, liability, btc, f0, inbound);
    PostedTwoLegs(s, act, Bank, liability, Dealer, btc, Total(l).value,
                  Dealer, f0, User(l.uid), inbound, Debit(l).value);
    t := PutBank(t, bank);
    t := PutDealer(t, dealer);
    t := PutDealer(t, fiat);
    t := PutUser(t, l.uid, user);
  }

  /** A BTC payer's refund. */
  method RefundBtc(r: Register, ghost s: State, l: Launch, liability: Account, inbound: Account, db: Db)
    returns (t: Register, ghost act: Action)
    requires ValidBooks(s.books) && Opened(s.books, BooksOf(r)) && Sound(l) && l.currency == BTC
    requires l in s.payments.launches && l.uid in r.users
    requires Copy(BooksOf(r), User(l.uid), inbound) && Matches(inbound, l.currency, None)
    requires Copy(BooksOf(r), Bank, liability) && Matches(liability, BTC, Some(External))
    ensures act.msg == Failed(l) && !act.launched && ValidBooks(BooksOf(t))
    ensures Step(s, act, State(BooksOf(t), NextPayments(s.payments, act.msg, act.launched)))
    ensures act.entries != [] <==> Works(db)
  {
    hide Step, Opened, ValidBooks, BooksOf, Put, Exchange, Copy, Posts, WellFormed, NextPayments, Leg;
    hide PutUser, PutDealer, PutBank, Matches, ValidLaunch, Total, Debit, Sound, Parity;
    SoundAmounts(l);
    ResultMessage(Failed(l));
    t := r;
    act := Action(Failed(l), BooksOf(t), [], false);
    SameCurrency(liability, inbound, BTC);
    var ok, bank, user;
    ok, bank, user := MakeTx(liability, inbound, Total(l), db);
    if !ok {
      QuietStep(s, act);
      return;
    }
    act := act.(entries := Leg(Bank, liability, User(l.uid), inbound, Total(l).value));
    BtcRefundPosts(l, act.start, liability, inbound);
    PostedLeg(s, act, Bank, liability, User(l.uid), inbound, Total(l).value);
    t := PutBank(t, bank);
    t := PutUser(t, l.uid, user);
  }

  ghost predicate AllSound(payments: InFlight) {
    forall l :: l in payments.launches ==> Sound(l)
  }

  // ---- start-up

  /** `Ledger::new`: no accounts but an empty insurance fund. */
  function NewLedger(insurance: AccountId): Register {
    Register(map[], map[], map[], Account(insurance, 0.0, BTC, Internal))
  }

  ghost predicate HasAccount(b: Books, o: Owner, c: Currency, kind: AccountType) {
    exists a :: Copy(b, o, a) && a.currency == c && a.kind == kind
  }

  lemma AccountsStay(b: Books, t: Books, o: Owner, a: Account, c: Currency, before: seq<Currency>)
    requires KeepsCopies(b, t) && Copy(t, o, a) && Matches(a, c, Some(Internal))
    requires forall d :: d in before ==> HasAccount(b, o, d, Internal)
    ensures HasAccount(t, o, c, Internal) && forall d :: d in before ==> HasAccount(t, o, d, Internal)
  {
    hide Copy;
    forall d | d in before
      ensures HasAccount(t, o, d, Internal)
    {
      var x :| Copy(b, o, x) && x.currency == d && x.kind == Internal;
      assert Copy(t, o, x);
    }
  }

  lemma NothingHeld(accounts: Accounts, v: View, o: Owner, c: Currency)
    requires forall id :: id in accounts ==> accounts[id].balance == 0.0
    ensures Held(accounts, v, o, c) == 0.0
  {
    var none: map<AccountId, Decimal> := map[];
    var stakes := Stakes(accounts, v, o, c);
    assert forall id :: id in stakes ==> stakes[id] == 0.0;
    SumExtend(none, stakes);
  }

  lemma NothingTallied(b: Books, v: View, c: Currency)
    requires forall o, id :: o in b && id in b[o] ==> b[o][id].balance == 0.0
    ensures Tally(b, v, c) == 0.0
  {
    hide Held;
    forall o | o in b
      ensures Held(b[o], v, o, c) == 0.0
    {
      NothingHeld(b[o], v, o, c);
    }
    var none: map<Owner, Decimal> := map[];
    SumExtend(none, Seen(b, v, c));
  }

  /** A new ledger meets every starting condition of the theorems about runs. */
  lemma NewLedgerIsInOrder(insurance: AccountId)
    ensures var b := BooksOf(NewLedger(insurance));
            && ValidBooks(b) && NormalBooks(b) && Solvent(b) && InternalFiat(b)
            && (forall v, c :: Tally(b, v, c) == 0.0) && Reconciles(b) && KarmaInBalance(b, 0.0)
  {
    hide Tally, Whole;
    var b := BooksOf(NewLedger(insurance));
    forall v, c
      ensures Tally(b, v, c) == 0.0
    {
      NothingTallied(b, v, c);
    }
    ZeroWhole(BTC);
    ZeroWhole(KKP);
  }

  // ---- normalisation

  /** One of the loops of `normalize_accounts`. */
  method NormalizeEach(accounts: Accounts) returns (t: Accounts)
    ensures t == NormalizeAll(accounts)
  {
    hide Normalized;
    t := accounts;
    var rest := accounts;
    while rest != map[]
      invariant rest.Keys <= accounts.Keys && t.Keys == accounts.Keys
      invariant forall id :: id in accounts ==> t[id] == if id in rest then accounts[id] else Normalized(accounts[id])
      decreases |rest|
    {
      ghost var some := SomeKey(rest);
      var id :| id in rest;
      t := t[id := Normalized(t[id])];
      rest := rest - {id};
    }
    assert t.Keys == NormalizeAll(accounts).Keys;
    assert forall id :: id in t ==> t[id] == NormalizeAll(accounts)[id];
  }

  ghost function NormalizedUsers(users: map<UserId, Accounts>): map<UserId, Accounts> {
    map u | u in users :: NormalizeAll(users[u])
  }

  /** The nested loop over users. */
  method NormalizeUsers(users: map<UserId, Accounts>) returns (t: map<UserId, Accounts>)
    ensures t == NormalizedUsers(users)
  {
    hide NormalizeAll;
    t := users;
    var rest := users;
    while rest != map[]
      invariant rest.Keys <= users.Keys && t.Keys == users.Keys
      invariant forall u :: u in users ==> t[u] == if u in rest then users[u] else NormalizeAll(users[u])
      decreases |rest|
    {
      ghost var some := SomeKey(rest);
      var u :| u in rest;
      var accounts := NormalizeEach(t[u]);
      t := t[u := accounts];
      rest := rest - {u};
    }
    assert t.Keys == NormalizedUsers(users).Keys;
    assert forall u :: u in t ==> t[u] == NormalizedUsers(users)[u];
  }

  lemma NormalizedRegister(r: Register, t: Register)
    requires t.liabilities == NormalizeAll(r.liabilities) && t.dealer == NormalizeAll(r.dealer)
    requires t.insurance == r.insurance
    requires t.users == NormalizedUsers(r.users)
    ensures BooksOf(t) == NormalizeBooks(BooksOf(r))
  {
    hide NormalizeAll;
    assert t.users.Keys == r.users.Keys;
  }

  lemma NormalizedStaysValid(b: Books)
    requires ValidBooks(b)
    ensures ValidBooks(NormalizeBooks(b))
  {
    hide Trunc;
    forall o | o in b
      ensures Keyed(NormalizeAll(b[o])) && (Distinct(b[o]) ==> Distinct(NormalizeAll(b[o])))
    {
    }
  }

  class Engine {
    var ledger: Register
    var payments: InFlight

    /** A new engine's books are in order: every premise about where a run starts holds of them. */
    constructor (insurance: AccountId)
      ensures Valid() && payments.launches == multiset{}
      ensures var b := BooksOf(ledger);
              && NormalBooks(b) && Reconciles(b) && InternalFiat(b) && KarmaInBalance(b, 0.0)
              && (forall v, c :: Tally(b, v, c) == 0.0)
    {
      hide BooksOf, Tally, ValidBooks, NormalBooks;
      NewLedgerIsInOrder(insurance);
      ledger := NewLedger(insurance);
      payments := InFlight(multiset{});
    }

    /** `normalize_accounts`: every balance but the insurance fund's cut to its currency's scale; on books of
        whole units nothing changes. */
    method NormalizeAccounts()
      requires Valid()
      modifies this`ledger
      ensures Valid() && BooksOf(ledger) == NormalizeBooks(old(BooksOf(ledger)))
      ensures NormalBooks(old(BooksOf(ledger))) ==> Now() == old(Now())
    {
      hide BooksOf, ValidBooks, NormalBooks, NormalizeBooks, NormalizeAll, NormalizedUsers, AllSound;
      ghost var r := ledger;
      var bank := NormalizeEach(ledger.liabilities);
      var dealer := NormalizeEach(ledger.dealer);
      var users := NormalizeUsers(ledger.users);
      ledger := ledger.(liabilities := bank, dealer := dealer, users := users);
      NormalizedRegister(r, ledger);
      NormalizedStaysValid(BooksOf(r));
      if NormalBooks(BooksOf(r)) {
        NormalizeIsIdentity(BooksOf(r));
      }
    }

    ghost function Now(): State
      reads this
    {
      State(BooksOf(ledger), payments)
    }

    ghost predicate Valid()
      reads this
    {
      ValidBooks(BooksOf(ledger)) && AllSound(payments)
    }

    // ---- message handlers

    /** An invoice of a user has been paid in BTC. */
    method Deposit(uid: UserId, sats: int, known: bool, db: Db) returns (ghost act: Action)
      requires Valid()
      modifies this
      ensures Valid() && Step(old(Now()), act, Now()) && act.msg == BankSteps.Deposit(uid, sats)
      ensures act.entries != [] <==> known && sats > 0 && Works(db)
      ensures Changed(old(Now()).books, Now().books,
                      if act.entries == [] then []
                      else [Move(BankSide(External), Only(User(uid)), BTC, Sats(sats))])
    {
      hide Step, Opened, ValidBooks, BooksOf, Put, AllSound, FromSats, Exchange, Copy, Posts, WellFormed;
      hide Changed, FiatDeposited, HasSwapped, Paid, Refunded, Describes, Pays;
      hide NextPayments, Leg, PutUser, PutDealer, PutBank, Enough, Matches;
      ghost var s := Now();
      OpenedSelf(s.books);
      act := Action(BankSteps.Deposit(uid, sats), s.books, [], false);
      PlainMessage(act.msg);
      QuietStep(s, act);
      if !known {
        return;
      }
      var value := FromSats(sats as real);
      SatsValue(sats);
      var r, inbound, liability;
      r := OpenUser(ledger, uid, s.books);
      r, inbound := UserDefault(r, uid, BTC, None, s.books);
      r, liability := BankDefault(r, BTC, External, s.books);
      ledger := r;
      act := act.(start := BooksOf(r));
      QuietStep(s, act);
      ghost var from, to := liability, inbound;
      SameCurrency(from, to, BTC);
      var ok;
      ok, liability, inbound := MakeTx(liability, inbound, value, db);
      if !ok {
        return;
      }
      act := act.(entries := Leg(Bank, from, User(uid), to, value.value));
      DepositPosts(uid, sats, act.start, from, to);
      PostedLeg(s, act, Bank, from, User(uid), to, value.value);
      ledger := PutUser(ledger, uid, inbound);
      ledger := PutBank(ledger, liability);
      DepositChanges(s, act, Now());
    }

    /** A deposit that the dealer has priced in fiat: BTC to the dealer, fiat from the dealer to the user. */
    method FiatDeposit(uid: UserId, c: Currency, amount: Money, rate: Rate, known: bool, db1: Db, db2: Db)
      returns (ghost act: Action)
      requires Valid() && WellFormed(BankSteps.FiatDeposit(uid, c, amount, rate))
      modifies this
      ensures Valid() && Step(old(Now()), act, Now()) && act.msg == BankSteps.FiatDeposit(uid, c, amount, rate)
      ensures act.entries != []
         <==> known && amount.value > 0.0 && Pays(amount, rate) && Works(db1) && Works(db2)
      ensures act.entries == [] ==> Changed(old(Now()).books, Now().books, [])
      ensures act.entries != [] ==> FiatDeposited(old(Now()).books, Now().books, uid, c, amount.value, rate)
    {
      hide Step, Opened, ValidBooks, BooksOf, Put, AllSound, FromSats, Exchange, Copy, Posts, WellFormed;
      hide Changed, FiatDeposited, HasSwapped, Paid, Refunded, Describes, Pays;
      hide NextPayments, Leg, PutUser, PutDealer, PutBank, Enough, Matches;
      ghost var s := Now();
      OpenedSelf(s.books);
      act := Action(BankSteps.FiatDeposit(uid, c, amount, rate), s.books, [], false);
      FiatDepositCurrencies(act.msg);
      PaysIff(amount, rate, c);
      QuietStep(s, act);
      if !known {
        return;
      }
      var r, inbound, fiat, btc, liability;
      r := OpenUser(ledger, uid, s.books);
      r, inbound := UserDefault(r, uid, c, None, s.books);
      r, fiat := DealerDefault(r, c, Internal, s.books);
      r, btc := DealerDefault(r, BTC, Internal, s.books);
      r, liability := BankDefault(r, BTC, External, s.books);
      ledger := r;
      act := act.(start := BooksOf(r));
      QuietStep(s, act);
      ghost var l0, b0, f0, u0 := liability, btc, fiat, inbound;
      SameCurrency(l0, b0, BTC);
      SameCurrency(f0, u0, c);
      var value := Exchange(amount, rate).money;
      var ok;
      ok, liability, btc := MakeTx(liability, btc, amount, db1);
      if !ok {
        return;
      }
      ok, fiat, inbound := MakeTx(fiat, inbound, value, db2);
      if !ok {
        return;
      }
      act := act.(entries := Leg(Bank, l0, Dealer, b0, amount.value) + Leg(Dealer, f0, User(uid), u0, value.value));
      FiatDepositPosts(uid, c, amount, rate, act.start, l0, b0, f0, u0);
      PostedTwoLegs(s, act, Bank, l0, Dealer, b0, amount.value, Dealer, f0, User(uid), u0, value.value);
      ledger := PutUser(ledger, uid, inbound);
      ledger := PutBank(ledger, liability);
      ledger := PutDealer(ledger, btc);
      ledger := PutDealer(ledger, fiat);
      FiatDepositChanges(s, act, Now());
    }

    /** A payment between two users. */
    method InternalTransfer(uid: UserId, to: UserId, c: Currency, amount: Money, summary: bool, db: Db)
      returns (ok: bool, ghost act: Action)
      requires Valid() && WellFormed(Transfer(uid, to, c, amount))
      modifies this
      ensures Valid() && Step(old(Now()), act, Now()) && act.msg == Transfer(uid, to, c, amount)
      ensures ok <==> act.entries != []
      ensures ok ==> uid != to && uid in old(ledger).users && amount.value > 0.0 && Works(db) && summary
      ensures Changed(old(Now()).books, Now().books,
                      if ok then [Move(Only(User(uid)), Only(User(to)), c, amount.value)] else [])
      ensures (uid != to && uid in old(ledger).users && amount.value > 0.0 && Works(db) && summary
               && Enough(act.start, uid, c, amount.value)) ==> ok
    {
      hide Step, Opened, ValidBooks, BooksOf, Put, AllSound, FromSats, Exchange, Copy, Posts, WellFormed;
      hide Changed, FiatDeposited, HasSwapped, Paid, Refunded, Describes, Pays;
      hide NextPayments, Leg, PutUser, PutDealer, PutBank, Enough, Matches;
      ghost var s := Now();
      OpenedSelf(s.books);
      act := Action(Transfer(uid, to, c, amount), s.books, [], false);
      QuietStep(s, act);
      if uid == to || uid !in ledger.users {
        return false, act;
      }
      var r, outbound, inbound;
      r, outbound := UserDefault(ledger, uid, c, None, s.books);
      r := OpenUser(r, to, s.books);
      r, inbound := UserDefault(r, to, c, None, s.books);
      ledger := r;
      act := act.(start := BooksOf(r));
      QuietStep(s, act);
      ghost var o0, i0 := outbound, inbound;
      SameCurrency(o0, i0, c);
      EnoughFor(act.start, uid, c, amount.value, o0);
      if outbound.balance < amount.value {
        return false, act;
      }
      ok, outbound, inbound := MakeTx(outbound, inbound, amount, db);
      if !ok || !summary {
        return false, act;
      }
      act := act.(entries := Leg(User(uid), o0, User(to), i0, amount.value));
      TransferPosts(act.msg, act.start, o0, i0);
      PostedLeg(s, act, User(uid), o0, User(to), i0, amount.value);
      ledger := PutUser(ledger, to, inbound);
      ledger := PutUser(ledger, uid, outbound);
      TransferChanges(s, act, Now());
    }

    /** A swap the dealer has priced. */
    method Swap(uid: UserId, source: Currency, target: Currency, amount: Money, rate: Rate, available: bool,
                db1: Db, db2: Db)
      returns (ok: bool, ghost act: Action)
      requires Valid() && WellFormed(BankSteps.Swap(uid, source, target, amount, rate))
      modifies this
      ensures Valid() && Step(old(Now()), act, Now()) && act.msg == BankSteps.Swap(uid, source, target, amount, rate)
      ensures ok <==> act.entries != []
      ensures ok ==> source != target && available && uid in old(ledger).users && amount.value > 0.0
      ensures ok ==> Pays(amount, rate) && Works(db1) && Works(db2)
      ensures !ok ==> Changed(old(Now()).books, Now().books, [])
      ensures ok ==> HasSwapped(old(Now()).books, Now().books, uid, source, amount.value, rate, target)
      ensures (source != target && available && uid in old(ledger).users && amount.value > 0.0 && Pays(amount, rate)
               && Works(db1) && Works(db2) && Enough(act.start, uid, source, amount.value)) ==> ok
    {
      hide Step, Opened, ValidBooks, BooksOf, Put, AllSound, FromSats, Exchange, Copy, Posts, WellFormed;
      hide Changed, FiatDeposited, HasSwapped, Paid, Refunded, Describes, Pays;
      hide NextPayments, Leg, PutUser, PutDealer, PutBank, Enough, Matches;
      ghost var s := Now();
      OpenedSelf(s.books);
      act := Action(BankSteps.Swap(uid, source, target, amount, rate), s.books, [], false);
      QuietStep(s, act);
      if !available || uid !in ledger.users {
        return false, act;
      }
      var r, outbound, inbound;
      SwapCurrencies(act.msg);
      r, outbound := UserDefault(ledger, uid, source, None, s.books);
      if source == target {
        inbound := outbound;
      } else {
        r, inbound := UserDefault(r, uid, target, None, s.books);
        DifferentCurrencies(BooksOf(r), User(uid), outbound, source, inbound, target);
      }
      ledger := r;
      if outbound.id == inbound.id {
        act := act.(start := BooksOf(r));
        QuietStep(s, act);
        return false, act;
      }
      if outbound.balance < amount.value {
        r := OpenDealerPair(r, source, target, s.books);
        ledger := r;
        act := act.(start := BooksOf(r));
        QuietStep(s, act);
        EnoughFor(act.start, uid, source, amount.value, outbound);
        return false, act;
      }
      r, ok, act := SwapLegs(r, s, uid, source, target, amount, rate, outbound, inbound, db1, db2);
      ledger := r;
      if ok {
        SwapChanges(s, act, Now());
      } else {
        QuietChangesNothing(s, act, Now());
      }
    }

    /** An invoice of the dealer has been paid: a settlement by the exchange, or money from outside.
        The copies are written back even when the transaction row could not be inserted. */
    method DealerDeposit(sats: int, settlement: bool, known: bool, db: Db) returns (ghost act: Action)
      requires Valid()
      modifies this
      ensures Valid() && Step(old(Now()), act, Now()) && act.msg == BankSteps.DealerDeposit(sats, settlement)
      ensures act.entries != [] <==> known && sats > 0 && db.conn
      ensures Changed(old(Now()).books, Now().books,
                      if act.entries == [] then []
                      else [Move(if settlement then DealerSide(External) else BankSide(External),
                                 DealerSide(Internal), BTC, Sats(sats))])
    {
      hide Step, Opened, ValidBooks, BooksOf, Put, AllSound, FromSats, Exchange, Copy, Posts, WellFormed;
      hide Changed, FiatDeposited, HasSwapped, Paid, Refunded, Describes, Pays;
      hide NextPayments, Leg, PutUser, PutDealer, PutBank, Enough, Matches, ValidLaunch, Total, Debit, Sound;
      hide LaunchFeeLimit, Excess, EstimatedFee, Parity;
      ghost var s := Now();
      OpenedSelf(s.books);
      act := Action(BankSteps.DealerDeposit(sats, settlement), s.books, [], false);
      PlainMessage(act.msg);
      QuietStep(s, act);
      if !known {
        return;
      }
      var r, inbound, outbound;
      r, inbound := DealerDefault(ledger, BTC, Internal, s.books);
      if settlement {
        r, outbound := DealerDefault(r, BTC, External, s.books);
      } else {
        r, outbound := BankDefault(r, BTC, External, s.books);
      }
      ledger := r;
      act := act.(start := BooksOf(r));
      QuietStep(s, act);
      ghost var o0, i0, from := outbound, inbound, if settlement then Dealer else Bank;
      SameCurrency(o0, i0, BTC);
      KindsOf(o0, BTC, External);
      KindsOf(i0, BTC, Internal);
      if settlement {
        KindsDiffer(act.start, Dealer, o0, i0);
      }
      var value := FromSats(sats as real);
      SatsValue(sats);
      var ok;
      ok, outbound, inbound := MakeTx(outbound, inbound, value, db);
      if value.value > 0.0 && db.conn {
        act := act.(entries := Leg(from, o0, Dealer, i0, value.value));
        DealerDepositPosts(sats, settlement, act.start, o0, i0);
        PostedLeg(s, act, from, o0, Dealer, i0, value.value);
      } else {
        PutSame(act.start, Dealer, inbound);
        PutSame(act.start, from, outbound);
      }
      ledger := PutDealer(ledger, inbound);
      if settlement {
        ledger := PutDealer(ledger, outbound);
      } else {
        ledger := PutBank(ledger, outbound);
      }
      if act.entries != [] {
        DealerDepositChanges(s, act, Now());
      }
    }

    /** The dealer has an invoice paid for it, to the exchange or to the outside. */
    method PayDealerInvoice(msats: nat, external: bool, paid: bool, db: Db) returns (ghost act: Action)
      requires Valid()
      modifies this
      ensures Valid() && Step(old(Now()), act, Now()) && act.msg == DealerInvoice(msats, external)
      ensures act.entries != [] <==> paid && msats > 0 && Works(db)
      ensures Changed(old(Now()).books, Now().books,
                      if act.entries == [] then []
                      else [Move(DealerSide(Internal), if external then BankSide(External) else DealerSide(External),
                                 BTC, Msats(msats))])
    {
      hide Step, Opened, ValidBooks, BooksOf, Put, AllSound, FromSats, Exchange, Copy, Posts, WellFormed;
      hide Changed, FiatDeposited, HasSwapped, Paid, Refunded, Describes, Pays;
      hide NextPayments, Leg, PutUser, PutDealer, PutBank, Enough, Matches, ValidLaunch, Total, Debit, Sound;
      hide LaunchFeeLimit, Excess, EstimatedFee, Parity;
      ghost var s := Now();
      OpenedSelf(s.books);
      act := Action(DealerInvoice(msats, external), s.books, [], false);
      PlainMessage(act.msg);
      QuietStep(s, act);
      if !paid {
        return;
      }
      var r, inbound, outbound;
      if external {
        r, inbound := BankDefault(ledger, BTC, External, s.books);
      } else {
        r, inbound := DealerDefault(ledger, BTC, External, s.books);
      }
      r, outbound := DealerDefault(r, BTC, Internal, s.books);
      ledger := r;
      act := act.(start := BooksOf(r));
      QuietStep(s, act);
      ghost var o0, i0, to := outbound, inbound, if external then Bank else Dealer;
      SameCurrency(o0, i0, BTC);
      KindsOf(i0, BTC, External);
      KindsOf(o0, BTC, Internal);
      if !external {
        KindsDiffer(act.start, Dealer, o0, i0);
      }
      var value := FromSats(msats as real / 1000.0);
      MsatsValue(msats);
      var ok;
      ok, outbound, inbound := MakeTx(outbound, inbound, value, db);
      if !ok {
        return;
      }
      act := act.(entries := Leg(Dealer, o0, to, i0, value.value));
      DealerInvoicePosts(msats, external, act.start, o0, i0);
      PostedLeg(s, act, Dealer, o0, to, i0, value.value);
      if external {
        ledger := PutBank(ledger, inbound);
      } else {
        ledger := PutDealer(ledger, inbound);
      }
      ledger := PutDealer(ledger, outbound);
      DealerInvoiceChanges(s, act, Now());
    }

    /** An invoice outside the platform is to be paid: debit the payer for the worst case, then hand the
        payment to the node. `admitted` stands for the checks and lookups before the debit. */
    method Pay(uid: UserId, c: Currency, quoted: Rate, sats: nat, margin: Decimal, probed: Option<int>,
               admitted: bool, summary: bool, db1: Db, db2: Db)
      returns (ghost act: Action)
      requires Valid() && margin >= 0.0 && (probed.Some? ==> probed.value >= 0)
      requires c == BTC || (IsFiat(c) && quoted.base == c && quoted.quote == BTC && quoted.value > 0.0)
      modifies this
      ensures Valid() && Step(old(Now()), act, Now())
      ensures act.msg == BankSteps.Pay(NewLaunch(uid, c, quoted, sats, margin, probed))
      ensures Describes(act.msg.launch, uid, c, quoted, sats, margin, probed)
      ensures act.entries == [] ==> Changed(old(Now()).books, Now().books, [])
      ensures act.entries != [] ==> Paid(old(Now()).books, Now().books, act.msg.launch)
      ensures act.launched <==> act.entries != [] && summary
      ensures act.entries != [] ==> admitted && uid in old(ledger).users && Works(db1) && (c != BTC ==> Works(db2))
      ensures ValidLaunch(act.msg.launch)
      ensures (admitted && uid in old(ledger).users && Works(db1) && (c != BTC ==> Works(db2)) && Sound(act.msg.launch)
               && Enough(act.start, uid, c, Debit(act.msg.launch).value)) ==> act.entries != []
    {
      hide Step, Opened, ValidBooks, BooksOf, Put, AllSound, FromSats, Exchange, Copy, Posts, WellFormed;
      hide Changed, FiatDeposited, HasSwapped, Paid, Refunded, Describes, Pays;
      hide NextPayments, Leg, PutUser, PutDealer, PutBank, Enough, Matches, ValidLaunch, Total, Debit, Sound;
      hide LaunchFeeLimit, Excess, EstimatedFee, Parity;
      var l := NewLaunch(uid, c, quoted, sats, margin, probed);
      NewLaunchIsValid(uid, c, quoted, sats, margin, probed);
      NewLaunchDescribes(uid, c, quoted, sats, margin, probed);
      ghost var s := Now();
      OpenedSelf(s.books);
      act := Action(BankSteps.Pay(l), s.books, [], false);
      PayMessage(l);
      if uid !in ledger.users {
        QuietStep(s, act);
        return;
      }
      var r, outbound, liability, ok;
      r, outbound := UserDefault(ledger, uid, c, None, s.books);
      ledger := r;
      act := act.(start := BooksOf(r));
      if !admitted {
        QuietStep(s, act);
        return;
      }
      EnoughFor(act.start, uid, c, Debit(l).value, outbound);
      if outbound.balance < Debit(l).value {
        QuietStep(s, act);
        return;
      }
      r, liability := BankDefault(r, BTC, External, s.books);
      ledger := r;
      act := act.(start := BooksOf(r));
      if c != BTC {
        r, ok, act := DebitFiat(r, s, l, outbound, liability, summary, db1, db2);
      } else {
        r, ok, act := DebitBtc(r, s, l, outbound, liability, summary, db1);
      }
      ledger := r;
      if ok && summary {
        payments := InFlight(payments.launches + multiset{l});
      }
      LaunchedPayments(s, act);
      if act.entries != [] {
        PayChanges(s, act, Now());
      } else {
        QuietChangesNothing(s, act, Now());
      }
    }

    /** The node paid: what it did not charge of the estimate goes to the dealer. It panics on a fee above
        the estimate, never on one within the limit given to the node. */
    method PaymentSettled(l: Launch, fee: nat, ready: bool, db: Db) returns (panicked: bool, ghost act: Action)
      requires Valid() && l in payments.launches
      modifies this
      ensures panicked <==> ready && l.uid in old(ledger).users && Sats(fee) > l.estimate.value
      ensures ValidLaunch(l) && (fee <= LaunchFeeLimit(l) ==> !panicked)
      ensures Valid() && Step(old(Now()), act, Now()) && act.msg == Settled(l, fee)
      ensures act.entries != [] <==> ready && l.uid in old(ledger).users && Sats(fee) < l.estimate.value && Works(db)
      ensures Changed(old(Now()).books, Now().books,
                      if act.entries == [] then []
                      else [Move(BankSide(External), DealerSide(Internal), BTC, l.estimate.value - Sats(fee))])
    {
      hide Step, Opened, ValidBooks, BooksOf, Put, AllSound, FromSats, Exchange, Copy, Posts, WellFormed;
      hide Changed, FiatDeposited, HasSwapped, Paid, Refunded, Describes, Pays;
      hide NextPayments, Leg, PutUser, PutDealer, PutBank, Enough, Matches, ValidLaunch, Total, Debit, Sound;
      hide LaunchFeeLimit, Excess, EstimatedFee, Parity;
      ghost var s := Now();
      OpenedSelf(s.books);
      act := Action(Settled(l, fee), s.books, [], false);
      panicked := false;
      FlightIsSound(payments, l);
      WithinLimit(l, fee);
      ResultMessage(act.msg);
      payments := InFlight(payments.launches - multiset{l});
      SettledPayments(s, act);
      if !ready {
        QuietStep(s, act);
        return;
      }
      var r, liability, inbound, btc;
      r, liability := BankDefault(ledger, BTC, External, s.books);
      ledger := r;
      act := act.(start := BooksOf(r));
      if l.uid !in ledger.users {
        QuietStep(s, act);
        return;
      }
      r, inbound := UserDefault(r, l.uid, l.currency, None, s.books);
      r, btc := DealerDefault(r, BTC, Internal, s.books);
      ledger := r;
      act := act.(start := BooksOf(r));
      ghost var l0, b0 := liability, btc;
      SameCurrency(l0, b0, BTC);
      var excess := Excess(l, fee);
      if excess.value < 0.0 {
        QuietStep(s, act);
        return true, act;
      }
      if excess.value > 0.0 {
        var ok;
        ok, liability, btc := MakeTx(liability, btc, NewMoney(BTC, excess.value), db);
        if !ok {
          QuietStep(s, act);
          return;
        }
        act := act.(entries := Leg(Bank, l0, Dealer, b0, excess.value));
        SettledPosts(l, fee, act.start, l0, b0);
        PostedLeg(s, act, Bank, l0, Dealer, b0, excess.value);
        ledger := PutBank(ledger, liability);
        ledger := PutDealer(ledger, btc);
        SettledChanges(s, act, Now());
      } else {
        QuietStep(s, act);
      }
    }

    /** The node failed to pay: give everything back. */
    method PaymentFailed(l: Launch, ready: bool, db1: Db, db2: Db) returns (ghost act: Action)
      requires Valid() && l in payments.launches
      modifies this
      ensures Valid() && Step(old(Now()), act, Now()) && act.msg == Failed(l)
      ensures act.entries != []
         <==> ready && l.uid in old(ledger).users && Works(db1) && (l.currency != BTC ==> Works(db2))
      ensures act.entries == [] ==> Changed(old(Now()).books, Now().books, [])
      ensures act.entries != [] ==> Refunded(old(Now()).books, Now().books, l)
    {
      hide Step, Opened, ValidBooks, BooksOf, Put, AllSound, FromSats, Exchange, Copy, Posts, WellFormed;
      hide Changed, FiatDeposited, HasSwapped, Paid, Refunded, Describes, Pays;
      hide NextPayments, Leg, PutUser, PutDealer, PutBank, Enough, Matches, ValidLaunch, Total, Debit, Sound;
      hide LaunchFeeLimit, Excess, EstimatedFee, Parity;
      ghost var s := Now();
      OpenedSelf(s.books);
      act := Action(Failed(l), s.books, [], false);
      FlightIsSound(payments, l);
      ResultMessage(act.msg);
      payments := InFlight(payments.launches - multiset{l});
      SettledPayments(s, act);
      if !ready {
        QuietStep(s, act);
        return;
      }
      var r, liability, inbound, btc;
      r, liability := BankDefault(ledger, BTC, External, s.books);
      ledger := r;
      act := act.(start := BooksOf(r));
      if l.uid !in ledger.users {
        QuietStep(s, act);
        return;
      }
      r, inbound := UserDefault(r, l.uid, l.currency, None, s.books);
      r, btc := DealerDefault(r, BTC, Internal, s.books);
      if l.currency != BTC {
        r, act := RefundFiat(r, s, l, liability, inbound, btc, db1, db2);
      } else {
        r, act := RefundBtc(r, s, l, liability, inbound, db1);
      }
      ledger := r;
      if act.entries != [] {
        FailedChanges(s, act, Now());
      } else {
        QuietChangesNothing(s, act, Now());
      }
    }

    /** The exchange has reported the dealer's karma balance; the users' totals may be unavailable. */
    method KarmaBalance(karma: Decimal, totals: map<UserId, Decimal>, available: bool)
      returns (panicked: bool, ghost act: Action)
      requires Valid()
      modifies this
      ensures Valid() && act.msg == Karma(karma, totals)
      ensures panicked <==> available && Undistributed(old(Now()).books, karma) > 0.0 && !Divisible(totals)
      ensures panicked ==> KarmaMoves(old(Now()).books, Now().books)
      ensures !panicked ==> Step(old(Now()), act, Now())
      ensures !available ==> Now() == old(Now())
      ensures available && !panicked ==> SharesKarma(old(Now()).books, act.msg, Now().books)
    {
      hide Step, ValidBooks, BooksOf, AllSound, NextPayments, SharesKarma, Undistributed, Divisible, KarmaMoves;
      ghost var s := Now();
      OpenedSelf(s.books);
      act := Action(Karma(karma, totals), s.books, [], false);
      QuietStep(s, act);
      panicked := false;
      if !available {
        return;
      }
      ledger, panicked := ReportKarma(ledger, karma, totals);
      if !panicked {
        KarmaStep(s, act, BooksOf(ledger));
      }
    }

    /** A transfer ordered on the command line, with no balance check. The insurance fund trades only
        with the bank's liability account. */
    method CliTransfer(outUid: UserId, outId: AccountId, inUid: UserId, inId: AccountId,
                       amount: Decimal, c: Currency, db: Db)
      returns (ok: bool, ghost act: Action)
      requires Valid()
      modifies this
      ensures Valid() && Step(old(Now()), act, Now())
      ensures act.msg.Cli? && act.msg.currency == c && act.msg.amount == NewMoney(c, amount)
      ensures ok <==> act.entries != []
      ensures ok ==> NewMoney(c, amount).value > 0.0 && Works(db)
      ensures ok ==> |act.entries| == 2 && act.entries[0].id == outId && act.entries[1].id == inId
      ensures !ok ==> Changed(old(Now()).books, Now().books, [])
      ensures ok ==> HasMoved(old(Now()).books, Now().books, act.msg)
      ensures forall o, i :: Names(old(ledger), outUid, outId, o) && Names(old(ledger), inUid, inId, i) && ok ==>
                act.msg.outbound == o.owner && act.msg.inbound == i.owner
      ensures forall o, i :: Names(old(ledger), outUid, outId, o) && Names(old(ledger), inUid, inId, i) ==>
                (ok <==> amount >= 0.0 && !(outUid == inUid && outId == inId) && Works(db)
                         && (o.owner == Insurance ==> i.owner == Bank) && (i.owner == Insurance ==> o.owner == Bank)
                         && o.account.currency == i.account.currency == c && NewMoney(c, amount).value > 0.0)
    {
      hide Step, Opened, ValidBooks, BooksOf, Put, AllSound, Copy, Posts, WellFormed, NextPayments, NewMoney;
      hide Resolves, KeepsCopies, Names, Changed, HasMoved;
      ghost var s := Now();
      OpenedSelf(s.books);
      act := Action(Cli(User(outUid), User(inUid), c, NewMoney(c, amount)), s.books, [], false);
      CliMessage(User(outUid), User(inUid), c, amount);
      QuietStep(s, act);
      if amount < 0.0 || (outUid == inUid && outId == inId) {
        return false, act;
      }
      var r, found, from, to;
      r, found, to := Resolve(ledger, inUid, inId, s.books);
      ghost var resolved := r;
      var also;
      r, also, from := Resolve(r, outUid, outId, s.books);
      ledger := r;
      act := act.(start := BooksOf(r));
      QuietStep(s, act);
      if !found || !also {
        return false, act;
      }
      ResolvesKept(resolved, r, inUid, inId, to);
      if (to.owner == Insurance && from.owner != Bank) || (from.owner == Insurance && to.owner != Bank) {
        return false, act;
      }
      if from.account.currency != c || from.account.currency != to.account.currency {
        return false, act;
      }
      SlotIds(r, outUid, outId, from, inUid, inId, to);
      r, ok, act := PostCli(r, s, outUid, outId, from, inUid, inId, to, NewMoney(c, amount), db);
      ledger := r;
      if ok {
        CliChanges(s, act, Now());
      } else {
        QuietChangesNothing(s, act, Now());
      }
    }

    /** Balance requests and the like open accounts and move nothing. */
    method GetBalances(uid: UserId, available: seq<Currency>) returns (ghost act: Action)
      requires Valid()
      modifies this
      ensures Valid() && Step(old(Now()), act, Now()) && act.msg == Inquiry && act.entries == []
      ensures Changed(old(Now()).books, Now().books, [])
      ensures uid in ledger.users && forall c :: c in available ==> HasAccount(Now().books, User(uid), c, Internal)
    {
      hide Step, Opened, ValidBooks, BooksOf, AllSound, Copy, WellFormed, NextPayments, Matches, KeepsCopies;
      hide HasAccount, Changed;
      ghost var s := Now();
      OpenedSelf(s.books);
      act := Action(Inquiry, s.books, [], false);
      PlainMessage(act.msg);
      var r := OpenUser(ledger, uid, s.books);
      for i := 0 to |available|
        modifies {}
        invariant uid in r.users && Opened(s.books, BooksOf(r))
        invariant forall c :: c in available[..i] ==> HasAccount(BooksOf(r), User(uid), c, Internal)
      {
        var a;
        ghost var before := BooksOf(r);
        r, a := UserDefault(r, uid, available[i], Some(Internal), s.books);
        AccountsStay(before, BooksOf(r), User(uid), a, available[i], available[..i]);
        assert available[..i + 1] == available[..i] + [available[i]];
      }
      assert available[..|available|] == available;
      ledger := r;
      act := act.(start := BooksOf(r));
      QuietStep(s, act);
    }
  }
}
