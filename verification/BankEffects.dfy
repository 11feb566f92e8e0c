/**
 What each bank message does to whom, in plain amounts: which place gives, which takes, how much, and that no
 other place changes in any currency.
 */
module BankEffects {
  import opened Decimals
  import opened Money
  import opened Sums
  import opened Ledger
  import opened BankSteps
  import opened BankRuns
  import opened BankTheorems
  import opened Fees

  /** An amount taken from one place and put into another. Places are views of disjoint sets of accounts. */
  datatype Move = Move(source: View, target: View, currency: Currency, amount: Decimal)

  /** A user, one side of the dealer, one side of the bank, or the insurance fund. */
  predicate IsPlace(v: View) {
    match v
    case Only(o) => o.User? || o == Insurance
    case DealerSide(_) => true
    case BankSide(_) => true
    case _ => false
  }

  function Inflow(m: Move, v: View, c: Currency): Decimal {
    if c != m.currency then 0.0
    else (if v == m.target then m.amount else 0.0) - (if v == m.source then m.amount else 0.0)
  }

  function InflowOfAll(moves: seq<Move>, v: View, c: Currency): Decimal {
    if moves == [] then 0.0 else Inflow(moves[0], v, c) + InflowOfAll(moves[1..], v, c)
  }

  /** The moves, and nothing else, turn the books `b` into the books `t`. */
  ghost predicate Changed(b: Books, t: Books, moves: seq<Move>) {
    forall v, c | IsPlace(v) :: Tally(t, v, c) == Tally(b, v, c) + InflowOfAll(moves, v, c)
  }

  function Place(e: Entry): View {
    match e.owner
    case User(_) => Only(e.owner)
    case Insurance => Only(e.owner)
    case Dealer => DealerSide(e.kind)
    case Bank => BankSide(e.kind)
  }

  lemma InflowOfOne(m: Move, v: View, c: Currency)
    ensures InflowOfAll([m], v, c) == Inflow(m, v, c)
  {
    hide Inflow;
    assert [m][1..] == [];
    assert InflowOfAll([m][1..], v, c) == 0.0;
  }

  lemma InflowOfTwo(m: Move, n: Move, v: View, c: Currency)
    ensures InflowOfAll([m, n], v, c) == Inflow(m, v, c) + Inflow(n, v, c)
  {
    hide Inflow;
    assert [m, n][1..] == [n];
    InflowOfOne(n, v, c);
  }

  /** The two entries of a leg are one move. */
  lemma LegMoves(es: seq<Entry>, outbound: Owner, inbound: Owner, d: Currency, x: Decimal, v: View, c: Currency)
    requires IsLeg(es, outbound, inbound, d, x) && IsPlace(v)
    ensures Net(es, v, c) == Inflow(Move(Place(es[0]), Place(es[1]), d, x), v, c)
  {
    hide Net;
    NetOfPair(es, v, c);
  }

  lemma StepNet(s: State, a: Action, t: State, v: View, c: Currency)
    requires Step(s, a, t) && !a.msg.Karma?
    ensures Tally(t.books, v, c) == Tally(s.books, v, c) + Net(a.entries, v, c)
  {
    hide Tally, Opens, OpensInternal, Posts, WellFormed, ValidBooks, Net, Fits, NextPayments;
    OpensTally(s.books, a.start, v, c);
    AdjustAllTally(a.start, a.entries, v, c);
  }

  lemma OneLegChanges(s: State, a: Action, t: State, outbound: Owner, inbound: Owner, d: Currency, x: Decimal)
    requires Step(s, a, t) && !a.msg.Karma? && IsLeg(a.entries, outbound, inbound, d, x)
    ensures Changed(s.books, t.books, [Move(Place(a.entries[0]), Place(a.entries[1]), d, x)])
  {
    hide Step, Tally, Net, Place, IsLeg, Inflow;
    assert |a.entries| == 2 by {
      LegLength(a.entries, outbound, inbound, d, x);
    }
    forall v, c | IsPlace(v)
      ensures Tally(t.books, v, c)
           == Tally(s.books, v, c) + InflowOfAll([Move(Place(a.entries[0]), Place(a.entries[1]), d, x)], v, c)
    {
      StepNet(s, a, t, v, c);
      LegMoves(a.entries, outbound, inbound, d, x, v, c);
      InflowOfOne(Move(Place(a.entries[0]), Place(a.entries[1]), d, x), v, c);
    }
  }

  lemma LegLength(es: seq<Entry>, outbound: Owner, inbound: Owner, d: Currency, x: Decimal)
    requires IsLeg(es, outbound, inbound, d, x)
    ensures |es| == 2
  {
  }

  lemma TwoLegsChange(s: State, a: Action, t: State, o: Owner, i: Owner, d: Currency, x: Decimal,
                      p: Owner, j: Owner, e: Currency, y: Decimal)
    requires Step(s, a, t) && !a.msg.Karma? && |a.entries| == 4
    requires IsLeg(a.entries[..2], o, i, d, x) && IsLeg(a.entries[2..], p, j, e, y)
    ensures Changed(s.books, t.books, [Move(Place(a.entries[0]), Place(a.entries[1]), d, x),
                                       Move(Place(a.entries[2]), Place(a.entries[3]), e, y)])
  {
    hide Step, Tally, Net, Place, IsLeg, Inflow;
    var m := Move(Place(a.entries[0]), Place(a.entries[1]), d, x);
    var n := Move(Place(a.entries[2]), Place(a.entries[3]), e, y);
    forall v, c | IsPlace(v)
      ensures Tally(t.books, v, c) == Tally(s.books, v, c) + InflowOfAll([m, n], v, c)
    {
      StepNet(s, a, t, v, c);
      assert a.entries == a.entries[..2] + a.entries[2..];
      NetConcat(a.entries[..2], a.entries[2..], v, c);
      LegMoves(a.entries[..2], o, i, d, x, v, c);
      LegMoves(a.entries[2..], p, j, e, y, v, c);
      InflowOfTwo(m, n, v, c);
    }
  }

  /** A message that posts nothing changes nothing. */
  lemma QuietChangesNothing(s: State, a: Action, t: State)
    requires Step(s, a, t) && !a.msg.Karma? && a.entries == []
    ensures Changed(s.books, t.books, [])
  {
    hide Step, Tally;
    forall v, c | IsPlace(v)
      ensures Tally(t.books, v, c) == Tally(s.books, v, c)
    {
      StepNet(s, a, t, v, c);
    }
  }

  lemma PostedLegs(s: State, a: Action, t: State)
    requires Step(s, a, t) && !a.msg.Karma? && a.entries != []
    ensures WellFormed(a.msg) && Sided(a.msg, a.entries) && PostsLegs(a.msg, a.start, a.entries)
  {
  }

  // ---- amounts

  /** One hundred-millionth of a bitcoin each. */
  function Sats(n: int): Decimal {
    n as real / 100_000_000.0
  }

  lemma SatsValue(n: int)
    ensures FromSats(n as real).value == Sats(n)
  {
    hide FromSats;
    SatsRoundTrip(n);
  }

  /** A thousandth of a sat is ten of the smallest units of BTC. */
  function Msats(n: int): Decimal {
    n as real / 100_000_000_000.0
  }

  lemma MsatsValue(n: int)
    ensures FromSats(n as real / 1000.0).value == Msats(n)
  {
    WholeBy(Msats(n), Scale(BTC), 10 * n);
    assert n as real / 1000.0 / SATS_IN_BITCOIN as real == Msats(n);
  }

  /** `x` in `c` is what an amount `y` of the rate's other currency is worth: the product with the rate, or with
      the inverse of the rate cut to twelve places. */
  ghost predicate Converts(y: Decimal, from: Currency, r: Rate, x: Decimal, c: Currency) {
    if from == r.base then c == r.quote && CutTo(x, Product(y, r.value), c)
    else
      && c == r.base && from == r.quote && r.value != 0.0
      && exists w :: CutRate(w, Reciprocal(r.value)) && CutTo(x, Product(y, w), c)
  }

  lemma ExchangeConverts(m: Money, r: Rate, c: Currency)
    requires Connects(r, m.currency, c)
    ensures Exchange(m, r).Ok? && Converts(m.value, m.currency, r, Exchange(m, r).money.value, c)
  {
    hide Cut, Unit, Whole, Product, Reciprocal, NewMoney, NewRate, RateUnit;
    ExchangedValue(m, r);
    assert Normal(Exchange(m, r).money);
    if m.currency != r.base {
      InverseIsWhole(r);
    }
  }

  lemma InverseIsWhole(r: Rate)
    requires r.value != 0.0
    ensures Whole(Inverse(r).value, RATE_SCALE)
  {
    hide NewRate, Whole, Cut;
    RateIsCut(r.quote, r.base, Reciprocal(r.value));
  }

  // ---- the messages

  lemma DepositChanges(s: State, a: Action, t: State)
    requires Step(s, a, t) && a.msg.Deposit? && a.entries != []
    ensures Changed(s.books, t.books, [Move(BankSide(External), Only(User(a.msg.uid)), BTC, Sats(a.msg.sats))])
  {
    hide Step, Changed, FromSats;
    PostedLegs(s, a, t);
    SatsValue(a.msg.sats);
    OneLegChanges(s, a, t, Bank, User(a.msg.uid), BTC, Sats(a.msg.sats));
  }

  /** The BTC goes to the dealer and the user gets its worth from the dealer. */
  ghost predicate FiatDeposited(b: Books, t: Books, uid: UserId, c: Currency, btc: Decimal, r: Rate) {
    exists x :: Converts(btc, BTC, r, x, c)
             && Changed(b, t, [Move(BankSide(External), DealerSide(Internal), BTC, btc),
                               Move(DealerSide(Internal), Only(User(uid)), c, x)])
  }

  lemma FiatDepositChanges(s: State, a: Action, t: State)
    requires Step(s, a, t) && a.msg.FiatDeposit? && a.entries != []
    ensures FiatDeposited(s.books, t.books, a.msg.uid, a.msg.currency, a.msg.amount.value, a.msg.rate)
  {
    hide Step, Changed, Exchange, Converts, Normal;
    PostedLegs(s, a, t);
    var m := a.msg;
    ExchangeConverts(m.amount, m.rate, m.currency);
    var x := Exchange(m.amount, m.rate).money.value;
    TwoLegsChange(s, a, t, Bank, Dealer, BTC, m.amount.value, Dealer, User(m.uid), m.currency, x);
  }

  /** What the exchange pays out reduces the dealer's external BTC and adds to its internal BTC; money from
      outside comes from the bank. */
  lemma DealerDepositChanges(s: State, a: Action, t: State)
    requires Step(s, a, t) && a.msg.DealerDeposit? && a.entries != []
    ensures Changed(s.books, t.books, [Move(if a.msg.settlement then DealerSide(External) else BankSide(External),
                                            DealerSide(Internal), BTC, Sats(a.msg.sats))])
  {
    hide Step, Changed, FromSats;
    PostedLegs(s, a, t);
    SatsValue(a.msg.sats);
    OneLegChanges(s, a, t, if a.msg.settlement then Dealer else Bank, Dealer, BTC, Sats(a.msg.sats));
  }

  /** Internal BTC of the dealer pays the invoice, to the outside by way of the bank or to the exchange. */
  lemma DealerInvoiceChanges(s: State, a: Action, t: State)
    requires Step(s, a, t) && a.msg.DealerInvoice? && a.entries != []
    ensures Changed(s.books, t.books,
                    [Move(DealerSide(Internal), if a.msg.external then BankSide(External) else DealerSide(External),
                          BTC, Msats(a.msg.msats))])
  {
    hide Step, Changed, FromSats;
    PostedLegs(s, a, t);
    MsatsValue(a.msg.msats);
    OneLegChanges(s, a, t, Dealer, if a.msg.external then Bank else Dealer, BTC, Msats(a.msg.msats));
  }

  lemma TransferChanges(s: State, a: Action, t: State)
    requires Step(s, a, t) && a.msg.Transfer? && a.entries != []
    ensures a.msg.uid != a.msg.to
    ensures Changed(s.books, t.books,
                    [Move(Only(User(a.msg.uid)), Only(User(a.msg.to)), a.msg.currency, a.msg.amount.value)])
  {
    hide Step, Changed, Normal;
    PostedLegs(s, a, t);
    OneLegChanges(s, a, t, User(a.msg.uid), User(a.msg.to), a.msg.currency, a.msg.amount.value);
  }

  /** The user's amount goes to the dealer and its worth comes back. */
  ghost predicate HasSwapped(b: Books, t: Books, uid: UserId, source: Currency, y: Decimal, r: Rate, target: Currency) {
    exists x :: Converts(y, source, r, x, target)
             && Changed(b, t, [Move(Only(User(uid)), DealerSide(Internal), source, y),
                               Move(DealerSide(Internal), Only(User(uid)), target, x)])
  }

  lemma SwapChanges(s: State, a: Action, t: State)
    requires Step(s, a, t) && a.msg.Swap? && a.entries != []
    ensures HasSwapped(s.books, t.books, a.msg.uid, a.msg.source, a.msg.amount.value, a.msg.rate, a.msg.target)
  {
    hide Step, Changed, Exchange, Converts, Normal;
    PostedLegs(s, a, t);
    var m := a.msg;
    ExchangeConverts(m.amount, m.rate, m.target);
    var x := Exchange(m.amount, m.rate).money.value;
    TwoLegsChange(s, a, t, User(m.uid), Dealer, m.source, m.amount.value, Dealer, User(m.uid), m.target, x);
  }

  /** The payer's charge for an invoice and a fee estimate together owed in BTC. */
  ghost predicate Charges(l: Launch, x: Decimal) {
    var owed := l.invoice.value + l.estimate.value;
    if l.currency == BTC then x == owed else Converts(owed, BTC, l.rate, x, l.currency)
  }

  lemma DebitIsCharge(l: Launch)
    requires ValidLaunch(l)
    ensures Charges(l, Debit(l).value) && Total(l).value == l.invoice.value + l.estimate.value
    ensures l.currency == BTC ==> Debit(l) == Total(l)
  {
    hide Exchange, Converts, FromBtc, Parity;
    TotalIsExact(l);
    if l.currency == BTC {
      BtcDebit(l);
    } else {
      ExchangeConverts(Total(l), l.rate, l.currency);
    }
  }

  /** What the dealer and the bank see of a payment: a fiat payer's fiat against the dealer's BTC. */
  function PaymentMoves(l: Launch, x: Decimal): seq<Move> {
    var owed := l.invoice.value + l.estimate.value;
    if l.currency == BTC then [Move(Only(User(l.uid)), BankSide(External), BTC, owed)]
    else [Move(Only(User(l.uid)), DealerSide(Internal), l.currency, x),
          Move(DealerSide(Internal), BankSide(External), BTC, owed)]
  }

  function RefundMoves(l: Launch, x: Decimal): seq<Move> {
    var owed := l.invoice.value + l.estimate.value;
    if l.currency == BTC then [Move(BankSide(External), Only(User(l.uid)), BTC, owed)]
    else [Move(BankSide(External), DealerSide(Internal), BTC, owed),
          Move(DealerSide(Internal), Only(User(l.uid)), l.currency, x)]
  }

  ghost predicate Paid(b: Books, t: Books, l: Launch) {
    exists x :: Charges(l, x) && Changed(b, t, PaymentMoves(l, x))
  }

  ghost predicate Refunded(b: Books, t: Books, l: Launch) {
    exists x :: Charges(l, x) && Changed(b, t, RefundMoves(l, x))
  }

  lemma PayChanges(s: State, a: Action, t: State)
    requires Step(s, a, t) && a.msg.Pay? && a.entries != []
    ensures Paid(s.books, t.books, a.msg.launch)
  {
    hide Step, Changed, Total, Debit, Charges, Covered, WholeSats;
    PostedLegs(s, a, t);
    var l := a.msg.launch;
    DebitIsCharge(l);
    var x := Debit(l).value;
    if l.currency == BTC {
      OneLegChanges(s, a, t, User(l.uid), Bank, BTC, x);
    } else {
      TwoLegsChange(s, a, t, User(l.uid), Dealer, l.currency, x, Dealer, Bank, BTC, Total(l).value);
    }
    assert Changed(s.books, t.books, PaymentMoves(l, x));
  }

  /** The refund is the charge, move for move the other way. */
  lemma FailedChanges(s: State, a: Action, t: State)
    requires Step(s, a, t) && a.msg.Failed? && a.entries != []
    ensures Refunded(s.books, t.books, a.msg.launch)
  {
    hide Step, Changed, Total, Debit, Charges, WholeSats;
    PostedLegs(s, a, t);
    var l := a.msg.launch;
    DebitIsCharge(l);
    var x := Debit(l).value;
    if l.currency == BTC {
      OneLegChanges(s, a, t, Bank, User(l.uid), BTC, Total(l).value);
    } else {
      TwoLegsChange(s, a, t, Bank, Dealer, BTC, Total(l).value, Dealer, User(l.uid), l.currency, x);
    }
    assert Changed(s.books, t.books, RefundMoves(l, x));
  }

  /** The part of the estimate the node did not charge. */
  lemma SettledChanges(s: State, a: Action, t: State)
    requires Step(s, a, t) && a.msg.Settled? && a.entries != []
    ensures Changed(s.books, t.books, [Move(BankSide(External), DealerSide(Internal), BTC,
                                            a.msg.launch.estimate.value - Sats(a.msg.fee))])
  {
    hide Step, Changed, Total, FromSats, WholeSats;
    PostedLegs(s, a, t);
    var l := a.msg.launch;
    TotalIsExact(l);
    SatsValue(a.msg.fee);
    OneLegChanges(s, a, t, Bank, Dealer, BTC, l.estimate.value - Sats(a.msg.fee));
  }

  // ---- karma

  /** The user's karma grew by the exact amount cut to eight places, if that is positive. */
  ghost predicate Received(b: Books, t: Books, u: UserId, exact: Decimal) {
    exists g :: CutTo(g, exact, KKP) && UserKarma(t, u) == UserKarma(b, u) + if g > 0.0 then g else 0.0
  }

  /** The report, cut to eight places, becomes minus the dealer's external karma; what of it the users do not have
      yet is shared among the users with totals, each in proportion, and nobody else receives any. */
  lemma KarmaChanges(b: Books, m: Msg, after: Books)
    requires m.Karma? && SharesKarma(b, m, after)
    ensures CutTo(-Tally(after, DealerSide(External), KKP), m.karma, KKP)
    ensures CutTo(Undistributed(b, m.karma), -Tally(after, DealerSide(External), KKP) - Tally(b, Holders, KKP), KKP)
    ensures Undistributed(b, m.karma) > 0.0 ==>
              forall u :: u in m.totals ==>
                Sum(m.totals) != 0.0
                && Received(b, after, u, Product(m.totals[u] / Sum(m.totals), Undistributed(b, m.karma)))
    ensures forall u :: Undistributed(b, m.karma) <= 0.0 || u !in m.totals ==> UserKarma(after, u) == UserKarma(b, u)
  {
    hide Tally, Sum, Cut, Whole, Unit, UserKarma, NewMoney, UsersGrow, KarmaStaysWhole, SameIn, OpensInternal;
    MoneyIsCut(KKP, m.karma);
    MoneyIsCut(KKP, Reported(m.karma) - Tally(b, Holders, KKP));
    var amount := Undistributed(b, m.karma);
    if amount > 0.0 {
      var credits := Credits(m.totals, Sum(m.totals), amount);
      forall u | u in m.totals
        ensures Sum(m.totals) != 0.0 && Received(b, after, u, Product(m.totals[u] / Sum(m.totals), amount))
      {
        assert Divisible(m.totals);
        MoneyIsCut(KKP, Product(m.totals[u] / Sum(m.totals), amount));
        var g := Share(m.totals[u], Sum(m.totals), amount);
        assert CutTo(g, Product(m.totals[u] / Sum(m.totals), amount), KKP);
        assert credits[u] == Positive(g);
      }
    }
  }

  function OwnPlace(o: Owner): View
    requires o != Dealer
  {
    if o == Bank then BankSide(External) else Only(o)
  }

  ghost predicate HasMoved(b: Books, t: Books, m: Msg)
    requires m.Cli?
  {
    && m.outbound != Dealer && m.inbound != Dealer
    && Changed(b, t, [Move(OwnPlace(m.outbound), OwnPlace(m.inbound), m.currency, m.amount.value)])
  }

  lemma CliChanges(s: State, a: Action, t: State)
    requires Step(s, a, t) && a.msg.Cli? && a.entries != []
    ensures HasMoved(s.books, t.books, a.msg)
  {
    hide Step, Changed, Normal;
    PostedLegs(s, a, t);
    OneLegChanges(s, a, t, a.msg.outbound, a.msg.inbound, a.msg.currency, a.msg.amount.value);
  }
}
