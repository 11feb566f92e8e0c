/** Whole-run results about the bank: conservation, exact refunds, reconciliation, hedgeable fiat. */
module BankTheorems {
  import opened Decimals
  import opened Money
  import opened Sums
  import opened Ledger
  import opened BankSteps
  import opened BankRuns
  import opened Karma

  ghost predicate IsRun(states: seq<State>, actions: seq<Action>) {
    && |states| == |actions| + 1
    && forall i :: 0 <= i < |actions| ==> Step(states[i], actions[i], states[i + 1])
  }

  // ---- conservation

  /** BTC and every fiat currency: the sum over users, bank, dealer and insurance never changes. */
  lemma {:induction false} MoneyIsConserved(states: seq<State>, actions: seq<Action>, k: nat, c: Currency)
    requires IsRun(states, actions) && k <= |actions| && c != KKP
    ensures Tally(states[k].books, Everyone, c) == Tally(states[0].books, Everyone, c)
  {
    hide Step, Tally;
    if k > 0 {
      MoneyIsConserved(states, actions, k - 1, c);
      if actions[k - 1].msg.Karma? {
        KarmaKeeps(states[k - 1], actions[k - 1], states[k], Everyone, c);
      } else {
        StepKeeps(states[k - 1], actions[k - 1], states[k], Everyone, c);
      }
    }
  }

  /** A dealer that starts out holding the negative of the users' fiat always does. */
  lemma {:induction false} FiatIsMirrored(states: seq<State>, actions: seq<Action>, k: nat, c: Currency)
    requires IsRun(states, actions) && k <= |actions| && IsFiat(c)
    requires Tally(states[0].books, Only(Dealer), c) == -Tally(states[0].books, Holders, c)
    ensures Tally(states[k].books, Only(Dealer), c) == -Tally(states[k].books, Holders, c)
  {
    hide Step, Tally;
    SplitTally(states[k].books, Synthetic, Holders, Only(Dealer), c);
    if k > 0 {
      FiatIsMirrored(states, actions, k - 1, c);
      SplitTally(states[k - 1].books, Synthetic, Holders, Only(Dealer), c);
      if actions[k - 1].msg.Karma? {
        KarmaKeeps(states[k - 1], actions[k - 1], states[k], Synthetic, c);
      } else {
        StepKeeps(states[k - 1], actions[k - 1], states[k], Synthetic, c);
      }
    }
  }

  ghost predicate InternalFiat(b: Books)
    requires Dealer in b
  {
    forall id :: id in b[Dealer] && IsFiat(b[Dealer][id].currency) ==> b[Dealer][id].kind == Internal
  }

  lemma StepInternalFiat(s: State, a: Action, t: State)
    requires Step(s, a, t) && InternalFiat(s.books)
    ensures InternalFiat(t.books)
  {
    hide Posts, WellFormed, Apportions, Tally, UsersGrow, KarmaStaysWhole, Fits, NextPayments, AdjustAll;
    if a.msg.Karma? && t.books != a.start {
      forall id | id in t.books[Dealer] && IsFiat(t.books[Dealer][id].currency)
        ensures t.books[Dealer][id].kind == Internal
      {
        assert SameIn(s.books, t.books, BTC);
        assert id in s.books[Dealer] ==> SameAccount(s.books[Dealer][id], t.books[Dealer][id], BTC);
      }
    } else if !a.msg.Karma? {
      forall id | id in t.books[Dealer] && IsFiat(t.books[Dealer][id].currency)
        ensures t.books[Dealer][id].kind == Internal
      {
        var d := t.books[Dealer][id];
        assert Keyed(t.books[Dealer]);
        FitsBack(a.start, a.entries, Entry(Dealer, id, d.kind, d.currency, 0.0));
      }
    }
  }

  lemma FitsBack(b: Books, es: seq<Entry>, e: Entry)
    requires (forall x :: x in es ==> Fits(b, x)) && Fits(AdjustAll(b, es), e)
    ensures Fits(b, e)
  {
  }

  /** The fiat account the dealer hedges holds exactly minus what all users together hold. */
  lemma {:induction false} DealerAccountMirrorsUsers(states: seq<State>, actions: seq<Action>, k: nat, id: AccountId)
    requires IsRun(states, actions) && k <= |actions| && Dealer in states[0].books && InternalFiat(states[0].books)
    requires forall c :: IsFiat(c) ==> Tally(states[0].books, Only(Dealer), c) == -Tally(states[0].books, Holders, c)
    requires ValidBooks(states[0].books) && Dealer in states[k].books && id in states[k].books[Dealer]
    requires IsFiat(states[k].books[Dealer][id].currency)
    ensures states[k].books[Dealer][id].balance
         == -Tally(states[k].books, Holders, states[k].books[Dealer][id].currency)
  {
    hide Step, Tally;
    var b: Books := states[k].books;
    var c := b[Dealer][id].currency;
    FiatIsMirrored(states, actions, k, c);
    RunInternalFiat(states, actions, k);
    if k > 0 {
      StepValid(states[k - 1], actions[k - 1], states[k]);
    }
    assert Distinct(b[Dealer]);
    SingleTally(b, Only(Dealer), c, Dealer, id);
  }

  lemma StepValid(s: State, a: Action, t: State)
    requires Step(s, a, t)
    ensures ValidBooks(s.books) && ValidBooks(t.books)
  {
  }

  lemma {:induction false} RunInternalFiat(states: seq<State>, actions: seq<Action>, k: nat)
    requires IsRun(states, actions) && k <= |actions| && Dealer in states[0].books && InternalFiat(states[0].books)
    ensures Dealer in states[k].books && InternalFiat(states[k].books)
  {
    hide Step, InternalFiat;
    if k > 0 {
      RunInternalFiat(states, actions, k - 1);
      StepValid(states[k - 1], actions[k - 1], states[k]);
      StepInternalFiat(states[k - 1], actions[k - 1], states[k]);
    }
  }

  // ---- external payments

  /** Every amount the result of this payment can move is positive. */
  predicate Sound(l: Launch) {
    ValidLaunch(l) && Total(l).value > 0.0 && Debit(l).value > 0.0
  }

  lemma BtcDebit(l: Launch)
    requires ValidLaunch(l) && l.currency == BTC
    ensures Debit(l) == Total(l)
  {
    ParityIsIdentity(Total(l));
  }

  lemma PostedPaymentIsSound(l: Launch, start: Books, es: seq<Entry>)
    requires ValidLaunch(l) && Posts(Pay(l), start, es)
    ensures Sound(l)
  {
    hide Total, Debit, ValidLaunch, Covered;
    if l.currency == BTC {
      BtcDebit(l);
    }
  }

  /** A payment in flight can always be refunded: its amounts pass the positivity checks of the result handler. */
  lemma {:induction false} PaymentsInFlightAreSound(states: seq<State>, actions: seq<Action>, k: nat)
    requires IsRun(states, actions) && k <= |actions|
    requires forall l :: l in states[0].payments.launches ==> Sound(l) && User(l.uid) in states[0].books
    ensures forall l :: l in states[k].payments.launches ==> Sound(l) && User(l.uid) in states[k].books
  {
    hide Sound, Step;
    if k > 0 {
      PaymentsInFlightAreSound(states, actions, k - 1);
      StepSound(states[k - 1], actions[k - 1], states[k]);
    }
  }

  lemma StepSound(s: State, a: Action, t: State)
    requires Step(s, a, t) && forall l :: l in s.payments.launches ==> Sound(l) && User(l.uid) in s.books
    ensures forall l :: l in t.payments.launches ==> Sound(l) && User(l.uid) in t.books
  {
    OwnersStay(s, a, t);
    if a.launched {
      PostedPaymentIsSound(a.msg.launch, a.start, a.entries);
      PayerIsThere(a.msg.launch, a.start, a.entries);
    }
    hide *;
    NextLaunches(s, a, t);
  }

  lemma NextLaunches(s: State, a: Action, t: State)
    requires Step(s, a, t)
    ensures forall l :: l in t.payments.launches ==> l in s.payments.launches || (a.launched && a.msg == Pay(l))
  {
    hide Posts, AdjustAll, Opens, OpensInternal, ValidBooks, SharesKarma, WellFormed;
  }

  lemma PayerIsThere(l: Launch, start: Books, es: seq<Entry>)
    requires ValidLaunch(l) && Posts(Pay(l), start, es)
    ensures User(l.uid) in start
  {
    hide Total, Debit, ValidLaunch;
  }

  lemma {:induction false} AdjustAllKeys(b: Books, es: seq<Entry>)
    requires forall e :: e in es ==> Fits(b, e)
    ensures AdjustAll(b, es).Keys == b.Keys
    decreases es
  {
    if es != [] {
      assert Fits(b, es[0]);
      assert Adjust(b, es[0]).Keys == b.Keys;
      AdjustAllKeys(Adjust(b, es[0]), es[1..]);
    }
  }

  /** No owner ever leaves the books. */
  lemma OwnersStay(s: State, a: Action, t: State)
    requires Step(s, a, t)
    ensures s.books.Keys <= t.books.Keys && (!a.msg.Karma? ==> a.start.Keys <= t.books.Keys)
  {
    hide Posts, WellFormed, ValidBooks, AdjustAll, Fits, NextPayments, Apportions, Tally, KarmaStaysWhole, SameIn;
    if !a.msg.Karma? {
      AdjustAllKeys(a.start, a.entries);
    }
  }

  lemma LegOnly(es: seq<Entry>, outbound: Owner, inbound: Owner, m: Currency, amount: Decimal, o: Owner, c: Currency)
    requires IsLeg(es, outbound, inbound, m, amount)
    ensures Net(es, Only(o), c)
         == if c != m then 0.0 else (if o == inbound then amount else 0.0) - (if o == outbound then amount else 0.0)
  {
    hide Net;
    NetOfPair(es, Only(o), c);
  }

  lemma TwoLegs(es: seq<Entry>, v: View, c: Currency)
    requires |es| == 4
    ensures Net(es, v, c) == Net(es[..2], v, c) + Net(es[2..], v, c)
  {
    hide Net;
    assert es == es[..2] + es[2..];
    NetConcat(es[..2], es[2..], v, c);
  }

  /** A failed result gives back exactly what the launch took, owner by owner and currency by currency. */
  lemma RefundUndoesPayment(l: Launch, s1: Books, paid: seq<Entry>, s2: Books, refunded: seq<Entry>,
                            o: Owner, c: Currency)
    requires ValidLaunch(l) && Posts(Pay(l), s1, paid) && Posts(Failed(l), s2, refunded)
    ensures Net(paid, Only(o), c) + Net(refunded, Only(o), c) == 0.0
  {
    hide Net, Total, Debit, ValidLaunch, Covered, IsLeg;
    if l.currency == BTC {
      BtcDebit(l);
      LegOnly(paid, User(l.uid), Bank, BTC, Debit(l).value, o, c);
      LegOnly(refunded, Bank, User(l.uid), BTC, Total(l).value, o, c);
    } else {
      TwoLegs(paid, Only(o), c);
      TwoLegs(refunded, Only(o), c);
      LegOnly(paid[..2], User(l.uid), Dealer, l.currency, Debit(l).value, o, c);
      LegOnly(paid[2..], Dealer, Bank, BTC, Total(l).value, o, c);
      LegOnly(refunded[..2], Bank, Dealer, BTC, Total(l).value, o, c);
      LegOnly(refunded[2..], Dealer, User(l.uid), l.currency, Debit(l).value, o, c);
    }
  }

  // ---- every payment has one result

  function LaunchesOf(actions: seq<Action>, l: Launch): nat {
    if actions == [] then 0
    else
      var a := actions[|actions| - 1];
      LaunchesOf(actions[..|actions| - 1], l) + if a.msg == Pay(l) && a.launched then 1 else 0
  }

  function ResultsOf(actions: seq<Action>, l: Launch): nat {
    if actions == [] then 0
    else
      var m := actions[|actions| - 1].msg;
      ResultsOf(actions[..|actions| - 1], l) + if (m.Settled? || m.Failed?) && m.launch == l then 1 else 0
  }

  lemma StepPayments(s: State, a: Action, t: State, l: Launch)
    requires Step(s, a, t)
    ensures t.payments.launches[l] + (if (a.msg.Settled? || a.msg.Failed?) && a.msg.launch == l then 1 else 0)
         == s.payments.launches[l] + if a.msg == Pay(l) && a.launched then 1 else 0
  {
    hide Posts, WellFormed, ValidBooks, Opens, OpensInternal, AdjustAll, SharesKarma, Fits;
  }

  /** The payments in flight are those launched less those settled or failed, so no payment is both settled and
      refunded, or refunded twice. */
  lemma {:induction false} EachPaymentHasOneResult(states: seq<State>, actions: seq<Action>, k: nat, l: Launch)
    requires IsRun(states, actions) && k <= |actions|
    ensures states[k].payments.launches[l] + ResultsOf(actions[..k], l)
         == states[0].payments.launches[l] + LaunchesOf(actions[..k], l)
    ensures ResultsOf(actions[..k], l) <= states[0].payments.launches[l] + LaunchesOf(actions[..k], l)
  {
    hide Step;
    if k > 0 {
      EachPaymentHasOneResult(states, actions, k - 1, l);
      StepPayments(states[k - 1], actions[k - 1], states[k], l);
      assert actions[..k][..k - 1] == actions[..k - 1];
    }
  }

  function NetOfAll(actions: seq<Action>, v: View, c: Currency): Decimal {
    if actions == [] then 0.0 else Net(actions[0].entries, v, c) + NetOfAll(actions[1..], v, c)
  }

  lemma {:induction false} NetOfAllConcat(a: seq<Action>, b: seq<Action>, v: View, c: Currency)
    ensures NetOfAll(a + b, v, c) == NetOfAll(a, v, c) + NetOfAll(b, v, c)
  {
    hide Net;
    if a == [] {
      assert a + b == b;
    } else {
      assert (a + b)[1..] == a[1..] + b;
      NetOfAllConcat(a[1..], b, v, c);
    }
  }

  /** What an owner holds is what it held plus everything posted since. */
  lemma {:induction false} RunTally(states: seq<State>, actions: seq<Action>, v: View, c: Currency)
    requires IsRun(states, actions) && c != KKP
    ensures Tally(states[|actions|].books, v, c) == Tally(states[0].books, v, c) + NetOfAll(actions, v, c)
    decreases actions
  {
    hide Step, Tally, Net;
    if actions != [] {
      var s, a, t := states[0], actions[0], states[1];
      StepTally(s, a, t, v, c);
      assert states[1..][0] == t;
      RunTally(states[1..], actions[1..], v, c);
    }
  }

  lemma StepTally(s: State, a: Action, t: State, v: View, c: Currency)
    requires Step(s, a, t) && c != KKP
    ensures Tally(t.books, v, c) == Tally(s.books, v, c) + Net(a.entries, v, c)
  {
    hide Tally, Opens, OpensInternal, Posts, WellFormed, ValidBooks, Net, Fits, NextPayments;
    if a.msg.Karma? {
      KarmaKeeps(s, a, t, v, c);
      NetOfNone(v, c);
    } else {
      OpensTally(s.books, a.start, v, c);
      AdjustAllTally(a.start, a.entries, v, c);
    }
  }

  /** Whatever was processed before, between and after: a refunded payment leaves no trace in any owner's holdings. */
  lemma FailedPaymentHasNoNetEffect(
    states: seq<State>, actions: seq<Action>, i: nat, j: nat, l: Launch, o: Owner, c: Currency)
    requires IsRun(states, actions) && i < j < |actions| && c != KKP
    requires actions[i].msg == Pay(l) && actions[i].entries != []
    requires actions[j].msg == Failed(l) && actions[j].entries != []
    ensures Tally(states[|actions|].books, Only(o), c)
         == Tally(states[0].books, Only(o), c)
          + NetOfAll(actions[..i] + actions[i + 1..j] + actions[j + 1..], Only(o), c)
  {
    hide Step, Tally, Net, NetOfAll;
    var v := Only(o);
    var before, between, after := actions[..i], actions[i + 1..j], actions[j + 1..];
    RunTally(states, actions, v, c);
    assert actions == before + ([actions[i]] + (between + ([actions[j]] + after)));
    NetOfAllConcat(before, [actions[i]] + (between + ([actions[j]] + after)), v, c);
    NetOfAllConcat([actions[i]], between + ([actions[j]] + after), v, c);
    NetOfAllConcat(between, [actions[j]] + after, v, c);
    NetOfAllConcat([actions[j]], after, v, c);
    NetOfAllConcat(before + between, after, v, c);
    NetOfAllConcat(before, between, v, c);
    NetOfOne(actions[i], v, c);
    NetOfOne(actions[j], v, c);
    StepPosts(states[i], actions[i], states[i + 1]);
    StepPosts(states[j], actions[j], states[j + 1]);
    RefundUndoesPayment(l, actions[i].start, actions[i].entries, actions[j].start, actions[j].entries, o, c);
  }

  lemma NetOfOne(a: Action, v: View, c: Currency)
    ensures NetOfAll([a], v, c) == Net(a.entries, v, c)
  {
    hide Net;
    assert NetOfAll([a][1..], v, c) == 0.0;
  }

  lemma StepPosts(s: State, a: Action, t: State)
    requires Step(s, a, t) && a.entries != [] && !a.msg.Karma?
    ensures WellFormed(a.msg) && Posts(a.msg, a.start, a.entries)
  {
  }

  // ---- reconciliation

  /** What the accountant checks: nobody is in debt and every currency nets to zero. */
  ghost predicate Reconciles(b: Books) {
    Solvent(b) && forall c :: Tally(b, Reconciled, c) == 0.0
  }

  lemma ReconciledParts(b: Books, c: Currency)
    ensures Tally(b, Reconciled, c)
         == Tally(b, Holders, c) + Tally(b, DealerSide(Internal), c) + Tally(b, DealerSide(External), c)
          + Tally(b, Only(Bank), c)
  {
    hide Tally;
    SplitTally(b, Reconciled, Synthetic, Only(Bank), c);
    SplitTally(b, Synthetic, Holders, Only(Dealer), c);
    SplitTally(b, Only(Dealer), DealerSide(Internal), DealerSide(External), c);
  }

  /** Karma is in balance: the dealer's external account says what was last reported, at most `bound`. */
  ghost predicate KarmaInBalance(b: Books, bound: Decimal) {
    && Tally(b, Reconciled, KKP) == 0.0 && Tally(b, Only(Bank), KKP) == 0.0
    && Tally(b, DealerSide(Internal), KKP) >= 0.0 && Whole(Tally(b, DealerSide(Internal), KKP), Scale(KKP))
    && -Tally(b, DealerSide(External), KKP) <= bound && Whole(Tally(b, DealerSide(External), KKP), Scale(KKP))
  }

  /** What karma is not yet with the users, when karma is in balance. */
  lemma UndistributedIsExact(b: Books, karma: Decimal, bound: Decimal)
    requires KarmaInBalance(b, bound)
    ensures Undistributed(b, karma) == Reported(karma) - Tally(b, Holders, KKP)
  {
    hide Tally, NewMoney, Whole, Scale;
    ReconciledParts(b, KKP);
    var i, e := Tally(b, DealerSide(Internal), KKP), Tally(b, DealerSide(External), KKP);
    WholeSum(e, i, Scale(KKP));
    WholeSum(Reported(karma), e + i, Scale(KKP));
  }

  /** Shares never exceed the amount, so the dealer's remainder is not negative. */
  lemma DealerRemainder(totals: map<UserId, Decimal>, amount: Decimal)
    requires NonNegative(totals) && Divisible(totals) && amount > 0.0
    ensures var shares := Sum(Shares(totals, Sum(totals), amount));
            shares <= amount && Sum(Credits(totals, Sum(totals), amount)) == shares
  {
    hide Share;
    if totals == map[] {
      assert Shares(totals, Sum(totals), amount) == map[] && Credits(totals, Sum(totals), amount) == map[];
    } else {
      SumNonNegative(totals);
      hide Sum;
      Apportionment(totals, amount);
    }
  }

  /** If karma was in balance and the report did not fall, it is in balance again. */
  lemma KarmaRebalances(b: Books, m: Msg, after: Books)
    requires m.Karma? && SharesKarma(b, m, after)
    requires KarmaInBalance(b, Reported(m.karma)) && NonNegative(m.totals)
    ensures KarmaInBalance(after, Reported(m.karma))
  {
    hide Tally, Sum, Whole, Scale, NewMoney, UsersGrow, KarmaStaysWhole, SameIn, Keyed, Distinct, Undistributed;
    hide Shares, Credits;
    ReconciledParts(b, KKP);
    ReconciledParts(after, KKP);
    SameBank(b, after);
    UndistributedIsExact(b, m.karma, Reported(m.karma));
    var amount := Undistributed(b, m.karma);
    WholeSum(Reported(m.karma), 0.0, Scale(KKP)) by { ZeroWhole(KKP); }
    if amount > 0.0 {
      DealerRemainder(m.totals, amount);
      SharesWhole(m.totals, Sum(m.totals), amount);
      UndistributedWhole(b, m.karma);
      WholeSum(amount, Sum(Shares(m.totals, Sum(m.totals), amount)), Scale(KKP));
    }
  }

  ghost predicate NoNegativeShare(totals: map<UserId, Decimal>, amount: Decimal) {
    Divisible(totals) && forall u :: u in totals ==> Share(totals[u], Sum(totals), amount) >= 0.0
  }

  /** What a karma report must meet for KKP to net to zero after it. */
  ghost predicate KarmaStaysInBalance(b: Books, m: Msg)
    requires m.Karma?
  {
    var amount := Undistributed(b, m.karma);
    if amount > 0.0 then NoNegativeShare(m.totals, amount)
    else Reported(m.karma) == -Tally(b, DealerSide(External), KKP)
  }

  /** Exactly when a karma report leaves KKP at zero: no share is negative, or there is nothing to
      distribute and the report repeats the previous one. */
  lemma KarmaNetsToZeroIff(b: Books, m: Msg, after: Books, bound: Decimal)
    requires m.Karma? && SharesKarma(b, m, after)
    requires KarmaInBalance(b, bound)
    ensures Tally(after, Reconciled, KKP) == 0.0 <==> KarmaStaysInBalance(b, m)
  {
    hide Tally, Sum, Whole, Scale, NewMoney, UsersGrow, KarmaStaysWhole, SameIn, Keyed, Distinct, Undistributed;
    hide Shares, Credits, Share;
    ReconciledParts(b, KKP);
    ReconciledParts(after, KKP);
    SameBank(b, after);
    UndistributedIsExact(b, m.karma, bound);
    var amount := Undistributed(b, m.karma);
    if amount > 0.0 {
      SharesCredited(m.totals, Sum(m.totals), amount);
    }
  }

  lemma UndistributedWhole(b: Books, karma: Decimal)
    ensures Whole(Undistributed(b, karma), Scale(KKP)) && Whole(Reported(karma), Scale(KKP))
  {
    hide Tally, Whole;
  }

  lemma SameBank(b: Books, after: Books)
    requires Bank in b && Bank in after && after[Bank] == b[Bank]
    ensures Tally(after, Only(Bank), KKP) == Tally(b, Only(Bank), KKP)
  {
    BankTally(b);
    BankTally(after);
  }

  lemma BankTally(b: Books)
    requires Bank in b
    ensures Tally(b, Only(Bank), KKP) == Held(b[Bank], Only(Bank), Bank, KKP)
  {
    var seen := Seen(b, Only(Bank), KKP);
    SumAt(seen, Bank);
    var none: map<Owner, Decimal> := map[];
    forall o | o in seen - {Bank}
      ensures seen[o] == 0.0
    {
      var none: map<AccountId, Decimal> := map[];
      var m := Stakes(b[o], Only(Bank), o, KKP);
      assert forall id :: id in m ==> m[id] == 0.0;
      SumExtend(none, m);
    }
    SumExtend(none, seen - {Bank});
  }

  lemma StepKarmaInBalance(s: State, a: Action, t: State, bound: Decimal)
    requires Step(s, a, t) && KarmaInBalance(s.books, bound)
    requires a.msg.Karma? ==> bound <= Reported(a.msg.karma) && NonNegative(a.msg.totals)
    requires !(a.msg.Cli? && (a.msg.outbound == Insurance || a.msg.inbound == Insurance))
    ensures KarmaInBalance(t.books, if a.msg.Karma? then Reported(a.msg.karma) else bound)
  {
    hide Tally, Whole, Scale, Posts, AdjustAll, Opens, SharesKarma, OpensInternal, ValidBooks, Reported;
    if !a.msg.Karma? {
      StepKeeps(s, a, t, Reconciled, KKP);
      StepKeeps(s, a, t, Only(Bank), KKP);
      StepKeeps(s, a, t, DealerSide(Internal), KKP);
      StepKeeps(s, a, t, DealerSide(External), KKP);
    } else if t.books == a.start {
      OpensTally(s.books, a.start, Reconciled, KKP);
      OpensTally(s.books, a.start, Only(Bank), KKP);
      OpensTally(s.books, a.start, DealerSide(Internal), KKP);
      OpensTally(s.books, a.start, DealerSide(External), KKP);
    } else {
      KarmaRebalances(s.books, a.msg, t.books);
    }
  }

  lemma StepReconciles(s: State, a: Action, t: State, bound: Decimal)
    requires Step(s, a, t) && Reconciles(s.books) && !a.msg.Cli? && KarmaInBalance(s.books, bound)
    requires a.msg.Karma? ==> bound <= Reported(a.msg.karma) && NonNegative(a.msg.totals)
    ensures Reconciles(t.books)
  {
    hide Step, Tally, Solvent;
    StepSolvent(s, a, t);
    StepKarmaInBalance(s, a, t, bound);
    forall c | c != KKP
      ensures Tally(t.books, Reconciled, c) == 0.0
    {
      if a.msg.Karma? {
        KarmaKeeps(s, a, t, Reconciled, c);
      } else {
        StepKeeps(s, a, t, Reconciled, c);
      }
    }
  }

  /** Whatever karma is reported: without command-line transfers nobody is ever in debt, and BTC and fiat always
      net to zero. */
  lemma {:induction false} MoneyStaysReconciled(states: seq<State>, actions: seq<Action>, k: nat, c: Currency)
    requires IsRun(states, actions) && k <= |actions| && c != KKP
    requires forall i :: 0 <= i < |actions| ==> !actions[i].msg.Cli?
    requires Solvent(states[0].books) && Tally(states[0].books, Reconciled, c) == 0.0
    ensures Solvent(states[k].books) && Tally(states[k].books, Reconciled, c) == 0.0
  {
    hide Step, Tally, Solvent;
    if k > 0 {
      MoneyStaysReconciled(states, actions, k - 1, c);
      StepSolvent(states[k - 1], actions[k - 1], states[k]);
      if actions[k - 1].msg.Karma? {
        KarmaKeeps(states[k - 1], actions[k - 1], states[k], Reconciled, c);
      } else {
        StepKeeps(states[k - 1], actions[k - 1], states[k], Reconciled, c);
      }
    }
  }

  /** Reported karma never falls, and the users' swap totals are not negative. */
  ghost predicate KarmaGrows(actions: seq<Action>, bound: Decimal) {
    actions == [] ||
    var m := actions[0].msg;
    if m.Karma? then bound <= Reported(m.karma) && NonNegative(m.totals) && KarmaGrows(actions[1..], Reported(m.karma))
    else KarmaGrows(actions[1..], bound)
  }

  /** Without command-line transfers a run that starts reconciled stays so: the shutdown panic is unreachable. */
  lemma {:induction false} NeverShutsDown(states: seq<State>, actions: seq<Action>, k: nat, bound: Decimal)
    requires IsRun(states, actions) && k <= |actions|
    requires forall i :: 0 <= i < |actions| ==> !actions[i].msg.Cli?
    requires KarmaGrows(actions, bound) && KarmaInBalance(states[0].books, bound)
    requires Reconciles(states[0].books)
    ensures Reconciles(states[k].books)
    decreases k
  {
    hide Step, Reconciles, KarmaInBalance;
    if k > 0 {
      var m := actions[0].msg;
      StepReconciles(states[0], actions[0], states[1], bound);
      StepKarmaInBalance(states[0], actions[0], states[1], bound);
      NeverShutsDown(states[1..], actions[1..], k - 1, if m.Karma? then Reported(m.karma) else bound);
    }
  }

  // ---- command-line transfers

  lemma PairAdjusts(b: Books, es: seq<Entry>)
    requires |es| == 2 && Fits(b, es[0]) && Fits(b, es[1])
    ensures forall e :: e in es ==> Fits(b, e)
    ensures AdjustAll(b, es) == Adjust(Adjust(b, es[0]), es[1])
  {
    hide Adjust, Fits, ValidBooks;
    assert es[1..][1..] == [];
    assert AdjustAll(Adjust(b, es[0]), es[1..]) == AdjustAll(Adjust(Adjust(b, es[0]), es[1]), es[1..][1..]);
  }

  /** A posted command-line transfer keeps a reconciled ledger reconciled exactly when it leaves the
      insurance fund alone and does not overdraw a user. */
  lemma CliReconcilesIff(s: State, a: Action, t: State)
    requires Step(s, a, t) && a.msg.Cli? && a.entries != [] && Reconciles(s.books)
    ensures Reconciles(t.books)
       <==> && a.msg.outbound != Insurance && a.msg.inbound != Insurance
            && (a.msg.outbound.User? ==> Covered(a.start, a.entries))
  {
    hide Tally, ValidBooks, Opens, Fits, WellFormed, Net, Adjust, Solvent, BalanceOf, NextPayments;
    var m, es := a.msg, a.entries;
    assert IsLeg(es, m.outbound, m.inbound, m.currency, m.amount.value);
    PairAdjusts(a.start, es);
    if m.outbound == Insurance || m.inbound == Insurance {
      OpensTally(s.books, a.start, Reconciled, BTC);
      AdjustAllTally(a.start, es, Reconciled, BTC);
      NetOfPair(es, Reconciled, BTC);
      assert Tally(t.books, Reconciled, BTC) != 0.0;
    } else {
      forall c
        ensures Tally(t.books, Reconciled, c) == 0.0
      {
        StepKeeps(s, a, t, Reconciled, c);
      }
      OpensSolvent(s.books, a.start);
      PairSolvent(a.start, es);
    }
  }

  lemma OpensSolvent(b: Books, o: Books)
    requires Solvent(b) && Opens(b, o)
    ensures Solvent(o)
  {
  }

  lemma PairSolvent(b: Books, es: seq<Entry>)
    requires |es| == 2 && Fits(b, es[0]) && Fits(b, es[1]) && Solvent(b)
    requires es[0].delta < 0.0 < es[1].delta && (es[0].owner == es[1].owner ==> es[0].id != es[1].id)
    ensures Solvent(Adjust(Adjust(b, es[0]), es[1])) <==> (es[0].owner.User? ==> Covered(b, es))
  {
    if es[0].owner.User? ==> Covered(b, es) {
      AdjustSolvent(b, es[0]);
      AdjustSolvent(Adjust(b, es[0]), es[1]);
    } else {
      assert Adjust(Adjust(b, es[0]), es[1])[es[0].owner][es[0].id].balance == BalanceOf(b, es[0]) + es[0].delta;
    }
  }

  // ---- normalisation

  function Normalized(a: Account): Account {
    a.(balance := Trunc(a.balance, Scale(a.currency)))
  }

  /** `normalize_accounts` truncates every balance except the insurance fund's. */
  ghost function NormalizeBooks(b: Books): Books {
    map o | o in b :: if o == Insurance then b[o] else NormalizeAll(b[o])
  }

  function NormalizeAll(accounts: Accounts): Accounts {
    map id | id in accounts :: Normalized(accounts[id])
  }

  /** Normalising cuts every balance but the insurance fund's towards zero to whole units of its currency, and
      changes nothing else of any account. */
  lemma NormalizingCuts(b: Books)
    ensures NormalizeBooks(b).Keys == b.Keys && (Insurance in b ==> NormalizeBooks(b)[Insurance] == b[Insurance])
    ensures forall o, id :: o in b && o != Insurance && id in b[o] ==>
              var a, t := b[o][id], NormalizeBooks(b)[o];
              id in t && t[id] == a.(balance := t[id].balance) && CutTo(t[id].balance, a.balance, a.currency)
    ensures forall o :: o in b && o != Insurance ==> NormalizeBooks(b)[o].Keys == b[o].Keys
  {
    hide Trunc, Cut, Whole;
    forall o, id | o in b && id in b[o]
      ensures CutTo(Trunc(b[o][id].balance, Scale(b[o][id].currency)), b[o][id].balance, b[o][id].currency)
    {
      NewMoneyCut(b[o][id].currency, b[o][id].balance);
    }
  }

  lemma NormalizeIsIdentity(b: Books)
    requires NormalBooks(b)
    ensures NormalizeBooks(b) == b
  {
    hide Trunc, Whole;
    forall o, id | o in b && id in b[o]
      ensures Normalized(b[o][id]) == b[o][id]
    {
      assert NormalAccount(b[o][id]);
      TruncFix(b[o][id].balance, Scale(b[o][id].currency));
    }
    forall o | o in b
      ensures NormalizeAll(b[o]) == b[o]
    {
    }
  }

  /** Balances that start as whole units stay so, and normalising any reachable ledger changes nothing. */
  lemma {:induction false} NormalizingChangesNothing(states: seq<State>, actions: seq<Action>, k: nat)
    requires IsRun(states, actions) && k <= |actions| && NormalBooks(states[0].books)
    ensures NormalBooks(states[k].books) && NormalizeBooks(states[k].books) == states[k].books
  {
    hide Step, NormalBooks, NormalizeBooks;
    if k > 0 {
      NormalizingChangesNothing(states, actions, k - 1);
      StepNormal(states[k - 1], actions[k - 1], states[k]);
    }
    NormalizeIsIdentity(states[k].books);
  }
}
