/** What every bank message keeps, and what therefore holds in every state of every run. */
module BankRuns {
  import opened Decimals
  import opened Money
  import opened Sums
  import opened Ledger
  import opened BankSteps

  // ---- what the entries of a message add up to

  /** Money flows between the two owners, and only where the message and the currency allow it. */
  predicate Flow(m: Msg, es: seq<Entry>) {
    && |es| == 2 && es[0].currency == es[1].currency && es[0].delta == -es[1].delta < 0.0
    && var o, i, c := es[0].owner, es[1].owner, es[0].currency;
    && (o == Insurance || i == Insurance ==> m.Cli? && m.outbound == o && m.inbound == i)
    && (IsFiat(c) ==> (o.User? || o == Dealer) && (i.User? || i == Dealer))
    && (c == KKP ==> o.User? && i.User?)
  }

  lemma PostsFlow(m: Msg, start: Books, es: seq<Entry>)
    requires WellFormed(m) && Posts(m, start, es)
    ensures Flow(m, es) || (|es| == 4 && Flow(m, es[..2]) && Flow(m, es[2..]))
  {
    hide Exchange, FromSats, Total, Debit, Fits, Normal, Sum;
  }

  /** The tallies no entry list of this message can change. */
  predicate Keeps(m: Msg, v: View, c: Currency) {
    match v
    case Everyone => true
    case Reconciled => !(m.Cli? && (m.outbound == Insurance || m.inbound == Insurance))
    case Synthetic => IsFiat(c)
    case Holders => c == KKP
    case DealerSide(_) => c == KKP
    case BankSide(_) => c == KKP || IsFiat(c)
    case Only(o) => o == Bank && (c == KKP || IsFiat(c))
  }

  lemma NetOfPair(es: seq<Entry>, v: View, c: Currency)
    requires |es| == 2
    ensures Net(es, v, c) == Weight(es[0], v, c) + Weight(es[1], v, c)
  {
    hide Weight;
    assert es[1..][1..] == [];
    assert Net(es[1..], v, c) == Weight(es[1], v, c) + Net(es[1..][1..], v, c);
  }

  lemma FlowKeeps(m: Msg, es: seq<Entry>, v: View, c: Currency)
    requires Flow(m, es) && Keeps(m, v, c)
    ensures Net(es, v, c) == 0.0
  {
    hide Net;
    NetOfPair(es, v, c);
  }

  lemma PostsKeep(m: Msg, start: Books, es: seq<Entry>, v: View, c: Currency)
    requires WellFormed(m) && Posts(m, start, es) && Keeps(m, v, c)
    ensures Net(es, v, c) == 0.0
  {
    hide *;
    PostsFlow(m, start, es);
    if Flow(m, es) {
      FlowKeeps(m, es, v, c);
    } else {
      assert es == es[..2] + es[2..];
      NetConcat(es[..2], es[2..], v, c);
      FlowKeeps(m, es[..2], v, c);
      FlowKeeps(m, es[2..], v, c);
    }
  }

  // ---- conservation

  /** A message other than karma leaves every tally it keeps unchanged, also when it returns between its legs. */
  lemma StepKeeps(s: State, a: Action, t: State, v: View, c: Currency)
    requires Step(s, a, t) && !a.msg.Karma? && Keeps(a.msg, v, c)
    ensures Tally(t.books, v, c) == Tally(s.books, v, c)
  {
    hide Tally, Opens, Keeps, Posts, WellFormed, ValidBooks, Net, Fits, NextPayments;
    OpensTally(s.books, a.start, v, c);
    AdjustAllTally(a.start, a.entries, v, c);
    if a.entries != [] {
      PostsKeep(a.msg, a.start, a.entries, v, c);
    } else {
      NetOfNone(v, c);
    }
  }

  lemma NetOfNone(v: View, c: Currency)
    ensures Net([], v, c) == 0.0
  {
  }

  /** Karma moves no other currency. */
  lemma KarmaKeeps(s: State, a: Action, t: State, v: View, c: Currency)
    requires Step(s, a, t) && a.msg.Karma? && c != KKP
    ensures Tally(t.books, v, c) == Tally(s.books, v, c)
  {
    hide Tally, Opens, Apportions, ValidBooks, SameIn, Reported;
    if t.books == a.start {
      OpensTally(s.books, a.start, v, c);
    } else {
      SameTally(s.books, t.books, v, c);
    }
  }

  // ---- no user goes into debt

  ghost predicate Solvent(b: Books) {
    forall o, id :: o in b && id in b[o] && o.User? ==> b[o][id].balance >= 0.0
  }

  lemma AdjustSolvent(b: Books, e: Entry)
    requires Solvent(b) && Fits(b, e) && (e.owner.User? ==> BalanceOf(b, e) + e.delta >= 0.0)
    ensures Solvent(Adjust(b, e))
  {
  }

  lemma {:induction false} CreditsSolvent(b: Books, es: seq<Entry>)
    requires Solvent(b) && (forall e :: e in es ==> Fits(b, e))
    requires forall e :: e in es && e.owner.User? ==> e.delta >= 0.0
    ensures Solvent(AdjustAll(b, es))
    decreases es
  {
    hide Adjust, ValidBooks;
    if es != [] {
      assert Fits(b, es[0]);
      AdjustSolvent(b, es[0]);
      CreditsSolvent(Adjust(b, es[0]), es[1..]);
    }
  }

  /** Only the first entry debits a user, and it is covered. */
  lemma PostsCovered(m: Msg, start: Books, es: seq<Entry>)
    requires WellFormed(m) && Posts(m, start, es) && !m.Cli?
    ensures |es| >= 1 && (es[0].owner.User? ==> Covered(start, es))
    ensures forall e :: e in es[1..] && e.owner.User? ==> e.delta >= 0.0
  {
    hide Exchange, FromSats, Total, Debit, Fits, Normal, Sum, BalanceOf;
    assert |es| == 4 ==> es[1] == es[..2][1] && es[2] == es[2..][0] && es[3] == es[2..][1];
  }

  lemma StepSolvent(s: State, a: Action, t: State)
    requires Step(s, a, t) && Solvent(s.books) && !a.msg.Cli?
    ensures Solvent(t.books)
  {
    hide Posts, WellFormed, ValidBooks, Adjust, Fits, BalanceOf, SameIn, Apportions, Tally, Reported, KarmaStaysWhole;
    if !a.msg.Karma? && a.entries != [] {
      var e := a.entries[0];
      PostsCovered(a.msg, a.start, a.entries);
      AdjustSolvent(a.start, e);
      assert forall x :: x in a.entries[1..] ==> x in a.entries;
      CreditsSolvent(Adjust(a.start, e), a.entries[1..]);
    }
  }

  // ---- balances stay whole numbers of their currency's smallest unit

  predicate NormalAccount(a: Account) {
    Whole(a.balance, Scale(a.currency))
  }

  ghost predicate NormalBooks(b: Books) {
    forall o, id :: o in b && id in b[o] ==> NormalAccount(b[o][id])
  }

  lemma AdjustNormal(b: Books, e: Entry)
    requires NormalBooks(b) && Fits(b, e) && Whole(e.delta, Scale(e.currency))
    ensures NormalBooks(Adjust(b, e))
  {
    hide Whole, Scale;
    WholeSum(b[e.owner][e.id].balance, e.delta, Scale(e.currency));
  }

  lemma {:induction false} AdjustAllNormal(b: Books, es: seq<Entry>)
    requires NormalBooks(b) && (forall e :: e in es ==> Fits(b, e) && Whole(e.delta, Scale(e.currency)))
    ensures NormalBooks(AdjustAll(b, es))
    decreases es
  {
    hide Adjust, ValidBooks, Whole, Scale, Fits, NormalBooks;
    if es != [] {
      AdjustNormal(b, es[0]);
      AdjustAllNormal(Adjust(b, es[0]), es[1..]);
    }
  }

  lemma LegWhole(es: seq<Entry>, outbound: Owner, inbound: Owner, m: Money)
    requires IsLeg(es, outbound, inbound, m.currency, m.value) && Normal(m)
    ensures forall e :: e in es ==> Whole(e.delta, Scale(e.currency))
  {
    hide Whole, Scale;
    WholeSum(m.value, m.value, Scale(m.currency));
  }

  /** What is left of the estimate once the node has charged its fee. */
  function Excess(l: Launch, fee: nat): Money {
    Money(Total(l).value - l.invoice.value - FromSats(fee as real).value, BTC)
  }

  lemma ExcessNormal(l: Launch, fee: nat)
    requires ValidLaunch(l)
    ensures Normal(Excess(l, fee))
  {
    hide Whole, FromSats, Total, Parity;
    WholeFiner(l.invoice.value, SATS_IN_BITCOIN, 10_000);
    WholeSum(Total(l).value, l.invoice.value, Scale(BTC));
    WholeSum(Total(l).value - l.invoice.value, FromSats(fee as real).value, Scale(BTC));
  }

  lemma PostsWhole(m: Msg, start: Books, es: seq<Entry>)
    requires WellFormed(m) && Posts(m, start, es)
    ensures forall e :: e in es ==> Whole(e.delta, Scale(e.currency))
  {
    hide Exchange, FromSats, Total, Debit, Fits, Normal, Sum, BalanceOf, Whole, Scale, Covered, IsLeg, ValidLaunch;
    hide IsFiat;
    match m
    case Deposit(uid, sats) => LegWhole(es, Bank, User(uid), FromSats(sats as real));
    case DealerDeposit(sats, b) => LegWhole(es, if b then Dealer else Bank, Dealer, FromSats(sats as real));
    case DealerInvoice(k, b) => LegWhole(es, Dealer, if b then Bank else Dealer, FromSats(k as real / 1000.0));
    case Transfer(uid, to, c, amount) => LegWhole(es, User(uid), User(to), amount);
    case Settled(l, fee) =>
      ExcessNormal(l, fee);
      LegWhole(es, Bank, Dealer, Excess(l, fee));
    case Cli(o, i, c, amount) => LegWhole(es, o, i, amount);
    case FiatDeposit(uid, c, amount, r) =>
      LegWhole(es[..2], Bank, Dealer, amount);
      LegWhole(es[2..], Dealer, User(uid), Exchange(amount, r).money);
      assert es == es[..2] + es[2..];
    case Swap(uid, c, d, amount, r) =>
      LegWhole(es[..2], User(uid), Dealer, amount);
      LegWhole(es[2..], Dealer, User(uid), Exchange(amount, r).money);
      assert es == es[..2] + es[2..];
    case Pay(l) =>
      if l.currency == BTC {
        LegWhole(es, User(l.uid), Bank, Debit(l));
      } else {
        LegWhole(es[..2], User(l.uid), Dealer, Debit(l));
        LegWhole(es[2..], Dealer, Bank, Total(l));
        assert es == es[..2] + es[2..];
      }
    case Failed(l) =>
      if l.currency == BTC {
        LegWhole(es, Bank, User(l.uid), Total(l));
      } else {
        LegWhole(es[..2], Bank, Dealer, Total(l));
        LegWhole(es[2..], Dealer, User(l.uid), Debit(l));
        assert es == es[..2] + es[2..];
      }
    case Karma(_, _) =>
    case Inquiry =>
  }

  lemma OpensNormal(b: Books, o: Books)
    requires NormalBooks(b) && Opens(b, o)
    ensures NormalBooks(o)
  {
    forall w, id | w in o && id in o[w]
      ensures NormalAccount(o[w][id])
    {
      if w in b && id in b[w] {
        assert NormalAccount(b[w][id]);
      } else {
        WholeBy(0.0, Scale(o[w][id].currency), 0);
      }
    }
  }

  lemma KarmaNormal(b: Books, m: Msg, after: Books)
    requires m.Karma? && SharesKarma(b, m, after)
    requires NormalBooks(b)
    ensures NormalBooks(after)
  {
    hide Apportions, Tally, Reported, UsersGrow, Whole, Scale, ValidBooks;
    forall w, id | w in after && id in after[w]
      ensures NormalAccount(after[w][id])
    {
      var c := after[w][id].currency;
      assert w in b && id in b[w] ==> NormalAccount(b[w][id]);
      if c != KKP {
        assert SameIn(b, after, c);
        WholeBy(0.0, Scale(c), 0);
      } else if w in b && id in b[w] {
        assert SameIn(b, after, BTC);
        assert SameAccount(b[w][id], after[w][id], BTC);
      }
    }
  }

  lemma StepNormal(s: State, a: Action, t: State)
    requires Step(s, a, t) && NormalBooks(s.books)
    ensures NormalBooks(t.books)
  {
    hide Posts, WellFormed, ValidBooks, Fits, SharesKarma, Opens, NormalBooks, AdjustAll;
    OpensNormal(s.books, a.start);
    if a.msg.Karma? {
      if t.books != a.start {
        KarmaNormal(s.books, a.msg, t.books);
      }
    } else if a.entries == [] {
      AdjustAllNormal(a.start, []);
    } else {
      PostsWhole(a.msg, a.start, a.entries);
      AdjustAllNormal(a.start, a.entries);
    }
  }
}
