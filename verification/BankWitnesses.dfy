/** Concrete inputs on which the bank stops reconciling. */
module BankWitnesses {
  import opened Decimals
  import opened Money
  import opened Sums
  import opened Ledger
  import opened BankSteps
  import opened BankRuns
  import opened BankTheorems
  import opened Registers
  import opened Karma
  import opened BankEngine

  // ---- a user with a negative swap total

  const TOTALS: map<UserId, Decimal> := map[1 := 3.0, 2 := -1.0]

  lemma SumOfTotals()
    ensures Sum(TOTALS) == 2.0 && Divisible(TOTALS)
  {
    var none: map<UserId, Decimal> := map[];
    SumUpdate(none, 1, 3.0);
    SumUpdate(none[1 := 3.0], 2, -1.0);
    assert none[1 := 3.0][2 := -1.0] == TOTALS;
  }

  lemma OneWhole()
    ensures Reported(1.0) == 1.0 && Share(-1.0, 2.0, 1.0) == -0.5
  {
    WholeBy(1.0, Scale(KKP), 100_000_000);
    WholeBy(-0.5, Scale(KKP), -50_000_000);
    assert Product(-1.0 / 2.0, 1.0) == -0.5;
  }

  /** On a new ledger, one unit of karma shared between totals of 3 and -1 leaves KKP off balance. */
  method NegativeTotalUnbalancesKarma() returns (e: Engine)
    ensures Tally(BooksOf(e.ledger), Reconciled, KKP) != 0.0 && !Reconciles(BooksOf(e.ledger))
  {
    hide Tally, SharesKarma, Step, BooksOf, ValidBooks, KarmaInBalance, Divisible, NormalBooks;
    e := new Engine(0);
    ghost var b := BooksOf(e.ledger);
    SumOfTotals();
    assert !KarmaStaysInBalance(b, Msg.Karma(1.0, TOTALS)) by {
      OneUnitToShare(b);
    }
    ghost var act;
    var panicked;
    panicked, act := e.KarmaBalance(1.0, TOTALS, true);
    KarmaNetsToZeroIff(b, act.msg, BooksOf(e.ledger), 0.0);
  }

  lemma OneUnitToShare(b: Books)
    requires Tally(b, Holders, KKP) == 0.0
    ensures !KarmaStaysInBalance(b, Msg.Karma(1.0, TOTALS))
  {
    hide Tally, Sum, Share, Whole;
    SumOfTotals();
    OneWhole();
    assert Undistributed(b, 1.0) == 1.0;
    assert 2 in TOTALS && Share(TOTALS[2], Sum(TOTALS), 1.0) < 0.0;
  }

  // ---- command-line transfers

  /** Two users, the bank and the insurance fund, each with an empty BTC account. */
  const EMPTY: Books := map[
    User(1) := map[1 := Account(1, 0.0, BTC, Internal)],
    User(2) := map[2 := Account(2, 0.0, BTC, Internal)],
    Dealer := map[],
    Bank := map[3 := Account(3, 0.0, BTC, External)],
    Insurance := map[4 := Account(4, 0.0, BTC, Internal)]]

  lemma EmptyReconciles()
    ensures ValidBooks(EMPTY) && Reconciles(EMPTY) && Opened(EMPTY, EMPTY)
  {
    hide Tally;
    forall c
      ensures Tally(EMPTY, Reconciled, c) == 0.0
    {
      NothingTallied(EMPTY, Reconciled, c);
    }
  }

  function Transfer(o: Owner, oid: AccountId, okind: AccountType,
                    i: Owner, iid: AccountId, ikind: AccountType): Action
  {
    Action(Cli(o, i, BTC, Money(1.0, BTC)), EMPTY,
           [Entry(o, oid, okind, BTC, -1.0), Entry(i, iid, ikind, BTC, 1.0)], false)
  }

  lemma OneBitcoin(o: Owner, i: Owner)
    ensures WellFormed(Cli(o, i, BTC, Money(1.0, BTC)))
  {
    WholeBy(1.0, Scale(BTC), 1_000_000_000_000);
  }

  lemma OverdraftSteps()
    ensures var a := Transfer(User(1), 1, Internal, User(2), 2, Internal);
            && WellFormed(a.msg) && Posts(a.msg, EMPTY, a.entries) && (forall e :: e in a.entries ==> Fits(EMPTY, e))
            && !Covered(EMPTY, a.entries)
  {
    OneBitcoin(User(1), User(2));
    hide WellFormed;
  }

  lemma InsuranceSteps()
    ensures var a := Transfer(Insurance, 4, Internal, Bank, 3, External);
            && WellFormed(a.msg) && Posts(a.msg, EMPTY, a.entries) && forall e :: e in a.entries ==> Fits(EMPTY, e)
  {
    OneBitcoin(Insurance, Bank);
    hide WellFormed;
  }

  /** Moving one bitcoin that the payer does not have, or one out of the insurance fund: both transfers
      are posted, and the ledger no longer reconciles. */
  lemma CliTransferBreaksReconciliation(p: InFlight, a: Action)
    requires a == Transfer(User(1), 1, Internal, User(2), 2, Internal)
          || a == Transfer(Insurance, 4, Internal, Bank, 3, External)
    ensures (forall e :: e in a.entries ==> Fits(EMPTY, e)) && a.entries != []
    ensures var s, t := State(EMPTY, p), State(AdjustAll(EMPTY, a.entries), p);
            Step(s, a, t) && Reconciles(s.books) && !Reconciles(t.books)
  {
    hide Step, Reconciles, Posts, Opened, WellFormed, ValidBooks, AdjustAll, Covered, NextPayments, EMPTY;
    OverdraftSteps();
    InsuranceSteps();
    EmptyReconciles();
    var s, t := State(EMPTY, p), State(AdjustAll(EMPTY, a.entries), p);
    PostedStep(s, a, t.books);
    CliReconcilesIff(s, a, t);
  }
}
