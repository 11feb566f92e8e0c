/** Writing a karma report into the ledger: `distribute_karma` and the KarmaBalance handler. */
module KarmaLedger {
  import opened Options
  import opened Decimals
  import opened Money
  import opened Sums
  import opened Ledger
  import opened BankSteps
  import opened Karma
  import opened Registers
  import opened Accountant

  /** What every write of the karma handler keeps. */
  ghost predicate KarmaMoves(b: Books, t: Books) {
    && ValidBooks(b) && ValidBooks(t)
    && (forall c :: c != KKP ==> SameIn(b, t, c))
    && UsersGrow(b, t) && KarmaStaysWhole(b, t) && OpensInternal(b, t)
    && t[Bank] == b[Bank] && t[Insurance] == b[Insurance]
  }

  lemma OpenedMovesKarma(b: Books, t: Books)
    requires ValidBooks(b) && Opened(b, t) && t[Bank] == b[Bank] && t[Insurance] == b[Insurance]
    ensures KarmaMoves(b, t)
  {
    ZeroWhole(KKP);
  }

  lemma SameInTransitive(a: Books, b: Books, d: Books, c: Currency)
    requires SameIn(a, b, c) && SameIn(b, d, c)
    ensures SameIn(a, d, c)
  {
  }

  lemma KarmaMovesTransitive(a: Books, b: Books, d: Books)
    requires KarmaMoves(a, b) && KarmaMoves(b, d)
    ensures KarmaMoves(a, d)
  {
    forall c | c != KKP
      ensures SameIn(a, d, c)
    {
      assert SameIn(a, b, c) && SameIn(b, d, c);
      SameInTransitive(a, b, d, c);
    }
    assert SameIn(a, b, BTC) && SameIn(b, d, BTC);
    assert UsersGrow(a, d) by { GrowTransitive(a, b, d); }
    assert KarmaStaysWhole(a, d) by { WholeTransitive(a, b, d); }
    assert OpensInternal(a, d) by { InternalTransitive(a, b, d); }
  }

  lemma GrowTransitive(a: Books, b: Books, d: Books)
    requires UsersGrow(a, b) && UsersGrow(b, d)
    ensures UsersGrow(a, d)
  {
  }

  lemma WholeTransitive(a: Books, b: Books, d: Books)
    requires KarmaStaysWhole(a, b) && KarmaStaysWhole(b, d) && SameIn(b, d, BTC)
    ensures KarmaStaysWhole(a, d)
  {
    hide Whole, Scale;
    forall w, id | w in d && id in d[w] && d[w][id].currency == KKP
        && (w in a && id in a[w] ==> Whole(a[w][id].balance, Scale(KKP)))
      ensures Whole(d[w][id].balance, Scale(KKP))
    {
      if w in b && id in b[w] {
        assert SameAccount(b[w][id], d[w][id], BTC);
      }
    }
  }

  lemma InternalTransitive(a: Books, b: Books, d: Books)
    requires OpensInternal(a, b) && OpensInternal(b, d) && SameIn(b, d, BTC)
    ensures OpensInternal(a, d)
  {
    forall id | id in d[Dealer] && id !in a[Dealer] && IsFiat(d[Dealer][id].currency)
      ensures d[Dealer][id].kind == Internal
    {
      if id in b[Dealer] {
        assert SameAccount(b[Dealer][id], d[Dealer][id], BTC);
      }
    }
  }

  /** `t` is `b` with the balance of one account replaced. */
  ghost predicate Rebalanced(b: Books, t: Books, o: Owner, a: Account, x: Decimal) {
    && Copy(b, o, a) && Copy(t, o, a.(balance := x)) && t.Keys == b.Keys
    && (forall w :: w in b ==> t[w].Keys == b[w].Keys)
    && (forall w :: w in b && w != o ==> t[w] == b[w])
    && (forall w, id :: w in b && id in b[w] && (w != o || id != a.id) ==> t[w][id] == b[w][id])
  }

  lemma PutRebalances(b: Books, o: Owner, a: Account, x: Decimal)
    requires Copy(b, o, a)
    ensures Rebalanced(b, Put(b, o, a.(balance := x)), o, a, x)
  {
  }

  lemma RebalancedValid(b: Books, t: Books, o: Owner, a: Account, x: Decimal)
    requires Rebalanced(b, t, o, a, x) && ValidBooks(b)
    ensures ValidBooks(t) && OpensInternal(b, t)
  {
    forall w | w in t
      ensures Keyed(t[w]) && (w == Dealer ==> Distinct(t[w]))
    {
      assert Keyed(b[w]) && (w == Dealer ==> Distinct(b[w]));
      assert forall id :: id in t[w] ==> t[w][id] == b[w][id].(balance := t[w][id].balance);
    }
  }

  lemma RebalancedElsewhere(b: Books, t: Books, o: Owner, a: Account, x: Decimal)
    requires Rebalanced(b, t, o, a, x) && a.currency == KKP && (o.User? || o == Dealer) && ValidBooks(b)
    ensures forall c :: c != KKP ==> SameIn(b, t, c)
    ensures t[Bank] == b[Bank] && t[Insurance] == b[Insurance]
  {
  }

  /** Replacing the balance of one KKP account. */
  lemma PutMovesKarma(b: Books, o: Owner, a: Account, x: Decimal)
    requires ValidBooks(b) && Copy(b, o, a) && a.currency == KKP && (o.User? || o == Dealer)
    requires o.User? ==> x >= a.balance
    requires Whole(a.balance, Scale(KKP)) ==> Whole(x, Scale(KKP))
    ensures KarmaMoves(b, Put(b, o, a.(balance := x)))
    ensures Copy(Put(b, o, a.(balance := x)), o, a.(balance := x))
  {
    hide Whole, Scale, Put, ValidBooks, OpensInternal, SameIn;
    var t := Put(b, o, a.(balance := x));
    PutRebalances(b, o, a, x);
    RebalancedValid(b, t, o, a, x);
    RebalancedElsewhere(b, t, o, a, x);
    assert UsersGrow(b, t);
    assert KarmaStaysWhole(b, t);
  }

  /** The dealer's tally of one type is its one account of that type. */
  lemma DealerSideIs(b: Books, a: Account)
    requires ValidBooks(b) && Copy(b, Dealer, a) && a.currency == KKP
    ensures Tally(b, DealerSide(a.kind), KKP) == a.balance
  {
    assert Distinct(b[Dealer]);
    SingleTally(b, DealerSide(a.kind), KKP, Dealer, a.id);
  }

  /** Writes to other owners or types leave a tally alone. */
  lemma PutUnseen(b: Books, o: Owner, a: Account, x: Decimal, v: View)
    requires Copy(b, o, a) && !Sees(v, o, a.kind)
    ensures Tally(Put(b, o, a.(balance := x)), v, KKP) == Tally(b, v, KKP)
  {
    hide Tally;
    PutTally(b, o, a.(balance := x), v, KKP);
  }

  lemma FixedOwners(r: Register)
    ensures var b := BooksOf(r); Dealer in b && Bank in b && Insurance in b
    ensures BooksOf(r)[Dealer] == r.dealer && BooksOf(r)[Bank] == r.liabilities
    ensures BooksOf(r)[Insurance] == map[r.insurance.id := r.insurance]
  {
  }

  /** One user's share. */
  method CreditUser(r: Register, uid: UserId, share: Decimal) returns (t: Register)
    requires ValidBooks(BooksOf(r)) && share > 0.0 && Whole(share, Scale(KKP))
    ensures KarmaMoves(BooksOf(r), BooksOf(t)) && t == r.(users := t.users)
    ensures Tally(BooksOf(t), Holders, KKP) == Tally(BooksOf(r), Holders, KKP) + share
    ensures Gains(BooksOf(r), BooksOf(t), map[uid := share])
  {
    hide BooksOf, UserKarma, Whole, Scale, Tally, Opened, Copy, ValidBooks, KarmaMoves, PutUser, Matches;
    hide KeepsCopies, Put;
    ghost var b := BooksOf(r);
    OpenedSelf(b);
    var a;
    t := OpenUser(r, uid, b);
    t, a := UserDefault(t, uid, KKP, Some(Internal), b);
    ghost var mid := t;
    FixedOwners(r);
    FixedOwners(mid);
    OpenedMovesKarma(b, BooksOf(mid));
    OpenedTallies(b, BooksOf(mid), Holders);
    forall u
      ensures UserKarma(BooksOf(mid), u) == UserKarma(b, u)
    {
      OpenedUserKarma(b, BooksOf(mid), u);
    }
    KarmaAccount(a, Internal);
    var karma := a.(balance := a.balance + share);
    OpenedValid(b, BooksOf(mid));
    if Whole(a.balance, Scale(KKP)) {
      WholeSum(a.balance, share, Scale(KKP));
    }
    PutMovesKarma(BooksOf(mid), User(uid), a, karma.balance);
    CreditTally(BooksOf(mid), uid, a, karma.balance);
    CreditGains(BooksOf(mid), uid, a, share);
    KarmaMovesTransitive(b, BooksOf(mid), Put(BooksOf(mid), User(uid), karma));
    t := PutUser(t, uid, karma);
    assert t == r.(users := t.users) by { PutUserFrame(mid, uid, karma); }
  }

  lemma PutUserFrame(r: Register, uid: UserId, a: Account)
    requires uid in r.users
    ensures PutUser(r, uid, a) == r.(users := PutUser(r, uid, a).users)
  {
  }

  lemma KarmaAccount(a: Account, kind: AccountType)
    requires Matches(a, KKP, Some(kind))
    ensures a.currency == KKP && a.kind == kind
  {
  }

  lemma OpenedTallies(b: Books, o: Books, v: View)
    requires Opened(b, o)
    ensures Tally(o, v, KKP) == Tally(b, v, KKP)
  {
    OpensTally(b, o, v, KKP);
  }

  lemma CreditTally(b: Books, uid: UserId, a: Account, x: Decimal)
    requires Copy(b, User(uid), a) && a.currency == KKP
    ensures Tally(Put(b, User(uid), a.(balance := x)), Holders, KKP) == Tally(b, Holders, KKP) + x - a.balance
  {
    hide Tally;
    PutTally(b, User(uid), a.(balance := x), Holders, KKP);
  }

  lemma OpenedUserKarma(b: Books, o: Books, u: UserId)
    requires Opened(b, o)
    ensures UserKarma(o, u) == UserKarma(b, u)
  {
    hide Opened, Tally;
    OpenedTallies(b, o, Only(User(u)));
  }

  lemma CreditGains(b: Books, uid: UserId, a: Account, share: Decimal)
    requires Copy(b, User(uid), a) && a.currency == KKP
    ensures Gains(b, Put(b, User(uid), a.(balance := a.balance + share)), map[uid := share])
  {
    hide Tally, Put;
    forall u
      ensures UserKarma(Put(b, User(uid), a.(balance := a.balance + share)), u)
           == UserKarma(b, u) + if u == uid then share else 0.0
    {
      PutTally(b, User(uid), a.(balance := a.balance + share), Only(User(u)), KKP);
    }
  }

  /** Everyone up to the users still to be visited has been credited. */
  ghost predicate GainsSoFar(b: Books, t: Books, totals: map<UserId, Decimal>, rest: map<UserId, Decimal>,
                             sum: Decimal, amount: Decimal)
  {
    forall u :: UserKarma(t, u)
             == UserKarma(b, u)
              + if u in totals && u !in rest && sum != 0.0 then Positive(Share(totals[u], sum, amount)) else 0.0
  }

  lemma GainsStep(b: Books, t: Books, next: Books, totals: map<UserId, Decimal>, rest: map<UserId, Decimal>,
                  sum: Decimal, amount: Decimal, u: UserId)
    requires GainsSoFar(b, t, totals, rest, sum, amount) && u in rest && u in totals && sum != 0.0
    requires var share := Share(totals[u], sum, amount);
             if share > 0.0 then Gains(t, next, map[u := share]) else next == t
    ensures GainsSoFar(b, next, totals, rest - {u}, sum, amount)
  {
    hide UserKarma, Share;
  }

  lemma GainsAtEnd(b: Books, t: Books, totals: map<UserId, Decimal>, sum: Decimal, amount: Decimal)
    requires GainsSoFar(b, t, totals, map[], sum, amount) && (totals == map[] || sum != 0.0)
    ensures Gains(b, t, Credits(totals, sum, amount))
  {
    hide UserKarma, Share;
  }

  method SumTotals(totals: map<UserId, Decimal>) returns (sum: Decimal)
    ensures sum == Sum(totals)
  {
    sum := 0.0;
    var rest := totals;
    while rest != map[]
      invariant sum + Sum(rest) == Sum(totals)
      decreases |rest|
    {
      ghost var some := SomeKey(rest);
      var u :| u in rest;
      SumAt(rest, u);
      sum := sum + rest[u];
      rest := rest - {u};
    }
  }

  lemma ShareWhole(total: Decimal, sum: Decimal, karma: Decimal)
    requires sum != 0.0
    ensures Whole(Share(total, sum, karma), Scale(KKP))
  {
  }

  /** What is left for the dealer after taking off one share. */
  function TakeOff(change: Decimal, share: Decimal): Decimal {
    NewMoney(KKP, change - share).value
  }

  lemma TakeOffIsExact(change: Decimal, share: Decimal)
    requires Whole(change, Scale(KKP)) && Whole(share, Scale(KKP))
    ensures TakeOff(change, share) == change - share && Whole(change - share, Scale(KKP))
  {
    WholeSum(change, share, Scale(KKP));
  }

  lemma KarmaMovesSelf(b: Books)
    requires ValidBooks(b)
    ensures KarmaMoves(b, b)
  {
    hide Whole, Scale;
  }

  lemma KarmaMovesValid(b: Books, t: Books)
    requires KarmaMoves(b, t)
    ensures ValidBooks(t)
  {
  }

  predicate PartOf(rest: map<UserId, Decimal>, totals: map<UserId, Decimal>) {
    forall u :: u in rest ==> u in totals && rest[u] == totals[u]
  }

  lemma PartOfSelf(totals: map<UserId, Decimal>)
    ensures PartOf(totals, totals)
  {
  }

  lemma PartOfStep(rest: map<UserId, Decimal>, totals: map<UserId, Decimal>, u: UserId)
    requires PartOf(rest, totals) && u in rest
    ensures u in totals && rest[u] == totals[u] && PartOf(rest - {u}, totals)
  {
  }

  /** A user is credited only a positive share. */
  method CreditShare(r: Register, u: UserId, share: Decimal) returns (t: Register)
    requires ValidBooks(BooksOf(r)) && Whole(share, Scale(KKP))
    ensures KarmaMoves(BooksOf(r), BooksOf(t)) && t == r.(users := t.users)
    ensures Tally(BooksOf(t), Holders, KKP) == Tally(BooksOf(r), Holders, KKP) + Positive(share)
    ensures if share > 0.0 then Gains(BooksOf(r), BooksOf(t), map[u := share]) else t == r
  {
    hide BooksOf, Whole, Scale, Tally, ValidBooks, KarmaMoves, Gains;
    t := r;
    KarmaMovesSelf(BooksOf(r));
    if share > 0.0 {
      t := CreditUser(r, u, share);
    }
  }

  /** Where the loop stands: the users in `rest` are still to be credited, and `change` is what is left. */
  ghost predicate Progress(r: Register, t: Register, totals: map<UserId, Decimal>, rest: map<UserId, Decimal>,
                           sum: Decimal, amount: Decimal, change: Decimal)
  {
    && (totals == map[] || sum != 0.0) && (rest == map[] || sum != 0.0) && PartOf(rest, totals)
    && KarmaMoves(BooksOf(r), BooksOf(t)) && t == r.(users := t.users)
    && GainsSoFar(BooksOf(r), BooksOf(t), totals, rest, sum, amount)
    && Tally(BooksOf(t), Holders, KKP) + Sum(Credits(rest, sum, amount))
       == Tally(BooksOf(r), Holders, KKP) + Sum(Credits(totals, sum, amount))
    && change - Sum(Shares(rest, sum, amount)) == amount - Sum(Shares(totals, sum, amount))
    && Whole(change, Scale(KKP))
  }

  /** One turn of the loop. */
  method ShareOne(ghost r: Register, t: Register, ghost totals: map<UserId, Decimal>, rest: map<UserId, Decimal>,
                  sum: Decimal, amount: Decimal, change: Decimal, u: UserId)
    returns (next: Register, left: Decimal)
    requires u in rest && sum != 0.0 && Progress(r, t, totals, rest, sum, amount, change)
    ensures Progress(r, next, totals, rest - {u}, sum, amount, left)
  {
    hide BooksOf, Whole, Scale, Tally, ValidBooks, KarmaMoves, Sum, Shares, Credits, Share, TakeOff, Gains;
    hide GainsSoFar, PartOf;
    var share := Share(rest[u], sum, amount);
    SharesStep(rest, sum, amount, u);
    ShareWhole(rest[u], sum, amount);
    PartOfStep(rest, totals, u);
    KarmaMovesValid(BooksOf(r), BooksOf(t));
    next := CreditShare(t, u, share);
    KarmaMovesTransitive(BooksOf(r), BooksOf(t), BooksOf(next));
    GainsStep(BooksOf(r), BooksOf(t), BooksOf(next), totals, rest, sum, amount, u);
    TakeOffIsExact(change, share);
    left := TakeOff(change, share);
  }

  /** `distribute_karma`: credit every positive share, keep the rest for the dealer. */
  method DistributeKarma(r: Register, amount: Decimal, totals: map<UserId, Decimal>)
    returns (t: Register, change: Decimal)
    requires ValidBooks(BooksOf(r)) && Whole(amount, Scale(KKP)) && Divisible(totals)
    ensures KarmaMoves(BooksOf(r), BooksOf(t)) && t == r.(users := t.users)
    ensures Tally(BooksOf(t), Holders, KKP)
         == Tally(BooksOf(r), Holders, KKP) + Sum(Credits(totals, Sum(totals), amount))
    ensures change == amount - Sum(Shares(totals, Sum(totals), amount)) && Whole(change, Scale(KKP))
    ensures Gains(BooksOf(r), BooksOf(t), Credits(totals, Sum(totals), amount))
  {
    hide BooksOf, Whole, Scale, Tally, ValidBooks, KarmaMoves, Sum, Shares, Credits, Gains, Progress;
    var sum := SumTotals(totals);
    t, change := r, amount;
    ProgressAtStart(r, totals, sum, amount);
    var rest := totals;
    while rest != map[]
      invariant rest != map[] ==> sum != 0.0
      invariant Progress(r, t, totals, rest, sum, amount, change)
      decreases |rest|
    {
      ghost var some := SomeKey(rest);
      var u :| u in rest;
      t, change := ShareOne(r, t, totals, rest, sum, amount, change, u);
      rest := rest - {u};
    }
    ProgressAtEnd(r, t, totals, sum, amount, change);
  }

  lemma ProgressAtStart(r: Register, totals: map<UserId, Decimal>, sum: Decimal, amount: Decimal)
    requires ValidBooks(BooksOf(r)) && Whole(amount, Scale(KKP)) && (totals == map[] || sum != 0.0)
    ensures Progress(r, r, totals, totals, sum, amount, amount)
  {
    hide BooksOf, Whole, Scale, Tally, ValidBooks, KarmaMoves, Sum, Shares, Credits, GainsSoFar, PartOf;
    KarmaMovesSelf(BooksOf(r));
    GainsAtStart(BooksOf(r), totals, sum, amount);
    PartOfSelf(totals);
  }

  lemma ProgressAtEnd(r: Register, t: Register, totals: map<UserId, Decimal>, sum: Decimal, amount: Decimal,
                      change: Decimal)
    requires Progress(r, t, totals, map[], sum, amount, change)
    ensures KarmaMoves(BooksOf(r), BooksOf(t)) && t == r.(users := t.users)
    ensures Tally(BooksOf(t), Holders, KKP) == Tally(BooksOf(r), Holders, KKP) + Sum(Credits(totals, sum, amount))
    ensures change == amount - Sum(Shares(totals, sum, amount)) && Whole(change, Scale(KKP))
    ensures Gains(BooksOf(r), BooksOf(t), Credits(totals, sum, amount))
  {
    hide BooksOf, Whole, Scale, Tally, ValidBooks, KarmaMoves, Sum, Shares, Credits, GainsSoFar, PartOf, Gains;
    SharesOfNone(sum, amount);
    GainsAtEnd(BooksOf(r), BooksOf(t), totals, sum, amount);
  }

  lemma GainsAtStart(b: Books, totals: map<UserId, Decimal>, sum: Decimal, amount: Decimal)
    ensures GainsSoFar(b, b, totals, totals, sum, amount)
  {
    hide UserKarma, Share;
  }

  /** Set the balance of the dealer's KKP account of one type. */
  method SetDealerKarma(r: Register, kind: AccountType, x: Decimal) returns (t: Register, ghost a: Account)
    requires ValidBooks(BooksOf(r)) && Whole(x, Scale(KKP))
    ensures KarmaMoves(BooksOf(r), BooksOf(t))
    ensures Copy(BooksOf(t), Dealer, a) && a.currency == KKP && a.kind == kind && a.balance == x
    ensures forall v :: !Sees(v, Dealer, kind) ==> Tally(BooksOf(t), v, KKP) == Tally(BooksOf(r), v, KKP)
    ensures Gains(BooksOf(r), BooksOf(t), map[])
  {
    hide BooksOf, Whole, Scale, Tally, Opened, Copy, ValidBooks, KarmaMoves, PutDealer, Matches, Put, Gains;
    ghost var b := BooksOf(r);
    OpenedSelf(b);
    var was;
    t, was := DealerDefault(r, KKP, kind, b);
    ghost var mid := BooksOf(t);
    FixedOwners(r);
    FixedOwners(t);
    OpenedMovesKarma(b, mid);
    OpenedValid(b, mid);
    KarmaAccount(was, kind);
    PutMovesKarma(mid, Dealer, was, x);
    a := was.(balance := x);
    ghost var after := Put(mid, Dealer, a);
    KarmaMovesTransitive(b, mid, after);
    forall v | !Sees(v, Dealer, kind)
      ensures Tally(after, v, KKP) == Tally(b, v, KKP)
    {
      OpenedTallies(b, mid, v);
      PutUnseen(mid, Dealer, was, x, v);
    }
    UsersUntouched(b, after, kind);
    t := PutDealer(t, was.(balance := x));
  }

  lemma UsersUntouched(b: Books, t: Books, kind: AccountType)
    requires forall v :: !Sees(v, Dealer, kind) ==> Tally(t, v, KKP) == Tally(b, v, KKP)
    ensures Gains(b, t, map[])
  {
    hide Tally;
    forall u
      ensures UserKarma(t, u) == UserKarma(b, u)
    {
      assert !Sees(Only(User(u)), Dealer, kind);
    }
  }

  lemma GainsTransitive(a: Books, b: Books, d: Books, credits: map<UserId, Decimal>)
    requires (Gains(a, b, map[]) && Gains(b, d, credits)) || (Gains(a, b, credits) && Gains(b, d, map[]))
    ensures Gains(a, d, credits)
  {
    hide UserKarma;
  }

  lemma DealerTallies(r: Register, t: Register, kind: AccountType)
    requires t == r.(users := t.users)
    ensures Tally(BooksOf(t), DealerSide(kind), KKP) == Tally(BooksOf(r), DealerSide(kind), KKP)
  {
    DealerTallyIs(r, kind);
    DealerTallyIs(t, kind);
  }

  lemma DealerTallyIs(r: Register, kind: AccountType)
    ensures Tally(BooksOf(r), DealerSide(kind), KKP) == Held(r.dealer, DealerSide(kind), Dealer, KKP)
  {
    var b := BooksOf(r);
    var seen := Seen(b, DealerSide(kind), KKP);
    SumAt(seen, Dealer);
    forall o | o in seen && o != Dealer
      ensures seen[o] == 0.0
    {
      HeldByView(b[o], DealerSide(kind), o, KKP);
    }
    var none: map<Owner, Decimal> := map[];
    SumExtend(none, seen - {Dealer});
  }

  lemma ReportedWhole(karma: Decimal)
    ensures Whole(-Reported(karma), Scale(KKP))
  {
    WholeSum(Reported(karma), 0.0, Scale(KKP)) by { ZeroWhole(KKP); }
  }

  lemma MovedKarmaIsShared(b: Books, m: Msg, after: Books)
    requires m.Karma? && KarmaMoves(b, after)
    requires Tally(after, DealerSide(External), KKP) == -Reported(m.karma)
    requires Apportions(b, Undistributed(b, m.karma), m.totals, after)
    ensures ValidBooks(b) && ValidBooks(after) && SharesKarma(b, m, after)
  {
    hide Tally, Sum, Apportions, SameIn;
  }

  lemma Distributed(b: Books, amount: Decimal, totals: map<UserId, Decimal>, after: Books)
    requires amount > 0.0 ==>
               && Divisible(totals) && Gains(b, after, Credits(totals, Sum(totals), amount))
               && Tally(after, Holders, KKP) == Tally(b, Holders, KKP) + Sum(Credits(totals, Sum(totals), amount))
               && Tally(after, DealerSide(Internal), KKP) == amount - Sum(Shares(totals, Sum(totals), amount))
    requires amount <= 0.0 ==>
               && Gains(b, after, map[])
               && Tally(after, Holders, KKP) == Tally(b, Holders, KKP)
               && Tally(after, DealerSide(Internal), KKP) == Tally(b, DealerSide(Internal), KKP)
    ensures Apportions(b, amount, totals, after)
  {
    hide Tally, Sum, Shares, Credits, Divisible, Gains;
  }

  lemma UndistributedIs(b: Books, karma: Decimal, x: Decimal)
    requires x == Tally(b, Holders, KKP)
    ensures NewMoney(KKP, Reported(karma) - x).value == Undistributed(b, karma)
    ensures Whole(Undistributed(b, karma), Scale(KKP))
  {
    hide Tally;
  }

  lemma DealerUnseen()
    ensures !Sees(Holders, Dealer, External) && !Sees(Holders, Dealer, Internal)
    ensures !Sees(DealerSide(Internal), Dealer, External)
    ensures !Sees(DealerSide(External), Dealer, Internal)
  {
  }

  /** Distribute and book what is left for the dealer. */
  method Apportion(r: Register, amount: Decimal, totals: map<UserId, Decimal>) returns (t: Register)
    requires ValidBooks(BooksOf(r)) && Whole(amount, Scale(KKP)) && Divisible(totals)
    ensures KarmaMoves(BooksOf(r), BooksOf(t))
    ensures Tally(BooksOf(t), Holders, KKP)
         == Tally(BooksOf(r), Holders, KKP) + Sum(Credits(totals, Sum(totals), amount))
    ensures Tally(BooksOf(t), DealerSide(Internal), KKP) == amount - Sum(Shares(totals, Sum(totals), amount))
    ensures Tally(BooksOf(t), DealerSide(External), KKP) == Tally(BooksOf(r), DealerSide(External), KKP)
    ensures Gains(BooksOf(r), BooksOf(t), Credits(totals, Sum(totals), amount))
  {
    hide BooksOf, Whole, Scale, Tally, Copy, ValidBooks, KarmaMoves, Sum, Shares, Credits, Sees, Gains;
    var change;
    t, change := DistributeKarma(r, amount, totals);
    DealerTallies(r, t, External);
    DealerUnseen();
    ghost var mid := BooksOf(t);
    KarmaMovesValid(BooksOf(r), mid);
    ghost var a;
    t, a := SetDealerKarma(t, Internal, change);
    GainsTransitive(BooksOf(r), mid, BooksOf(t), Credits(totals, Sum(totals), amount));
    KarmaMovesTransitive(BooksOf(r), mid, BooksOf(t));
    KarmaMovesValid(mid, BooksOf(t));
    DealerSideIs(BooksOf(t), a);
  }

  /** The dealer's external KKP account set to minus what the exchange reports. */
  method BookReported(r: Register, karma: Decimal) returns (t: Register)
    requires ValidBooks(BooksOf(r))
    ensures KarmaMoves(BooksOf(r), BooksOf(t)) && ValidBooks(BooksOf(t))
    ensures Tally(BooksOf(t), DealerSide(External), KKP) == -Reported(karma)
    ensures Tally(BooksOf(t), Holders, KKP) == Tally(BooksOf(r), Holders, KKP)
    ensures Tally(BooksOf(t), DealerSide(Internal), KKP) == Tally(BooksOf(r), DealerSide(Internal), KKP)
    ensures Gains(BooksOf(r), BooksOf(t), map[])
  {
    hide Gains;
    hide BooksOf, Whole, Scale, Tally, Copy, ValidBooks, KarmaMoves, Reported, Sees;
    ReportedWhole(karma);
    DealerUnseen();
    ghost var ext;
    t, ext := SetDealerKarma(r, External, -Reported(karma));
    KarmaMovesValid(BooksOf(r), BooksOf(t));
    DealerSideIs(BooksOf(t), ext);
  }

  /** The KarmaBalance handler once the users' swap totals are known. It panics when there is karma to
      share and the totals add up to nothing, with the dealer's external account already written. */
  method ReportKarma(r: Register, karma: Decimal, totals: map<UserId, Decimal>) returns (t: Register, panicked: bool)
    requires ValidBooks(BooksOf(r))
    ensures KarmaMoves(BooksOf(r), BooksOf(t)) && ValidBooks(BooksOf(t))
    ensures panicked <==> Undistributed(BooksOf(r), karma) > 0.0 && !Divisible(totals)
    ensures !panicked ==> SharesKarma(BooksOf(r), Msg.Karma(karma, totals), BooksOf(t))
  {
    ghost var m := Msg.Karma(karma, totals);
    hide BooksOf, Whole, Scale, Tally, Copy, ValidBooks, KarmaMoves, Reported, NewMoney, Sum, SharesKarma, Apportions;
    hide Shares, Credits, Undistributed, Sees, Gains;
    ghost var b := BooksOf(r);
    var distributed := Exposure(r, KKP);
    var amount := NewMoney(KKP, Reported(karma) - distributed).value;
    UndistributedIs(b, karma, distributed);
    t := BookReported(r, karma);
    ghost var mid := BooksOf(t);
    panicked := false;
    if amount > 0.0 {
      var sum := SumTotals(totals);
      if totals != map[] && sum == 0.0 {
        return t, true;
      }
      t := Apportion(t, amount, totals);
      GainsTransitive(b, mid, BooksOf(t), Credits(totals, Sum(totals), amount));
      KarmaMovesTransitive(b, mid, BooksOf(t));
      Distributed(b, amount, totals, BooksOf(t));
      MovedKarmaIsShared(b, m, BooksOf(t));
      return;
    }
    Distributed(b, amount, totals, mid);
    MovedKarmaIsShared(b, m, mid);
  }
}
