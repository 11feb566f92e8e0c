/** Adding up the ledger (bank/src/accountant.rs) and the exposures reported to the dealer. */
module Accountant {
  import opened Decimals
  import opened Money
  import opened Sums
  import opened Ledger
  import opened BankRuns
  import opened BankTheorems
  import opened Registers

  type Tallies = map<Currency, Decimal>

  /** The tally of a currency that no account has mentioned is zero. */
  function TallyOf(t: Tallies, c: Currency): Decimal {
    if c in t then t[c] else 0.0
  }

  function Bump(t: Tallies, a: Account): Tallies {
    t[a.currency := TallyOf(t, a.currency) + a.balance]
  }

  lemma HeldStep(accounts: Accounts, v: View, o: Owner, c: Currency, id: AccountId)
    requires id in accounts
    ensures Held(accounts, v, o, c) == Stake(v, o, accounts[id], c) + Held(accounts - {id}, v, o, c)
  {
    hide Stake, Stakes, Sum;
    var x, rest := Stake(v, o, accounts[id], c), accounts - {id};
    forall i | i in accounts
      ensures Stakes(accounts, v, o, c)[i] == if i == id then x else Stakes(rest, v, o, c)[i]
    {
      StakesAt(accounts, v, o, c, i);
      if i != id {
        StakesAt(rest, v, o, c, i);
      }
    }
    SumExtend(Stakes(rest, v, o, c)[id := x], Stakes(accounts, v, o, c));
    SumUpdate(Stakes(rest, v, o, c), id, x);
  }

  lemma HeldNothing(v: View, o: Owner, c: Currency)
    ensures Held(map[], v, o, c) == 0.0
  {
    assert Stakes(map[], v, o, c) == map[];
  }

  /** `sum` has everything of `accounts` on top of `t` except what is still in `rest`. */
  ghost predicate Added(t: Tallies, sum: Tallies, accounts: Accounts, rest: Accounts, o: Owner) {
    forall c :: TallyOf(sum, c) + Held(rest, Everyone, o, c) == TallyOf(t, c) + Held(accounts, Everyone, o, c)
  }

  lemma AddedStep(t: Tallies, sum: Tallies, accounts: Accounts, rest: Accounts, o: Owner, id: AccountId)
    requires id in rest && Added(t, sum, accounts, rest, o)
    ensures Added(t, Bump(sum, rest[id]), accounts, rest - {id}, o)
  {
    hide Held;
    forall c
      ensures TallyOf(Bump(sum, rest[id]), c) + Held(rest - {id}, Everyone, o, c)
           == TallyOf(t, c) + Held(accounts, Everyone, o, c)
    {
      HeldStep(rest, Everyone, o, c, id);
    }
  }

  /** Add up one owner's accounts, in whatever order the map is visited. */
  method AddAccounts(t: Tallies, accounts: Accounts, ghost o: Owner) returns (sum: Tallies, debt: bool)
    ensures forall c :: TallyOf(sum, c) == TallyOf(t, c) + Held(accounts, Everyone, o, c)
    ensures debt <==> exists id :: id in accounts && accounts[id].balance < 0.0
  {
    hide Held;
    sum, debt := t, false;
    var rest := accounts;
    while rest != map[]
      invariant rest.Keys <= accounts.Keys && forall id :: id in rest ==> rest[id] == accounts[id]
      invariant Added(t, sum, accounts, rest, o)
      invariant debt <==> exists id :: id in accounts && id !in rest && accounts[id].balance < 0.0
      decreases |rest|
    {
      ghost var some := SomeKey(rest);
      var id :| id in rest;
      AddedStep(t, sum, accounts, rest, o, id);
      sum := Bump(sum, rest[id]);
      debt := debt || rest[id].balance < 0.0;
      rest := rest - {id};
    }
    forall c
      ensures Held(map[], Everyone, o, c) == 0.0
    {
      HeldNothing(Everyone, o, c);
    }
  }

  // ---- all users

  ghost function UsersHeld(users: map<UserId, Accounts>, c: Currency): Decimal {
    Sum(map u | u in users :: Held(users[u], Everyone, User(u), c))
  }

  lemma UsersHeldStep(users: map<UserId, Accounts>, c: Currency, u: UserId)
    requires u in users
    ensures UsersHeld(users, c) == Held(users[u], Everyone, User(u), c) + UsersHeld(users - {u}, c)
  {
    hide Held;
    var m := map w | w in users :: Held(users[w], Everyone, User(w), c);
    SumAt(m, u);
    assert m - {u} == map w | w in users - {u} :: Held((users - {u})[w], Everyone, User(w), c);
  }

  lemma UsersHeldNothing(c: Currency)
    ensures UsersHeld(map[], c) == 0.0
  {
    var none: map<UserId, Accounts> := map[];
    assert (map u | u in none :: 0.0) == map[];
  }

  /** A view that sees an owner fully or not at all. */
  lemma HeldByView(accounts: Accounts, v: View, o: Owner, c: Currency)
    requires forall k :: Sees(v, o, k) <==> Sees(v, o, Internal)
    ensures Held(accounts, v, o, c) == if Sees(v, o, Internal) then Held(accounts, Everyone, o, c) else 0.0
  {
    if Sees(v, o, Internal) {
      FullySeen(accounts, v, o, c);
    } else {
      NotSeen(accounts, v, o, c);
    }
  }

  lemma FullySeen(accounts: Accounts, v: View, o: Owner, c: Currency)
    requires forall k :: Sees(v, o, k)
    ensures Held(accounts, v, o, c) == Held(accounts, Everyone, o, c)
  {
    hide Sees, Stakes, Sum;
    SeesAll(o);
    forall id | id in accounts
      ensures Stakes(accounts, Everyone, o, c)[id] == Stakes(accounts, v, o, c)[id]
    {
      StakesAt(accounts, Everyone, o, c, id);
      StakesAt(accounts, v, o, c, id);
    }
    SumExtend(Stakes(accounts, v, o, c), Stakes(accounts, Everyone, o, c));
  }

  lemma SeesAll(o: Owner)
    ensures forall k :: Sees(Everyone, o, k)
  {
  }

  lemma NotSeen(accounts: Accounts, v: View, o: Owner, c: Currency)
    requires forall k :: !Sees(v, o, k)
    ensures Held(accounts, v, o, c) == 0.0
  {
    hide Sees, Stakes;
    var none: map<AccountId, Decimal> := map[];
    forall id | id in accounts
      ensures Stakes(accounts, v, o, c)[id] == 0.0
    {
      StakesAt(accounts, v, o, c, id);
    }
    SumExtend(none, Stakes(accounts, v, o, c));
  }

  lemma StakesAt(accounts: Accounts, v: View, o: Owner, c: Currency, id: AccountId)
    requires id in accounts
    ensures Stakes(accounts, v, o, c)[id] == Stake(v, o, accounts[id], c)
  {
  }

  lemma TallyWithoutOwner(b: Books, v: View, c: Currency, o: Owner)
    requires o in b
    ensures Tally(b, v, c) == Held(b[o], v, o, c) + Tally(b - {o}, v, c)
  {
    hide Held;
    SumAt(Seen(b, v, c), o);
    assert Seen(b - {o}, v, c) == Seen(b, v, c) - {o};
  }

  lemma TallyWithoutOwners(v: View, c: Currency)
    ensures Tally(map[], v, c) == 0.0
  {
    assert Seen(map[], v, c) == map[];
  }

  lemma BooksWithoutUser(r: Register, u: UserId)
    requires u in r.users
    ensures BooksOf(r.(users := r.users - {u})) == BooksOf(r) - {User(u)} && User(u) in BooksOf(r)
    ensures BooksOf(r)[User(u)] == r.users[u]
  {
    var b, t := BooksOf(r), BooksOf(r.(users := r.users - {u}));
    assert forall o :: o in t <==> o in b && o != User(u);
  }

  lemma BooksWithoutUsers(r: Register)
    requires r.users == map[]
    ensures BooksOf(r) - {Dealer} - {Bank} - {Insurance} == map[]
    ensures Dealer in BooksOf(r) && Bank in BooksOf(r) && Insurance in BooksOf(r)
    ensures BooksOf(r)[Dealer] == r.dealer && BooksOf(r)[Bank] == r.liabilities
  {
  }

  lemma TallyWithoutUsers(r: Register, v: View, c: Currency)
    requires (v == Reconciled || v == Holders) && r.users == map[]
    ensures Tally(BooksOf(r), v, c)
         == if v != Reconciled then 0.0
            else Held(r.dealer, Everyone, Dealer, c) + Held(r.liabilities, Everyone, Bank, c)
  {
    hide Held, BooksOf, Tally;
    var b := BooksOf(r);
    BooksWithoutUsers(r);
    TallyWithoutOwner(b, v, c, Dealer);
    TallyWithoutOwner(b - {Dealer}, v, c, Bank);
    TallyWithoutOwner(b - {Dealer} - {Bank}, v, c, Insurance);
    TallyWithoutOwners(v, c);
    HeldByView(r.dealer, v, Dealer, c);
    HeldByView(r.liabilities, v, Bank, c);
    HeldByView(b[Insurance], v, Insurance, c);
  }

  lemma TallyWithoutUser(r: Register, v: View, c: Currency, u: UserId)
    requires (v == Reconciled || v == Holders) && u in r.users
    ensures Tally(BooksOf(r), v, c)
         == Held(r.users[u], Everyone, User(u), c) + Tally(BooksOf(r.(users := r.users - {u})), v, c)
  {
    hide Held, BooksOf, Tally;
    BooksWithoutUser(r, u);
    TallyWithoutOwner(BooksOf(r), v, c, User(u));
    HeldByView(r.users[u], v, User(u), c);
  }

  /** The owners' tallies regrouped as users, dealer, bank and insurance. */
  lemma {:induction false} TallyByGroup(r: Register, v: View, c: Currency)
    requires v == Reconciled || v == Holders
    ensures Tally(BooksOf(r), v, c)
         == UsersHeld(r.users, c)
          + if v != Reconciled then 0.0
            else Held(r.dealer, Everyone, Dealer, c) + Held(r.liabilities, Everyone, Bank, c)
    decreases |r.users|
  {
    hide Held, BooksOf, Tally, UsersHeld;
    if r.users == map[] {
      UsersHeldNothing(c);
      TallyWithoutUsers(r, v, c);
    } else {
      var u := SomeKey(r.users);
      TallyWithoutUser(r, v, c, u);
      UsersHeldStep(r.users, c, u);
      TallyByGroup(r.(users := r.users - {u}), v, c);
    }
  }

  ghost predicate UsersAdded(sum: Tallies, users: map<UserId, Accounts>, rest: map<UserId, Accounts>) {
    forall c :: TallyOf(sum, c) + UsersHeld(rest, c) == UsersHeld(users, c)
  }

  lemma UsersAddedStep(sum: Tallies, next: Tallies, users: map<UserId, Accounts>,
                       rest: map<UserId, Accounts>, u: UserId)
    requires u in rest && UsersAdded(sum, users, rest)
    requires forall c :: TallyOf(next, c) == TallyOf(sum, c) + Held(rest[u], Everyone, User(u), c)
    ensures UsersAdded(next, users, rest - {u})
  {
    hide Held, UsersHeld, TallyOf;
    forall c
      ensures TallyOf(next, c) + UsersHeld(rest - {u}, c) == UsersHeld(users, c)
    {
      UsersHeldStep(rest, c, u);
    }
  }

  /** `get_bank_state` and the first pass of `reconcile_ledger`: all users' balances by currency. */
  method AddUsers(r: Register) returns (sum: Tallies, debt: bool)
    ensures forall c :: TallyOf(sum, c) == Tally(BooksOf(r), Holders, c)
    ensures debt <==> exists u, id :: u in r.users && id in r.users[u] && r.users[u][id].balance < 0.0
  {
    hide Held, UsersHeld, Tally, BooksOf;
    sum, debt := map[], false;
    var rest := r.users;
    while rest != map[]
      invariant rest.Keys <= r.users.Keys && forall u :: u in rest ==> rest[u] == r.users[u]
      invariant UsersAdded(sum, r.users, rest)
      invariant debt <==> exists u, id :: u in r.users && u !in rest && id in r.users[u] && r.users[u][id].balance < 0.0
      decreases |rest|
    {
      ghost var some := SomeKey(rest);
      var u :| u in rest;
      var next, negative := AddAccounts(sum, rest[u], User(u));
      UsersAddedStep(sum, next, r.users, rest, u);
      sum := next;
      debt := debt || negative;
      rest := rest - {u};
    }
    forall c
      ensures TallyOf(sum, c) == Tally(BooksOf(r), Holders, c)
    {
      UsersHeldNothing(c);
      TallyByGroup(r, Holders, c);
    }
  }

  /** One currency of the exposures in `get_bank_state`. */
  method Exposure(r: Register, c: Currency) returns (x: Decimal)
    ensures x == Tally(BooksOf(r), Holders, c)
  {
    var sum, debt := AddUsers(r);
    x := TallyOf(sum, c);
  }

  lemma DebtIsInsolvency(r: Register)
    ensures Solvent(BooksOf(r)) <==> !exists u, id :: u in r.users && id in r.users[u] && r.users[u][id].balance < 0.0
  {
    var b := BooksOf(r);
    forall u, id | u in r.users && id in r.users[u]
      ensures User(u) in b && b[User(u)][id] == r.users[u][id]
    {
    }
  }

  /** `reconcile_ledger`: Ok exactly when no user account is negative and every currency nets to zero
      over users, bank and dealer. */
  method Reconcile(r: Register) returns (ok: bool)
    ensures ok <==> Reconciles(BooksOf(r))
  {
    hide Held, UsersHeld, Tally, BooksOf, Solvent;
    var sum, debt := AddUsers(r);
    DebtIsInsolvency(r);
    if debt {
      return false;
    }
    var unused;
    sum, unused := AddAccounts(sum, r.liabilities, Bank);
    sum, unused := AddAccounts(sum, r.dealer, Dealer);
    forall c
      ensures TallyOf(sum, c) == Tally(BooksOf(r), Reconciled, c)
    {
      TallyByGroup(r, Holders, c);
      TallyByGroup(r, Reconciled, c);
    }
    ok := forall c :: c in sum ==> sum[c] == 0.0;
    if forall c :: TallyOf(sum, c) == 0.0 {
      assert forall c :: c in sum ==> TallyOf(sum, c) == 0.0;
    }
    assert (forall c :: TallyOf(sum, c) == 0.0) <==> (forall c :: Tally(BooksOf(r), Reconciled, c) == 0.0);
  }
}
