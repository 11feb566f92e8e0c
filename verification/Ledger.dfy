/**
 The double-entry books (bank/src/ledger.rs): every owner holds accounts, an event changes
 balances by a list of entries, and a tally adds up one currency over the owners in view.
 */
module Ledger {
  import opened Options
  import opened Decimals
  import opened Money
  import opened Sums

  type UserId = int
  type AccountId = int
  datatype AccountType = Internal | External

  datatype Account = Account(id: AccountId, balance: Decimal, currency: Currency, kind: AccountType)
  type Accounts = map<AccountId, Account>

  datatype Owner = User(uid: UserId) | Dealer | Bank | Insurance
  type Books = map<Owner, Accounts>

  // ---- account selection

  predicate Matches(a: Account, c: Currency, kind: Option<AccountType>) {
    a.currency == c && (kind.Some? ==> a.kind == kind.value)
  }

  /** `a` is what `get_default_account` hands out, leaving `after`: some matching account or a new empty one. */
  ghost predicate IsDefault(before: Accounts, c: Currency, kind: Option<AccountType>, after: Accounts, a: Account) {
    && Matches(a, c, kind)
    && a.id in after && after[a.id] == a
    && if exists id :: id in before && Matches(before[id], c, kind) then after == before
       else
         && a.id !in before && after == before[a.id := a]
         && a.balance == 0.0 && (kind.None? ==> a.kind == Internal)
  }

  lemma {:induction false} FreshId(ids: set<AccountId>) returns (n: AccountId)
    ensures forall i :: i in ids ==> i < n
  {
    n := 0;
    if i :| i in ids {
      n := FreshId(ids - {i});
      assert forall j :: j in ids ==> j == i || j in ids - {i};
      n := if i < n then n else i + 1;
    }
  }

  /** Find or create; the account returned is a copy. */
  method DefaultAccount(accounts: Accounts, c: Currency, kind: Option<AccountType>)
    returns (after: Accounts, a: Account)
    requires Keyed(accounts)
    ensures IsDefault(accounts, c, kind, after, a) && Keyed(after)
    ensures Distinct(accounts) ==> Distinct(after)
  {
    if id :| id in accounts && Matches(accounts[id], c, kind) {
      return accounts, accounts[id];
    }
    assert exists n: AccountId :: n !in accounts by {
      var n := FreshId(accounts.Keys);
      assert n !in accounts;
    }
    var id: AccountId :| id !in accounts;
    a := Account(id, 0.0, c, if kind.Some? then kind.value else Internal);
    after := accounts[id := a];
  }

  predicate Keyed(accounts: Accounts) {
    forall id :: id in accounts ==> accounts[id].id == id
  }

  /** At most one account of a currency and type. */
  ghost predicate Distinct(accounts: Accounts) {
    forall i, j | i in accounts && j in accounts ::
      accounts[i].currency == accounts[j].currency && accounts[i].kind == accounts[j].kind ==> i == j
  }

  // ---- tallies

  /** Which accounts a tally adds up. */
  datatype View =
    | Everyone
    | Reconciled
    | Holders
    | Synthetic
    | Only(owner: Owner)
    | DealerSide(kind: AccountType)
    | BankSide(kind: AccountType)

  /** `Reconciled` is what the accountant adds up, `Synthetic` the two sides of the fiat business. */
  predicate Sees(v: View, o: Owner, kind: AccountType) {
    match v
    case Everyone => true
    case Reconciled => o != Insurance
    case Holders => o.User?
    case Synthetic => o.User? || o == Dealer
    case Only(owner) => o == owner
    case DealerSide(k) => o == Dealer && kind == k
    case BankSide(k) => o == Bank && kind == k
  }

  function Stake(v: View, o: Owner, a: Account, c: Currency): Decimal {
    if Sees(v, o, a.kind) && a.currency == c then a.balance else 0.0
  }

  ghost function Stakes(accounts: Accounts, v: View, o: Owner, c: Currency): (s: map<AccountId, Decimal>)
    ensures s.Keys == accounts.Keys
  {
    map id | id in accounts :: Stake(v, o, accounts[id], c)
  }

  ghost function Held(accounts: Accounts, v: View, o: Owner, c: Currency): Decimal {
    Sum(Stakes(accounts, v, o, c))
  }

  ghost function Seen(b: Books, v: View, c: Currency): map<Owner, Decimal> {
    map o | o in b :: Held(b[o], v, o, c)
  }

  ghost function Tally(b: Books, v: View, c: Currency): Decimal {
    Sum(Seen(b, v, c))
  }

  /** Accounts are filed under their ids. The dealer's come from `get_default_account` alone, one of each currency
      and type; users may have several. */
  ghost predicate ValidBooks(b: Books) {
    && Dealer in b && Bank in b && Insurance in b
    && (forall o :: o in b ==> Keyed(b[o])) && Distinct(b[Dealer])
  }

  // ---- changing the books

  ghost function Put(b: Books, o: Owner, a: Account): Books {
    if o in b then b[o := b[o][a.id := a]] else b
  }

  lemma PutTally(b: Books, o: Owner, a: Account, v: View, c: Currency)
    requires o in b
    ensures Tally(Put(b, o, a), v, c)
         == Tally(b, v, c) + Stake(v, o, a, c) - (if a.id in b[o] then Stake(v, o, b[o][a.id], c) else 0.0)
  {
    hide Held, Stake;
    HeldUpdate(b[o], a, v, o, c);
    var x := Held(b[o][a.id := a], v, o, c);
    assert Seen(Put(b, o, a), v, c) == Seen(b, v, c)[o := x];
    SumUpdate(Seen(b, v, c), o, x);
  }

  lemma HeldUpdate(accounts: Accounts, a: Account, v: View, o: Owner, c: Currency)
    ensures Held(accounts[a.id := a], v, o, c)
         == Held(accounts, v, o, c) + Stake(v, o, a, c)
             - (if a.id in accounts then Stake(v, o, accounts[a.id], c) else 0.0)
  {
    assert Stakes(accounts[a.id := a], v, o, c) == Stakes(accounts, v, o, c)[a.id := Stake(v, o, a, c)];
    SumUpdate(Stakes(accounts, v, o, c), a.id, Stake(v, o, a, c));
  }

  /** One balance change. */
  datatype Entry = Entry(owner: Owner, id: AccountId, kind: AccountType, currency: Currency, delta: Decimal)

  predicate Fits(b: Books, e: Entry) {
    && e.owner in b && e.id in b[e.owner]
    && var a := b[e.owner][e.id]; a.id == e.id && a.kind == e.kind && a.currency == e.currency
  }

  function BalanceOf(b: Books, e: Entry): Decimal
    requires Fits(b, e)
  {
    b[e.owner][e.id].balance
  }

  ghost function Adjust(b: Books, e: Entry): (r: Books)
    requires Fits(b, e)
    ensures forall x :: Fits(b, x) <==> Fits(r, x)
    ensures ValidBooks(b) ==> ValidBooks(r)
  {
    var a := b[e.owner][e.id];
    Put(b, e.owner, a.(balance := a.balance + e.delta))
  }

  ghost function AdjustAll(b: Books, es: seq<Entry>): (r: Books)
    requires forall e :: e in es ==> Fits(b, e)
    ensures forall x :: Fits(b, x) <==> Fits(r, x)
    ensures ValidBooks(b) ==> ValidBooks(r)
    decreases es
  {
    if es == [] then b else AdjustAll(Adjust(b, es[0]), es[1..])
  }

  /** What one entry adds to a tally. */
  function Weight(e: Entry, v: View, c: Currency): Decimal {
    if Sees(v, e.owner, e.kind) && e.currency == c then e.delta else 0.0
  }

  function Net(es: seq<Entry>, v: View, c: Currency): Decimal {
    if es == [] then 0.0 else Weight(es[0], v, c) + Net(es[1..], v, c)
  }

  lemma AdjustTally(b: Books, e: Entry, v: View, c: Currency)
    requires Fits(b, e)
    ensures Tally(Adjust(b, e), v, c) == Tally(b, v, c) + Weight(e, v, c)
  {
    hide Tally;
    var a := b[e.owner][e.id];
    PutTally(b, e.owner, a.(balance := a.balance + e.delta), v, c);
  }

  lemma {:induction false} AdjustAllTally(b: Books, es: seq<Entry>, v: View, c: Currency)
    requires forall e :: e in es ==> Fits(b, e)
    ensures Tally(AdjustAll(b, es), v, c) == Tally(b, v, c) + Net(es, v, c)
    decreases es
  {
    hide Tally, Adjust, Fits, ValidBooks;
    if es != [] {
      AdjustTally(b, es[0], v, c);
      AdjustAllTally(Adjust(b, es[0]), es[1..], v, c);
    }
  }

  lemma {:induction false} NetConcat(a: seq<Entry>, b: seq<Entry>, v: View, c: Currency)
    ensures Net(a + b, v, c) == Net(a, v, c) + Net(b, v, c)
  {
    if a == [] {
      assert a + b == b;
    } else {
      assert (a + b)[1..] == a[1..] + b;
      NetConcat(a[1..], b, v, c);
    }
  }

  lemma {:induction false} AdjustConcat(b: Books, es: seq<Entry>, fs: seq<Entry>)
    requires forall e :: e in es + fs ==> Fits(b, e)
    ensures forall e :: e in es ==> Fits(b, e)
    ensures forall e :: e in fs ==> Fits(b, e)
    ensures AdjustAll(b, es + fs) == AdjustAll(AdjustAll(b, es), fs)
    decreases es
  {
    hide Adjust, Fits, ValidBooks;
    assert forall e :: e in es ==> e in es + fs;
    assert forall e :: e in fs ==> e in es + fs;
    if es == [] {
      assert es + fs == fs;
    } else {
      assert (es + fs)[1..] == es[1..] + fs;
      AdjustConcat(Adjust(b, es[0]), es[1..], fs);
    }
  }

  // ---- books that agree on a currency

  predicate SameAccount(a: Account, b: Account, c: Currency) {
    a.kind == b.kind && a.currency == b.currency && (a.currency == c ==> a.balance == b.balance)
  }

  /** Every account of `b` is still there with the same balance if it is in `c`, and new ones hold none of it. */
  ghost predicate SameIn(b: Books, o: Books, c: Currency) {
    && b.Keys <= o.Keys
    && (forall w :: w in b ==> b[w].Keys <= o[w].Keys)
    && (forall w, id :: w in b && id in b[w] ==> SameAccount(b[w][id], o[w][id], c))
    && (forall w, id :: w in o && id in o[w] && !(w in b && id in b[w]) && o[w][id].currency == c ==>
        o[w][id].balance == 0.0)
  }

  lemma SameHeld(before: Accounts, after: Accounts, v: View, o: Owner, c: Currency)
    requires before.Keys <= after.Keys
    requires forall id :: id in before ==> SameAccount(before[id], after[id], c)
    requires forall id :: id in after && id !in before && after[id].currency == c ==> after[id].balance == 0.0
    ensures Held(after, v, o, c) == Held(before, v, o, c)
  {
    hide Sees;
    var m, n := Stakes(before, v, o, c), Stakes(after, v, o, c);
    forall id | id in n
      ensures n[id] == if id in m then m[id] else 0.0
    {
      assert id in before ==> SameAccount(before[id], after[id], c);
    }
    SumExtend(m, n);
  }

  lemma SameTally(b: Books, o: Books, v: View, c: Currency)
    requires SameIn(b, o, c)
    ensures Tally(o, v, c) == Tally(b, v, c)
  {
    forall w | w in o
      ensures Held(o[w], v, w, c) == if w in b then Held(b[w], v, w, c) else 0.0
    {
      if w in b {
        SameHeld(b[w], o[w], v, w, c);
      } else {
        SameHeld(map[], o[w], v, w, c);
        assert Stakes(map[], v, w, c) == map[];
      }
    }
    SumExtend(Seen(b, v, c), Seen(o, v, c));
  }

  /** Owners and empty accounts may have been added, nothing else. */
  ghost predicate Opens(b: Books, o: Books) {
    && b.Keys <= o.Keys
    && (forall w :: w in b ==> b[w].Keys <= o[w].Keys)
    && (forall w, id :: w in b && id in b[w] ==> o[w][id] == b[w][id])
    && (forall w, id :: w in o && id in o[w] && !(w in b && id in b[w]) ==> o[w][id].balance == 0.0)
  }

  lemma OpensTally(b: Books, o: Books, v: View, c: Currency)
    requires Opens(b, o)
    ensures Tally(o, v, c) == Tally(b, v, c)
  {
    SameTally(b, o, v, c);
  }

  /** Two views that together see what a third one sees. */
  lemma SplitTally(b: Books, v: View, x: View, y: View, c: Currency)
    requires forall o, k :: Sees(v, o, k) <==> Sees(x, o, k) || Sees(y, o, k)
    requires forall o, k :: !(Sees(x, o, k) && Sees(y, o, k))
    ensures Tally(b, v, c) == Tally(b, x, c) + Tally(b, y, c)
  {
    hide Held, Sees, Tally;
    forall o | o in b
      ensures Held(b[o], v, o, c) == Held(b[o], x, o, c) + Held(b[o], y, o, c)
    {
      SplitHeld(b[o], v, x, y, o, c);
    }
    TallyPointwise(b, v, x, y, c);
  }

  lemma TallyPointwise(b: Books, v: View, x: View, y: View, c: Currency)
    requires forall o :: o in b ==> Held(b[o], v, o, c) == Held(b[o], x, o, c) + Held(b[o], y, o, c)
    ensures Tally(b, v, c) == Tally(b, x, c) + Tally(b, y, c)
  {
    hide Held, Seen, Sum;
    SeenKeys(b, v, c);
    SeenKeys(b, x, c);
    SeenKeys(b, y, c);
    forall o | o in b
      ensures Seen(b, v, c)[o] == Seen(b, x, c)[o] + Seen(b, y, c)[o]
    {
      SeenAt(b, v, c, o);
      SeenAt(b, x, c, o);
      SeenAt(b, y, c, o);
    }
    SumPointwise(Seen(b, v, c), Seen(b, x, c), Seen(b, y, c));
  }

  lemma SeenKeys(b: Books, v: View, c: Currency)
    ensures Seen(b, v, c).Keys == b.Keys
  {
  }

  lemma SeenAt(b: Books, v: View, c: Currency, o: Owner)
    requires o in b
    ensures o in Seen(b, v, c) && Seen(b, v, c)[o] == Held(b[o], v, o, c)
  {
  }

  lemma SplitHeld(accounts: Accounts, v: View, x: View, y: View, o: Owner, c: Currency)
    requires forall k :: Sees(v, o, k) <==> Sees(x, o, k) || Sees(y, o, k)
    requires forall k :: !(Sees(x, o, k) && Sees(y, o, k))
    ensures Held(accounts, v, o, c) == Held(accounts, x, o, c) + Held(accounts, y, o, c)
  {
    hide Sees;
    var m, m1, m2 := Stakes(accounts, v, o, c), Stakes(accounts, x, o, c), Stakes(accounts, y, o, c);
    assert forall id :: id in m ==> m[id] == m1[id] + m2[id];
    SumPointwise(m, m1, m2);
  }

  /** A tally in which only one account can have a stake is that account's balance. */
  lemma SingleTally(b: Books, v: View, c: Currency, o: Owner, id: AccountId)
    requires o in b && id in b[o]
    requires forall w, i :: w in b && i in b[w] && (w != o || i != id) ==> Stake(v, w, b[w][i], c) == 0.0
    ensures Tally(b, v, c) == Stake(v, o, b[o][id], c)
  {
    var none: map<AccountId, Decimal> := map[];
    forall w | w in b
      ensures Held(b[w], v, w, c) == if w == o then Stake(v, o, b[o][id], c) else 0.0
    {
      var m := Stakes(b[w], v, w, c);
      if w == o {
        SumAt(m, id);
        var rest := m - {id};
        assert forall i :: i in rest ==> rest[i] == 0.0;
        SumExtend(none, rest);
      } else {
        assert forall i :: i in m ==> m[i] == 0.0;
        SumExtend(none, m);
      }
    }
    SumAt(Seen(b, v, c), o);
    var others: map<Owner, Decimal> := map[];
    SumExtend(others, Seen(b, v, c) - {o});
  }
}
