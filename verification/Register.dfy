/**
 The ledger as the engine holds it (bank/src/ledger.rs) and the three things its handlers do with it:
 copy a default account out, change two copies, write a copy back.
 */
module Registers {
  import opened Options
  import opened Decimals
  import opened Money
  import opened Ledger
  import opened BankSteps
  import opened BankTheorems

  /** Outcome of the database calls of one transaction: getting a connection, inserting the row. */
  datatype Db = Db(conn: bool, insert: bool)

  predicate Works(db: Db) {
    db.conn && db.insert
  }

  /** The ledger structure: users' accounts by id, the dealer's, the bank's liabilities, the insurance fund. */
  datatype Register = Register(users: map<UserId, Accounts>, dealer: Accounts, liabilities: Accounts,
                               insurance: Account)

  ghost function Owners(uids: set<UserId>): (owners: set<Owner>)
    ensures forall o :: o in owners <==> (o.User? ==> o.uid in uids)
  {
    (set u | u in uids :: User(u)) + {Dealer, Bank, Insurance}
  }

  ghost function BooksOf(r: Register): Books {
    map o | o in Owners(r.users.Keys) ::
      match o
      case User(u) => r.users[u]
      case Dealer => r.dealer
      case Bank => r.liabilities
      case Insurance => map[r.insurance.id := r.insurance]
  }

  // ---- write-backs

  /** `insert_into_ledger`, which panics for an unknown user. */
  function PutUser(r: Register, uid: UserId, a: Account): (t: Register)
    requires uid in r.users
    ensures BooksOf(t) == Put(BooksOf(r), User(uid), a) && t.insurance == r.insurance
    ensures forall u :: u in r.users ==> u in t.users
  {
    var t := r.(users := r.users[uid := r.users[uid][a.id := a]]);
    assert t.users.Keys == r.users.Keys;
    t
  }

  function PutDealer(r: Register, a: Account): (t: Register)
    ensures BooksOf(t) == Put(BooksOf(r), Dealer, a) && t.users == r.users
  {
    r.(dealer := r.dealer[a.id := a])
  }

  function PutBank(r: Register, a: Account): (t: Register)
    ensures BooksOf(t) == Put(BooksOf(r), Bank, a) && t.users == r.users && t.insurance == r.insurance
  {
    r.(liabilities := r.liabilities[a.id := a])
  }

  function PutInsurance(r: Register, a: Account): (t: Register)
    requires a.id == r.insurance.id
    ensures BooksOf(t) == Put(BooksOf(r), Insurance, a) && t.users == r.users && t.insurance.id == r.insurance.id
  {
    var t := r.(insurance := a);
    assert BooksOf(r)[Insurance][a.id := a] == map[a.id := a] == BooksOf(t)[Insurance];
    assert forall o :: o in BooksOf(r) && o != Insurance ==> BooksOf(t)[o] == BooksOf(r)[o];
    t
  }

  /** `make_tx`: double entry on two copies. A failed insert is reported after the copies have changed. */
  method MakeTx(outbound: Account, inbound: Account, amount: Money, db: Db)
    returns (ok: bool, o: Account, i: Account)
    ensures ok <==> amount.value > 0.0 && outbound.currency == inbound.currency && Works(db)
    ensures if amount.value > 0.0 && outbound.currency == inbound.currency && db.conn
            then o == Moved(outbound, -amount.value) && i == Moved(inbound, amount.value)
            else o == outbound && i == inbound
  {
    o, i := outbound, inbound;
    if amount.value <= 0.0 {
      return false, o, i;
    }
    if outbound.currency != inbound.currency {
      return false, o, i;
    }
    if !db.conn {
      return false, o, i;
    }
    o := o.(balance := o.balance - amount.value);
    i := i.(balance := i.balance + amount.value);
    ok := db.insert;
  }

  // ---- opening accounts

  /** Looking up a default account opens at most an empty account. */
  lemma DefaultOpens(b: Books, o: Owner, c: Currency, kind: Option<AccountType>, after: Accounts, a: Account)
    requires ValidBooks(b) && o in b && IsDefault(b[o], c, kind, after, a) && Keyed(after)
    requires o == Dealer ==> Distinct(after)
    requires o == Dealer && IsFiat(c) ==> kind == Some(Internal)
    ensures Copy(b[o := after], o, a) && Matches(a, c, kind)
    ensures Opened(b, b[o := after])
  {
  }

  lemma OwnerOpens(b: Books, o: Owner)
    requires ValidBooks(b) && o !in b
    ensures Opened(b, b[o := map[]])
  {
  }

  lemma BooksWithUser(r: Register, uid: UserId)
    requires uid !in r.users
    ensures User(uid) !in BooksOf(r)
    ensures BooksOf(r.(users := r.users[uid := map[]])) == BooksOf(r)[User(uid) := map[]]
  {
    var b, t := BooksOf(r), BooksOf(r.(users := r.users[uid := map[]]));
    assert forall o :: o in t <==> o in b || o == User(uid);
  }

  method OpenUser(r: Register, uid: UserId, ghost origin: Books) returns (t: Register)
    requires Opened(origin, BooksOf(r))
    ensures uid in t.users && t == r.(users := t.users) && forall u :: u in r.users ==> u in t.users
    ensures Opened(origin, BooksOf(t)) && KeepsCopies(BooksOf(r), BooksOf(t))
  {
    hide Opened, KeepsCopies, BooksOf;
    t := r;
    OpenedValid(origin, BooksOf(r));
    if uid !in r.users {
      t := r.(users := r.users[uid := map[]]);
      BooksWithUser(r, uid);
      OwnerOpens(BooksOf(r), User(uid));
    } else {
      OpenedSelf(BooksOf(r));
    }
    OpenedKeepsCopies(origin, BooksOf(r), BooksOf(t));
  }

  method UserDefault(r: Register, uid: UserId, c: Currency, kind: Option<AccountType>, ghost origin: Books)
    returns (t: Register, a: Account)
    requires uid in r.users && Opened(origin, BooksOf(r))
    ensures t == r.(users := t.users) && forall u :: u in r.users ==> u in t.users
    ensures Opened(origin, BooksOf(t)) && KeepsCopies(BooksOf(r), BooksOf(t))
    ensures Copy(BooksOf(t), User(uid), a) && Matches(a, c, kind)
  {
    hide Opened, KeepsCopies, Copy, Matches, IsDefault, Keyed, Distinct;
    OpenedValid(origin, BooksOf(r));
    assert Keyed(BooksOf(r)[User(uid)]);
    var accounts;
    accounts, a := DefaultAccount(r.users[uid], c, kind);
    t := r.(users := r.users[uid := accounts]);
    assert t.users.Keys == r.users.Keys;
    assert BooksOf(t) == BooksOf(r)[User(uid) := accounts];
    DefaultOpens(BooksOf(r), User(uid), c, kind, accounts, a);
    OpenedKeepsCopies(origin, BooksOf(r), BooksOf(t));
  }

  method DealerDefault(r: Register, c: Currency, kind: AccountType, ghost origin: Books)
    returns (t: Register, a: Account)
    requires Opened(origin, BooksOf(r)) && (IsFiat(c) ==> kind == Internal)
    ensures t == r.(dealer := t.dealer)
    ensures Opened(origin, BooksOf(t)) && KeepsCopies(BooksOf(r), BooksOf(t))
    ensures Copy(BooksOf(t), Dealer, a) && Matches(a, c, Some(kind))
  {
    hide Opened, KeepsCopies, Copy, Matches, IsDefault, Keyed, Distinct;
    OpenedValid(origin, BooksOf(r));
    assert Keyed(BooksOf(r)[Dealer]) && Distinct(BooksOf(r)[Dealer]);
    var accounts;
    accounts, a := DefaultAccount(r.dealer, c, Some(kind));
    t := r.(dealer := accounts);
    assert BooksOf(t) == BooksOf(r)[Dealer := accounts];
    DefaultOpens(BooksOf(r), Dealer, c, Some(kind), accounts, a);
    OpenedKeepsCopies(origin, BooksOf(r), BooksOf(t));
  }

  method BankDefault(r: Register, c: Currency, kind: AccountType, ghost origin: Books)
    returns (t: Register, a: Account)
    requires Opened(origin, BooksOf(r))
    ensures t == r.(liabilities := t.liabilities)
    ensures Opened(origin, BooksOf(t)) && KeepsCopies(BooksOf(r), BooksOf(t))
    ensures Copy(BooksOf(t), Bank, a) && Matches(a, c, Some(kind))
    ensures IsDefault(r.liabilities, c, Some(kind), t.liabilities, a)
  {
    hide Opened, KeepsCopies, Copy, Matches, IsDefault, Keyed, Distinct;
    OpenedValid(origin, BooksOf(r));
    assert Keyed(BooksOf(r)[Bank]);
    var accounts;
    accounts, a := DefaultAccount(r.liabilities, c, Some(kind));
    t := r.(liabilities := accounts);
    assert BooksOf(t) == BooksOf(r)[Bank := accounts];
    DefaultOpens(BooksOf(r), Bank, c, Some(kind), accounts, a);
    OpenedKeepsCopies(origin, BooksOf(r), BooksOf(t));
  }

  // ---- what a pair of write-backs amounts to

  function Moved(a: Account, amount: Decimal): Account {
    a.(balance := a.balance + amount)
  }

  function Leg(o: Owner, a: Account, i: Owner, b: Account, amount: Decimal): seq<Entry> {
    [Entry(o, a.id, a.kind, a.currency, -amount), Entry(i, b.id, b.kind, b.currency, amount)]
  }

  /** `a` is a copy of an account in the books. */
  ghost predicate Copy(b: Books, o: Owner, a: Account) {
    o in b && a.id in b[o] && b[o][a.id] == a
  }

  lemma PutCommutes(b: Books, o: Owner, a: Account, p: Owner, c: Account)
    requires o in b && p in b && (o == p ==> a.id != c.id)
    ensures Put(Put(b, o, a), p, c) == Put(Put(b, p, c), o, a)
  {
    if o == p {
      assert b[o][a.id := a][c.id := c] == b[o][c.id := c][a.id := a];
    }
  }

  lemma LegPosted(b: Books, o: Owner, a: Account, i: Owner, c: Account, amount: Decimal)
    requires Copy(b, o, a) && Copy(b, i, c) && (o == i ==> a.id != c.id) && ValidBooks(b)
    ensures forall e :: e in Leg(o, a, i, c, amount) ==> Fits(b, e)
    ensures AdjustAll(b, Leg(o, a, i, c, amount)) == Put(Put(b, o, Moved(a, -amount)), i, Moved(c, amount))
    ensures Copy(b, o, a) && BalanceOf(b, Leg(o, a, i, c, amount)[0]) == a.balance
  {
    PairAdjusts(b, Leg(o, a, i, c, amount));
  }

  lemma TwoLegsPosted(b: Books, es: seq<Entry>, o: Owner, a: Account, i: Owner, c: Account, x: Decimal,
                      p: Owner, d: Account, j: Owner, e: Account, y: Decimal)
    requires ValidBooks(b) && Copy(b, o, a) && Copy(b, i, c) && Copy(b, p, d) && Copy(b, j, e)
    requires a.currency == c.currency != d.currency == e.currency
    requires (o == i ==> a.id != c.id) && (p == j ==> d.id != e.id)
    requires es == Leg(o, a, i, c, x) + Leg(p, d, j, e, y)
    ensures (o == p ==> a.id != d.id) && (o == j ==> a.id != e.id) && (i == p ==> c.id != d.id)
    ensures i == j ==> c.id != e.id
    ensures forall z :: z in es ==> Fits(b, z)
    ensures AdjustAll(b, es)
         == Put(Put(Put(Put(b, o, Moved(a, -x)), i, Moved(c, x)), p, Moved(d, -y)), j, Moved(e, y))
    ensures BalanceOf(b, es[0]) == a.balance
  {
    hide AdjustAll, Put, Leg, Fits, ValidBooks;
    LegPosted(b, o, a, i, c, x);
    LegPosted(b, p, d, j, e, y);
    LegLength(o, a, i, c, x);
    AdjustConcat(b, Leg(o, a, i, c, x), Leg(p, d, j, e, y));
    LegKeepsCopies(b, o, a, i, c, x, p, d);
    LegKeepsCopies(b, o, a, i, c, x, j, e);
    LegPosted(AdjustAll(b, Leg(o, a, i, c, x)), p, d, j, e, y);
  }

  lemma LegLength(o: Owner, a: Account, i: Owner, c: Account, amount: Decimal)
    ensures |Leg(o, a, i, c, amount)| == 2
  {
  }

  lemma LegKeepsCopies(b: Books, o: Owner, a: Account, i: Owner, c: Account, x: Decimal, p: Owner, d: Account)
    requires Copy(b, o, a) && Copy(b, i, c) && Copy(b, p, d) && a.currency == c.currency != d.currency
    ensures Copy(Put(Put(b, o, Moved(a, -x)), i, Moved(c, x)), p, d)
  {
  }

  /** Accounts may have been opened on the way from `b` to `o`. */
  ghost predicate Opened(b: Books, o: Books) {
    ValidBooks(o) && Opens(b, o) && OpensInternal(b, o)
  }

  lemma OpenedSelf(b: Books)
    requires ValidBooks(b)
    ensures Opened(b, b)
  {
  }

  lemma OpenedValid(b: Books, o: Books)
    requires Opened(b, o)
    ensures ValidBooks(o)
  {
  }

  lemma OpenedTransitive(a: Books, b: Books, c: Books)
    requires Opened(a, b) && Opened(b, c)
    ensures Opened(a, c)
  {
  }

  lemma CopyKept(b: Books, c: Books, o: Owner, a: Account)
    requires Copy(b, o, a) && Opened(b, c)
    ensures Copy(c, o, a)
  {
  }

  /** Copies taken before are still copies. */
  ghost predicate KeepsCopies(b: Books, o: Books) {
    forall w, a :: Copy(b, w, a) ==> Copy(o, w, a)
  }

  lemma OpenedKeepsCopies(origin: Books, b: Books, o: Books)
    requires Opened(origin, b) && Opened(b, o)
    ensures Opened(origin, o) && KeepsCopies(b, o)
  {
    hide Opened, Copy;
    OpenedTransitive(origin, b, o);
    forall w, a | Copy(b, w, a)
      ensures Copy(o, w, a)
    {
      CopyKept(b, o, w, a);
    }
  }
}
