/** The dealer's hedging controller (dealer/src/dealer_engine.rs) and where it settles. */
module Hedging {
  import opened Options
  import opened Decimals
  import opened Money
  import opened Sums
  import opened Ledger
  import opened BankSteps
  import opened BankTheorems

  /** `calc_num_contracts_for_value`: away from zero above zero, towards zero below. */
  function Contracts(value: Decimal): int {
    if value > 0.0 then FromZero(value) else ToZero(value)
  }

  /** That is rounding up. */
  lemma ContractsRoundUp(value: Decimal)
    ensures Contracts(value) == Ceil(value) && 0.0 <= Contracts(value) as real - value < 1.0
  {
  }

  function Abs(x: Decimal): Decimal {
    if x < 0.0 then -x else x
  }

  const I64_LIMIT: int := 0x8000_0000_0000_0000

  /** How far the position is from where it should be. */
  function Gap(exposure: Decimal, position: Decimal): Decimal {
    Contracts(exposure) as real - position
  }

  /** Beyond 64 bits the check panics. */
  predicate Representable(exposure: Decimal, position: Decimal) {
    -I64_LIMIT <= ToZero(Gap(exposure, position)) < I64_LIMIT
  }

  /** Exactly when the check does not panic: the gap, cut to a whole number, is a signed 64-bit one. */
  lemma RepresentableIff(exposure: Decimal, position: Decimal, target: int)
    requires exposure <= target as real < exposure + 1.0
    ensures Representable(exposure, position)
       <==> -9_223_372_036_854_775_809.0 < target as real - position < 9_223_372_036_854_775_808.0
  {
    ContractsRoundUp(exposure);
    assert target == Contracts(exposure);
  }

  /** The signed order one risk check places for one account, zero when within tolerance. */
  function Order(exposure: Decimal, position: Decimal, tolerance: nat, cap: Option<nat>): int {
    var gap := Gap(exposure, position);
    if Abs(gap) < tolerance as real then 0
    else
      var whole := ToZero(gap);
      var size := if whole < 0 then -whole else whole;
      var capped := if cap.Some? && size > cap.value then cap.value else size;
      if whole < 0 then -capped else capped
  }

  /** The position after `n` risk checks whose orders are filled completely. */
  function Hedged(exposure: Decimal, position: Decimal, tolerance: nat, cap: Option<nat>, n: nat): Decimal
    decreases n
  {
    if n == 0 then position
    else Hedged(exposure, position + Order(exposure, position, tolerance, cap) as real, tolerance, cap, n - 1)
  }

  predicate Working(tolerance: nat, cap: Option<nat>) {
    tolerance >= 1 && (cap.Some? ==> cap.value >= 1)
  }

  /** An order never overshoots: the gap keeps its sign and shrinks by exactly the order, at least one contract. */
  lemma OrderClosesGap(exposure: Decimal, position: Decimal, tolerance: nat, cap: Option<nat>)
    requires Working(tolerance, cap)
    ensures var order := Order(exposure, position, tolerance, cap);
            var gap, left := Gap(exposure, position), Gap(exposure, position + order as real);
            && (gap >= 0.0 ==> 0.0 <= left <= gap) && (gap <= 0.0 ==> gap <= left <= 0.0)
            && (order == 0 <==> Abs(gap) < tolerance as real)
            && (order != 0 ==> Abs(left) <= Abs(gap) - 1.0)
            && (cap.Some? ==> -(cap.value as int) <= order <= cap.value)
  {
  }

  /** One filled order leaves less than a contract of the gap, unless it was cut to the cap. */
  lemma OrderIsTheGap(exposure: Decimal, position: Decimal, tolerance: nat, cap: Option<nat>)
    requires Working(tolerance, cap) && Abs(Gap(exposure, position)) >= tolerance as real
    ensures var order := Order(exposure, position, tolerance, cap);
            || Abs(Gap(exposure, position + order as real)) < 1.0
            || (cap.Some? && Abs(order as real) == cap.value as real
                && Abs(Gap(exposure, position + order as real)) == Abs(Gap(exposure, position)) - cap.value as real)
  {
  }

  /** Enough checks to work the gap off at the cap, or a single one without a cap. */
  predicate EnoughChecks(gap: Decimal, cap: Option<nat>, n: nat) {
    n >= 1 && (cap.Some? ==> Abs(gap) <= n as real * cap.value as real)
  }

  /** After that many checks the position rests within tolerance + 1 of the exposure. */
  lemma {:induction false} HedgeConvergesAtTheCap(exposure: Decimal, position: Decimal, tolerance: nat,
                                                  cap: Option<nat>, n: nat)
    requires Working(tolerance, cap) && EnoughChecks(Gap(exposure, position), cap, n)
    ensures var rest := Hedged(exposure, position, tolerance, cap, n);
            && Abs(Gap(exposure, rest)) < tolerance as real
            && Order(exposure, rest, tolerance, cap) == 0
            && Abs(rest - exposure) < tolerance as real + 1.0
    decreases n
  {
    hide Order, Gap, Abs;
    OrderClosesGap(exposure, position, tolerance, cap);
    var order := Order(exposure, position, tolerance, cap);
    var next := position + order as real;
    GapNonNegative(exposure, next);
    if order == 0 {
      StaysPut(exposure, position, tolerance, cap, n);
      WithinTolerance(exposure, position, tolerance);
    } else {
      OrderIsTheGap(exposure, position, tolerance, cap);
      if Abs(Gap(exposure, next)) < 1.0 {
        StaysPut(exposure, next, tolerance, cap, n - 1);
        WithinTolerance(exposure, next, tolerance);
        OrderClosesGap(exposure, next, tolerance, cap);
      } else {
        Distribute(n as real, 1.0, cap.value as real);
        HedgeConvergesAtTheCap(exposure, next, tolerance, cap, n - 1);
      }
    }
  }

  /** Once within tolerance no further order is placed. */
  lemma {:induction false} StaysPut(exposure: Decimal, position: Decimal, tolerance: nat, cap: Option<nat>, n: nat)
    requires Abs(Gap(exposure, position)) < tolerance as real
    ensures Hedged(exposure, position, tolerance, cap, n) == position
  {
    if n > 0 {
      StaysPut(exposure, position, tolerance, cap, n - 1);
    }
  }

  /** After at most as many checks as the gap has contracts, the position rests within tolerance + 1 of the exposure. */
  lemma {:induction false} HedgeConverges(exposure: Decimal, position: Decimal, tolerance: nat, cap: Option<nat>,
                                          n: nat)
    requires Working(tolerance, cap) && Abs(Gap(exposure, position)) <= n as real
    ensures var rest := Hedged(exposure, position, tolerance, cap, n);
            && Abs(Gap(exposure, rest)) < tolerance as real
            && Order(exposure, rest, tolerance, cap) == 0
            && Abs(rest - exposure) < tolerance as real + 1.0
    decreases n
  {
    hide Order, Gap, Abs;
    OrderClosesGap(exposure, position, tolerance, cap);
    var order := Order(exposure, position, tolerance, cap);
    if order == 0 {
      StaysPut(exposure, position, tolerance, cap, n);
      WithinTolerance(exposure, position, tolerance);
    } else {
      GapNonNegative(exposure, position + order as real);
      HedgeConverges(exposure, position + order as real, tolerance, cap, n - 1);
    }
  }

  lemma GapNonNegative(exposure: Decimal, position: Decimal)
    ensures Abs(Gap(exposure, position)) >= 0.0
  {
  }

  lemma WithinTolerance(exposure: Decimal, position: Decimal, tolerance: nat)
    requires Abs(Gap(exposure, position)) < tolerance as real
    ensures Abs(position - exposure) < tolerance as real + 1.0
  {
    ContractsRoundUp(exposure);
  }

  /** On the way there the gap never changes sign, never grows, and never leaves 64 bits. */
  lemma {:induction false} NeverOvershoots(exposure: Decimal, position: Decimal, tolerance: nat, cap: Option<nat>,
                                          n: nat)
    requires Working(tolerance, cap)
    ensures var gap, left := Gap(exposure, position), Gap(exposure, Hedged(exposure, position, tolerance, cap, n));
            (gap >= 0.0 ==> 0.0 <= left <= gap) && (gap <= 0.0 ==> gap <= left <= 0.0)
    ensures Representable(exposure, position) ==> Representable(exposure, Hedged(exposure, position, tolerance, cap, n))
    decreases n
  {
    hide Order, Gap;
    if n > 0 {
      OrderClosesGap(exposure, position, tolerance, cap);
      NeverOvershoots(exposure, position + Order(exposure, position, tolerance, cap) as real, tolerance, cap, n - 1);
    }
  }

  /** With a cap of zero the controller never moves, wherever it starts. */
  lemma {:induction false} ZeroCapNeverHedges(exposure: Decimal, position: Decimal, tolerance: nat, n: nat)
    ensures Hedged(exposure, position, tolerance, Some(0), n) == position
  {
    if n > 0 {
      assert Order(exposure, position, tolerance, Some(0)) == 0;
      ZeroCapNeverHedges(exposure, position, tolerance, n - 1);
    }
  }

  /** In every reachable bank state, hedging the dealer's fiat account brings the position to within
      tolerance + 1 of minus what all users hold of that fiat. */
  lemma UsersAreHedged(states: seq<State>, actions: seq<Action>, k: nat, id: AccountId,
                       position: Decimal, tolerance: nat, cap: Option<nat>, n: nat)
    requires IsRun(states, actions) && k <= |actions| && ValidBooks(states[0].books) && InternalFiat(states[0].books)
    requires forall c :: IsFiat(c) ==> Tally(states[0].books, Only(Dealer), c) == -Tally(states[0].books, Holders, c)
    requires Dealer in states[k].books && id in states[k].books[Dealer] && IsFiat(states[k].books[Dealer][id].currency)
    requires Working(tolerance, cap) && Abs(Gap(states[k].books[Dealer][id].balance, position)) <= n as real
    ensures var a := states[k].books[Dealer][id];
            var rest := Hedged(a.balance, position, tolerance, cap, n);
            Abs(rest + Tally(states[k].books, Holders, a.currency)) < tolerance as real + 1.0
  {
    hide Tally, Hedged, Gap;
    DealerAccountMirrorsUsers(states, actions, k, id);
    HedgeConverges(states[k].books[Dealer][id].balance, position, tolerance, cap, n);
  }

  // ---- one pass over the bank's exposures

  /** What the exchange client knows of a position; long positions are on the bid side. */
  datatype Position = Unknown | Flat | Open(bid: bool, quantity: Decimal)

  function Signed(p: Position): Decimal {
    match p
    case Open(bid, quantity) => if bid then quantity else -quantity
    case _ => 0.0
  }

  datatype Trade = Trade(currency: Currency, bid: bool, quantity: nat)

  datatype Settings = Settings(tolerances: map<Currency, nat>, caps: map<Currency, nat>)

  function Cap(s: Settings, c: Currency): Option<nat> {
    if c in s.caps then Some(s.caps[c]) else None
  }

  predicate Known(a: Account, positions: Currency -> Position) {
    IsFiat(a.currency) && positions(a.currency) != Unknown
  }

  /** The account is out of tolerance. */
  predicate Due(a: Account, positions: Currency -> Position, s: Settings) {
    && Known(a, positions) && a.currency in s.tolerances
    && Abs(Gap(a.balance, Signed(positions(a.currency)))) >= s.tolerances[a.currency] as real
  }

  /** The check panics on the account: its order has no 64-bit size, or cannot be sent. */
  predicate Stuck(a: Account, positions: Currency -> Position, s: Settings, sends: bool) {
    Due(a, positions, s) && (!sends || !Representable(a.balance, Signed(positions(a.currency))))
  }

  /** Long contracts held, short ones as a negative number. */
  predicate Holds(p: Position, held: Decimal) {
    match p
    case Open(true, quantity) => held == quantity
    case Open(false, quantity) => held == -quantity
    case Flat => held == 0.0
    case Unknown => false
  }

  predicate LeastWhole(k: int, x: Decimal) {
    x <= k as real < x + 1.0
  }

  /** The trade, once filled, takes the holding towards the least whole number of contracts not below the balance:
      bought if the holding is short of it, sold if it is a contract or more over; all but a fraction of a contract
      of the difference, or else exactly the cap. */
  ghost predicate Answers(t: Trade, a: Account, positions: Currency -> Position, s: Settings) {
    exists target: int, held: Decimal ::
      && LeastWhole(target, a.balance) && Holds(positions(a.currency), held)
      && Closes(t, target as real - held, a.currency, s)
  }

  predicate Closes(t: Trade, gap: Decimal, c: Currency, s: Settings) {
    && t.currency == c && (t.bid <==> gap > -1.0)
    && (c in s.caps ==> t.quantity <= s.caps[c])
    && (t.quantity > 0 ==> t.quantity as real <= if t.bid then gap else -gap)
    && (|| -1.0 < (if t.bid then gap else -gap) - t.quantity as real < 1.0
        || (c in s.caps && t.quantity == s.caps[c]))
  }

  /** That is the controller's order, positive when bought. */
  lemma TradeIsOrder(t: Trade, a: Account, positions: Currency -> Position, s: Settings)
    requires Due(a, positions, s) && Answers(t, a, positions, s)
    ensures (if t.bid then t.quantity as int else -(t.quantity as int))
         == Order(a.balance, Signed(positions(a.currency)), s.tolerances[a.currency], Cap(s, a.currency))
  {
    var target: int, held: Decimal :| LeastWhole(target, a.balance) && Holds(positions(a.currency), held)
                                   && Closes(t, target as real - held, a.currency, s);
    ContractsRoundUp(a.balance);
    assert target == Contracts(a.balance);
    SizeIsUnique(t, Gap(a.balance, held), a.currency, s);
  }

  lemma SizeIsUnique(t: Trade, gap: Decimal, c: Currency, s: Settings)
    requires Closes(t, gap, c, s)
    ensures var whole := ToZero(gap);
            var size := if whole < 0 then -whole else whole;
            && (t.bid <==> whole >= 0)
            && t.quantity as int == if c in s.caps && size > s.caps[c] then s.caps[c] as int else size
  {
  }

  /** An order is due exactly for a fiat account with a known position and a tolerance, when the holding is at least
      the tolerance away from the least whole number of contracts not below the balance. */
  lemma DueIff(a: Account, positions: Currency -> Position, s: Settings)
    ensures Due(a, positions, s)
       <==> && a.currency != BTC && a.currency != KKP && a.currency in s.tolerances
            && exists target: int, held: Decimal ::
                 && LeastWhole(target, a.balance) && Holds(positions(a.currency), held)
                 && !(-(s.tolerances[a.currency] as real) < target as real - held < s.tolerances[a.currency] as real)
  {
    ContractsRoundUp(a.balance);
    var p := positions(a.currency);
    assert LeastWhole(Contracts(a.balance), a.balance);
    assert p != Unknown ==> Holds(p, Signed(p));
    forall target: int, held: Decimal | LeastWhole(target, a.balance) && Holds(p, held)
      ensures target == Contracts(a.balance) && held == Signed(p) && p != Unknown
    {
    }
  }

  /** The account was due and the trade is its order. */
  ghost predicate Placed(t: Trade, a: Account, positions: Currency -> Position, s: Settings) {
    Due(a, positions, s) && Answers(t, a, positions, s)
  }

  /** The size and side of an order: `to_i64`, `unsigned_abs`, then the cap. */
  method Size(a: Account, positions: Currency -> Position, s: Settings) returns (t: Trade)
    requires Due(a, positions, s)
    ensures Answers(t, a, positions, s)
  {
    var gap := Gap(a.balance, Signed(positions(a.currency)));
    var whole := ToZero(gap);
    var quantity: nat := if whole < 0 then -whole else whole;
    if a.currency in s.caps && quantity > s.caps[a.currency] {
      quantity := s.caps[a.currency];
    }
    t := Trade(a.currency, whole >= 0, quantity);
    ContractsRoundUp(a.balance);
    ghost var target := Contracts(a.balance);
    assert Holds(positions(a.currency), Signed(positions(a.currency)));
    assert LeastWhole(target, a.balance);
    assert Closes(t, target as real - Signed(positions(a.currency)), a.currency, s);
  }

  /** What the loop decides about one account. */
  method Review(a: Account, positions: Currency -> Position, s: Settings, sends: bool)
    returns (known: bool, trade: Option<Trade>, stuck: bool)
    ensures known == Known(a, positions) && stuck == Stuck(a, positions, s, sends)
    ensures trade.Some? <==> Due(a, positions, s) && !stuck
    ensures trade.Some? ==> Placed(trade.value, a, positions, s)
    ensures !known ==> !Due(a, positions, s)
  {
    hide Representable, Answers, Due, Known, Signed, Gap, Abs;
    Skipped(a, positions, s);
    known, trade, stuck := false, None, false;
    if !IsFiat(a.currency) || positions(a.currency) == Unknown {
      return;
    }
    known := true;
    var position := Signed(positions(a.currency));
    if a.currency !in s.tolerances || Abs(Gap(a.balance, position)) < s.tolerances[a.currency] as real {
      return;
    }
    if !Representable(a.balance, position) || !sends {
      stuck := true;
      return;
    }
    var t := Size(a, positions, s);
    trade := Some(t);
  }

  class Controller {
    var ready: bool
    var hedged: map<Currency, Decimal>

    /** `check_risk_from_bank_state`: exactly the accounts out of tolerance get an order, whatever the
        iteration order; it panics on an order it cannot size or send. */
    method CheckRisk(exposures: Accounts, positions: Currency -> Position, s: Settings, sends: bool)
      returns (orders: map<AccountId, Trade>, panicked: bool)
      modifies this`hedged
      ensures forall id :: id in orders ==> id in exposures && Placed(orders[id], exposures[id], positions, s)
      ensures !panicked && ready ==> forall id :: id in exposures && Due(exposures[id], positions, s) ==> id in orders
      ensures panicked <==> ready && exists id :: id in exposures && Stuck(exposures[id], positions, s, sends)
      ensures !ready ==> orders == map[] && hedged == old(hedged)
      ensures forall c :: c in old(hedged) ==> c in hedged
      ensures forall c :: c in hedged ==>
                (c in old(hedged) && hedged[c] == old(hedged)[c]) || hedged[c] == Signed(positions(c))
      ensures !panicked && ready ==> forall id :: id in exposures && Known(exposures[id], positions) ==>
                var c := exposures[id].currency; c in hedged && hedged[c] == Signed(positions(c))
    {
      hide Placed, Due, Known, Stuck, Signed;
      orders, panicked := map[], false;
      if !ready {
        return;
      }
      var rest := exposures;
      while rest != map[]
        invariant forall id :: id in rest ==> id in exposures && rest[id] == exposures[id]
        invariant forall id :: id in orders ==> id in exposures && Placed(orders[id], exposures[id], positions, s)
        invariant forall id :: id in exposures && id !in rest && Due(exposures[id], positions, s) ==>
                    id in orders
        invariant forall id :: id in exposures && id !in rest ==> !Stuck(exposures[id], positions, s, sends)
        invariant forall c :: c in old(hedged) ==> c in hedged
        invariant forall c :: c in hedged ==>
                    (c in old(hedged) && hedged[c] == old(hedged)[c]) || hedged[c] == Signed(positions(c))
        invariant forall id :: id in exposures && id !in rest && Known(exposures[id], positions) ==>
                    var c := exposures[id].currency; c in hedged && hedged[c] == Signed(positions(c))
        decreases |rest|
      {
        ghost var some := SomeKey(rest);
        var id :| id in rest;
        var a := rest[id];
        rest := rest - {id};
        var known, trade, stuck := Review(a, positions, s, sends);
        if known {
          hedged := hedged[a.currency := Signed(positions(a.currency))];
        }
        if stuck {
          return orders, true;
        }
        if trade.Some? {
          orders := orders[id := trade.value];
        }
      }
    }
  }

  lemma Skipped(a: Account, positions: Currency -> Position, s: Settings)
    ensures Known(a, positions) <==> IsFiat(a.currency) && positions(a.currency) != Unknown
    ensures if Known(a, positions) && a.currency in s.tolerances
            then var gap := Gap(a.balance, Signed(positions(a.currency)));
                 Due(a, positions, s) <==> Abs(gap) >= s.tolerances[a.currency] as real
            else !Due(a, positions, s)
  {
  }
}
