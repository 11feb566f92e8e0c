/** Splitting karma between users in proportion to what they swapped (bank/src/bank_engine.rs). */
module Karma {
  import opened Decimals
  import opened Money
  import opened Sums
  import opened Ledger
  import opened BankSteps

  ghost predicate NonNegative(totals: map<UserId, Decimal>) {
    forall u :: u in totals ==> totals[u] >= 0.0
  }

  lemma ShareBounds(total: Decimal, sum: Decimal, karma: Decimal)
    requires total >= 0.0 && sum > 0.0 && karma >= 0.0
    ensures 0.0 <= Share(total, sum, karma) <= total * (karma / sum) < Share(total, sum, karma) + Unit(KKP)
  {
    hide NewMoney, Unit;
    assert total / sum >= 0.0;
    MulMono(0.0, total / sum, karma);
    assert total / sum * karma == total * (karma / sum);
  }

  /** `kept` is what `n` truncations leave of `exact`. */
  predicate KeptOf(kept: Decimal, exact: Decimal, n: nat) {
    kept <= exact <= kept + n as real * Unit(KKP) && (n > 0 ==> exact < kept + n as real * Unit(KKP))
  }

  lemma KeptOfStep(total: real, rest: real, q: real, share: real, shares: real, n: nat)
    requires share <= total * q < share + Unit(KKP) && KeptOf(shares, Product(rest, q), n)
    ensures KeptOf(share + shares, Product(total + rest, q), n + 1)
  {
    hide Unit;
    Distribute(total, rest, q);
    Distribute(n as real, 1.0, Unit(KKP));
  }

  /** Each of `n` shares drops less than one unit of its exact value. */
  lemma {:induction false} SharesBounds(totals: map<UserId, Decimal>, sum: Decimal, karma: Decimal)
    requires NonNegative(totals) && sum > 0.0 && karma >= 0.0
    ensures KeptOf(Sum(Shares(totals, sum, karma)), Product(Sum(totals), karma / sum), |totals|)
    decreases |totals|
  {
    hide Share, Unit, KeptOf, Shares;
    if totals != map[] {
      var u := SomeKey(totals);
      var rest := totals - {u};
      SumAt(totals, u);
      SharesStep(totals, sum, karma, u);
      ShareBounds(totals[u], sum, karma);
      SharesBounds(rest, sum, karma);
      var share, shares := Share(totals[u], sum, karma), Sum(Shares(rest, sum, karma));
      KeptOfStep(totals[u], Sum(rest), karma / sum, share, shares, |rest|);
      assert |totals| == |rest| + 1;
    } else {
      SharesOfNone(sum, karma);
      KeptOfNone(karma / sum);
    }
  }

  lemma SharesStep(totals: map<UserId, Decimal>, sum: Decimal, karma: Decimal, u: UserId)
    requires u in totals && sum != 0.0
    ensures Sum(Shares(totals, sum, karma)) == Share(totals[u], sum, karma) + Sum(Shares(totals - {u}, sum, karma))
    ensures Sum(Credits(totals, sum, karma))
         == Positive(Share(totals[u], sum, karma)) + Sum(Credits(totals - {u}, sum, karma))
  {
    hide Share;
    var s, c := Shares(totals, sum, karma), Credits(totals, sum, karma);
    SumAt(s, u);
    SumAt(c, u);
    assert s - {u} == Shares(totals - {u}, sum, karma) && c - {u} == Credits(totals - {u}, sum, karma);
  }

  lemma SharesOfNone(sum: Decimal, karma: Decimal)
    ensures Sum(Shares(map[], sum, karma)) == 0.0 && Sum(Credits(map[], sum, karma)) == 0.0
  {
    assert Shares(map[], sum, karma) == map[] && Credits(map[], sum, karma) == map[];
  }

  lemma KeptOfNone(q: real)
    ensures KeptOf(0.0, Product(0.0, q), 0)
  {
  }

  lemma {:induction false} SharesCredited(totals: map<UserId, Decimal>, sum: Decimal, karma: Decimal)
    requires totals == map[] || sum != 0.0
    ensures Sum(Credits(totals, sum, karma)) >= Sum(Shares(totals, sum, karma))
    ensures Sum(Credits(totals, sum, karma)) == Sum(Shares(totals, sum, karma))
       <==> forall u :: u in totals ==> Share(totals[u], sum, karma) >= 0.0
    decreases |totals|
  {
    hide Share, Shares, Credits, Sum;
    if totals != map[] {
      var u := SomeKey(totals);
      var rest := totals - {u};
      SharesStep(totals, sum, karma, u);
      SharesCredited(rest, sum, karma);
      assert forall v :: v in totals ==> v == u || v in rest;
    } else {
      SharesOfNone(sum, karma);
    }
  }

  /** With non-negative totals of positive sum the dealer keeps at least nothing and less than one unit per user. */
  lemma Apportionment(totals: map<UserId, Decimal>, karma: Decimal)
    requires NonNegative(totals) && Sum(totals) > 0.0 && karma >= 0.0
    ensures var left := karma - Sum(Shares(totals, Sum(totals), karma));
            && 0.0 <= left < |totals| as real * Unit(KKP)
    ensures Sum(Credits(totals, Sum(totals), karma)) == Sum(Shares(totals, Sum(totals), karma))
  {
    hide Share, Unit, Sum;
    var sum := Sum(totals);
    SharesBounds(totals, sum, karma);
    assert totals != map[] by { SumOfNone(totals); }
    assert Product(sum, karma / sum) == karma;
    forall u | u in totals
      ensures Share(totals[u], sum, karma) >= 0.0
    {
      ShareBounds(totals[u], sum, karma);
    }
    SharesCredited(totals, sum, karma);
  }

  lemma {:induction false} SumNonNegative(totals: map<UserId, Decimal>)
    requires NonNegative(totals)
    ensures Sum(totals) >= 0.0
    decreases |totals|
  {
    if totals != map[] {
      var u := SomeKey(totals);
      SumAt(totals, u);
      SumNonNegative(totals - {u});
    }
  }

  lemma SumOfNone(totals: map<UserId, Decimal>)
    ensures totals == map[] ==> Sum(totals) == 0.0
  {
  }

  lemma SharesWhole(totals: map<UserId, Decimal>, sum: Decimal, karma: Decimal)
    requires totals == map[] || sum != 0.0
    ensures Whole(Sum(Shares(totals, sum, karma)), Scale(KKP))
    decreases |totals|
  {
    hide Whole, Scale, Shares, Sum;
    if totals != map[] {
      var u := SomeKey(totals);
      var rest := totals - {u};
      SharesStep(totals, sum, karma, u);
      SharesWhole(rest, sum, karma);
      WholeSum(Share(totals[u], sum, karma), Sum(Shares(rest, sum, karma)), Scale(KKP));
    } else {
      SharesOfNone(sum, karma);
      ZeroWhole(KKP);
    }
  }

  lemma ZeroWhole(c: Currency)
    ensures Whole(0.0, Scale(c))
  {
    WholeBy(0.0, Scale(c), 0);
  }
}
