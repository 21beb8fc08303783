/** What the balance calculator guarantees: the charges of each split mode, when an
    expense's charges add up to its amount, which ids end up in the result, and that
    the balances sum to zero whenever every expense's charges add up to its amount. */
module BalanceProperties {
  import opened Money
  import opened Models
  import opened OrderedDict
  import opened BalanceService

  // ---------------------------------------------------------------------------
  // The remainder policy
  // ---------------------------------------------------------------------------

  /** The payer's charge grows by the remainder, nobody else's changes, and the total
      grows by the remainder. */
  lemma RemainderToPayerEffect(per: Dict, payer: UserId, remainder: Cents)
    requires per.Valid()
    ensures RemainderToPayer(per, payer, remainder).Total() == per.Total() + remainder
    ensures RemainderToPayer(per, payer, remainder).Get(payer, 0) == per.Get(payer, 0) + remainder
    ensures forall k :: k != payer ==> RemainderToPayer(per, payer, remainder).Get(k, 0) == per.Get(k, 0)
  {
    if remainder != 0 {
      TotalPut(per, payer, per.Get(payer, 0) + remainder);
    }
  }

  // ---------------------------------------------------------------------------
  // Equal mode
  // ---------------------------------------------------------------------------

  /** Equal mode: every participant is charged `round(amount / n, 2)` and the payer,
      participant or not, additionally absorbs `amount - per_share * n`; the payer has an
      entry beyond the participants only when that remainder is non-zero. */
  lemma EqualModeCharges(e: Expense)
    requires e.shares != [] && !AnyWeight(e.shares)
    ensures var perShare := DivRound(e.amount, |e.shares|);
            var remainder := e.amount - perShare * |e.shares|;
            && (forall k :: k in Charges(e).vals <==> k in UserIds(e.shares) || (k == e.payer && remainder != 0))
            && (forall k :: k in Charges(e).vals ==>
                  Charges(e).vals[k] == (if k in UserIds(e.shares) then perShare else 0)
                                        + (if k == e.payer then remainder else 0))
  {
    var perShare := DivRound(e.amount, |e.shares|);
    FromKeysContents(UserIds(e.shares), perShare);
    RemainderToPayerEffect(FromKeys(UserIds(e.shares), perShare), e.payer, e.amount - perShare * |e.shares|);
  }

  /** The equal split as a value: a comprehension at `perShare` with `remainder`
      given to the payer totals one share per distinct id plus the remainder. */
  lemma EqualSplitTotal(ids: seq<UserId>, payer: UserId, perShare: Cents, remainder: Cents)
    ensures RemainderToPayer(FromKeys(ids, perShare), payer, remainder).Total()
            == |FromKeys(ids, perShare).keys| * perShare + remainder
  {
    FromKeysTotal(ids, perShare);
    RemainderToPayerEffect(FromKeys(ids, perShare), payer, remainder);
  }

  /** Over distinct ids, one per share, the equal split totals exactly the amount. */
  lemma EqualSplitConserves(ids: seq<UserId>, payer: UserId, amount: Cents, perShare: Cents, n: int)
    requires Distinct(ids) && |ids| == n
    ensures RemainderToPayer(FromKeys(ids, perShare), payer, amount - perShare * n).Total() == amount
  {
    FromKeysDistinct(ids, perShare);
    RemainderToPayerEffect(FromKeys(ids, perShare), payer, amount - perShare * n);
  }

  /** Equal mode with distinct participants charges exactly the amount. */
  lemma EqualModeConserves(e: Expense)
    requires e.shares != [] && !AnyWeight(e.shares)
    requires Distinct(UserIds(e.shares))
    ensures Charges(e).Total() == e.amount
  {
    EqualSplitConserves(UserIds(e.shares), e.payer, e.amount, DivRound(e.amount, |e.shares|), |e.shares|);
  }

  /** The same split with `perShare` for each of `n` shares and the rest to the payer:
      it falls short of `amount` by one share for every share beyond the distinct ids. */
  lemma EqualSplitShortfall(ids: seq<UserId>, payer: UserId, amount: Cents, perShare: Cents, n: int)
    ensures RemainderToPayer(FromKeys(ids, perShare), payer, amount - perShare * n).Total()
            == amount - (n - |FromKeys(ids, perShare).keys|) * perShare
  {
    EqualSplitTotal(ids, payer, perShare, amount - perShare * n);
    Distribute(n, |FromKeys(ids, perShare).keys|, perShare);
  }

  /** A step towards `EqualModeTotal`: the shortfall formula for `EqualCharges`
      itself, before the mode selection in `Charges` is taken into account. */
  lemma EqualChargesTotal(e: Expense)
    requires e.shares != []
    ensures var perShare := DivRound(e.amount, |e.shares|);
            EqualCharges(e).Total()
            == e.amount - (|e.shares| - |FromKeys(UserIds(e.shares), perShare).keys|) * perShare
  {
    EqualSplitShortfall(UserIds(e.shares), e.payer, e.amount, DivRound(e.amount, |e.shares|), |e.shares|);
  }

  /** In general, equal mode charges the amount less one share for every repeated
      participant id: the dict keeps one entry per id while the remainder is computed
      from the number of shares. */
  lemma EqualModeTotal(e: Expense)
    requires e.shares != [] && !AnyWeight(e.shares)
    ensures var perShare := DivRound(e.amount, |e.shares|);
            Charges(e).Total()
            == e.amount - (|e.shares| - |FromKeys(UserIds(e.shares), perShare).keys|) * perShare
  {
    EqualChargesTotal(e);
    assert Charges(e) == EqualCharges(e);
  }

  /** A concrete case: 10.00 paid by user 1, split equally over two shares that both
      name user 2, charges only 5.00. */
  lemma EqualModeRepeatedIdExample()
    ensures Charges(Expense(1, 1000, [Share(2, None), Share(2, None)])).Total() == 500
  {
    var e := Expense(1, 1000, [Share(2, None), Share(2, None)]);
    assert !AnyWeight(e.shares[1..]);
    assert DivRound(1000, 2) == 500;
    EqualModeTotal(e);
    assert UserIds(e.shares) == [2, 2];
    assert FromKeys([2, 2][..1], 500) == Dict([2], map[2 := 500]);
    assert FromKeys([2, 2], 500).keys == [2];
  }

  /** A concrete case: 30.00 paid by user 1, split equally among users 1, 2 and 3,
      charges 10.00 each and leaves no remainder. */
  lemma EqualModeExample()
    ensures Charges(Expense(1, 3000, [Share(1, None), Share(2, None), Share(3, None)])).vals
            == map[1 := 1000, 2 := 1000, 3 := 1000]
  {
    var e := Expense(1, 3000, [Share(1, None), Share(2, None), Share(3, None)]);
    assert !AnyWeight(e.shares[2..]);
    assert !AnyWeight(e.shares[1..]);
    assert DivRound(3000, 3) == 1000;
    assert UserIds(e.shares) == [1, 2, 3];
    assert Charges(e) == FromKeys([1, 2, 3], 1000);
    assert [1, 2, 3][..2] == [1, 2] && [1, 2][..1] == [1];
    assert FromKeys([1, 2], 1000) == Dict([1, 2], map[1 := 1000, 2 := 1000]);
  }

  /** From all members at 0, one expense with shares leaves each id at what it paid
      less what it was charged. */
  lemma SingleExpenseBalance(members: seq<UserId>, e: Expense, x: UserId)
    requires e.shares != []
    ensures Balances(members, [e]).Get(x, 0)
            == (if x == e.payer then e.amount else 0) - Lookup(Charges(e).vals, x)
  {
    var start := Balances(members, []);
    assert [e][..0] == [];
    NoExpenses(members);
    BalancesKeys(members, []);
    assert start.Get(x, 0) == 0;
    ApplyExpenseEffect(start, e);
  }

  /** The same expense as balances: user 1 paid 30.00 and owes 10.00, so is owed
      20.00, and users 2 and 3 each owe 10.00. */
  lemma EqualModeBalancesExample()
    ensures var nets := Balances([1, 2, 3], [Expense(1, 3000, [Share(1, None), Share(2, None), Share(3, None)])]);
            nets.Get(1, 0) == 2000 && nets.Get(2, 0) == -1000 && nets.Get(3, 0) == -1000
  {
    var e := Expense(1, 3000, [Share(1, None), Share(2, None), Share(3, None)]);
    EqualModeExample();
    SingleExpenseBalance([1, 2, 3], e, 1);
    SingleExpenseBalance([1, 2, 3], e, 2);
    SingleExpenseBalance([1, 2, 3], e, 3);
  }

  // ---------------------------------------------------------------------------
  // Weighted mode
  // ---------------------------------------------------------------------------

  /** Share `j` is the last share naming its user. */
  predicate LastShareOf(shares: seq<Share>, j: int)
    requires 0 <= j < |shares|
  {
    forall j' :: j < j' < |shares| ==> shares[j'].userId != shares[j].userId
  }

  /** The weighted allocation has an entry for every participant and nobody else. */
  lemma {:induction false} WeightedAllocKeys(shares: seq<Share>, amount: Cents, total: int)
    requires total > 0
    ensures forall k :: k in WeightedAlloc(shares, amount, total).vals <==> k in UserIds(shares)
    decreases |shares|
  {
    if shares != [] {
      var init := shares[..|shares| - 1];
      WeightedAllocKeys(init, amount, total);
      assert UserIds(shares) == UserIds(init) + [shares[|shares| - 1].userId];
    }
  }

  /** Each participant's entry holds `round(amount * w / total_weight, 2)` for the
      weight of that participant's last share. */
  lemma {:induction false} WeightedAllocContents(shares: seq<Share>, amount: Cents, total: int)
    requires total > 0
    ensures forall j :: 0 <= j < |shares| && LastShareOf(shares, j) ==>
              shares[j].userId in WeightedAlloc(shares, amount, total).vals &&
              WeightedAlloc(shares, amount, total).vals[shares[j].userId]
              == DivRound(amount * EffectiveWeight(shares[j].weight), total)
    decreases |shares|
  {
    if shares != [] {
      var init := shares[..|shares| - 1];
      var last := shares[|shares| - 1];
      WeightedAllocContents(init, amount, total);
      var prev := WeightedAlloc(init, amount, total);
      var v := DivRound(amount * EffectiveWeight(last.weight), total);
      assert WeightedAlloc(shares, amount, total).vals == prev.vals[last.userId := v];
      forall j | 0 <= j < |shares| && LastShareOf(shares, j)
        ensures shares[j].userId in WeightedAlloc(shares, amount, total).vals &&
                WeightedAlloc(shares, amount, total).vals[shares[j].userId]
                == DivRound(amount * EffectiveWeight(shares[j].weight), total)
      {
        if j < |shares| - 1 {
          assert LastShareOf(init, j);
          assert init[j] == shares[j];
          assert shares[j].userId != last.userId;
        }
      }
    }
  }

  /** Weighted mode with a positive total weight: each participant is charged the
      weighted amount of its last share, the payer additionally absorbs
      the amount less the sum of the allocated charges (a payer who is not a participant
      is charged just that), and the charges add up to exactly the amount, whether or
      not ids repeat. */
  lemma WeightedModeCharges(e: Expense)
    requires e.shares != [] && AnyWeight(e.shares) && TotalWeight(e.shares) > 0
    ensures var alloc := WeightedAlloc(e.shares, e.amount, TotalWeight(e.shares));
            var remainder := e.amount - alloc.Total();
            && (forall k :: k in Charges(e).vals <==> k in UserIds(e.shares) || (k == e.payer && remainder != 0))
            && (forall j :: 0 <= j < |e.shares| && LastShareOf(e.shares, j) ==>
                  Charges(e).vals[e.shares[j].userId]
                  == DivRound(e.amount * EffectiveWeight(e.shares[j].weight), TotalWeight(e.shares))
                     + (if e.shares[j].userId == e.payer then remainder else 0))
            && (e.payer !in UserIds(e.shares) && remainder != 0 ==> Charges(e).vals[e.payer] == remainder)
            && Charges(e).Total() == e.amount
  {
    var alloc := WeightedAlloc(e.shares, e.amount, TotalWeight(e.shares));
    WeightedAllocKeys(e.shares, e.amount, TotalWeight(e.shares));
    WeightedAllocContents(e.shares, e.amount, TotalWeight(e.shares));
    RemainderToPayerEffect(alloc, e.payer, e.amount - alloc.Total());
  }

  /** A concrete case: 10.00 paid by user 1 with weights 1 and 2 (in ten-thousandths)
      charges 3.33 and 6.67, which add up to the amount, so no remainder is added. */
  lemma WeightedModeExample()
    ensures Charges(Expense(1, 1000, [Share(1, Some(10000)), Share(2, Some(20000))])).vals
            == map[1 := 333, 2 := 667]
  {
    var e := Expense(1, 1000, [Share(1, Some(10000)), Share(2, Some(20000))]);
    assert AnyWeight(e.shares);
    assert TotalWeight(e.shares) == 30000 by {
      assert TotalWeight(e.shares[1..]) == 20000;
    }
    assert DivRound(1000 * 10000, 30000) == 333;
    assert DivRound(1000 * 20000, 30000) == 667;
    var alloc := WeightedAlloc(e.shares, e.amount, 30000);
    assert WeightedAlloc(e.shares[..1], e.amount, 30000) == Dict([1], map[1 := 333]);
    assert alloc == Dict([1, 2], map[1 := 333, 2 := 667]);
    assert alloc.Total() == 1000;
  }

  // ---------------------------------------------------------------------------
  // Zero-total-weight fallback
  // ---------------------------------------------------------------------------

  /** Fallback: exactly the participants are charged, each `round(amount / n, 2)`, with
      no remainder correction, so the charges total that value times the number of
      distinct participants. */
  lemma FallbackModeCharges(e: Expense)
    requires e.shares != [] && AnyWeight(e.shares) && TotalWeight(e.shares) <= 0
    ensures forall k :: k in Charges(e).vals <==> k in UserIds(e.shares)
    ensures forall k :: k in Charges(e).vals ==> Charges(e).vals[k] == DivRound(e.amount, |e.shares|)
    ensures Charges(e).Total() == |Charges(e).keys| * DivRound(e.amount, |e.shares|)
  {
    FromKeysContents(UserIds(e.shares), DivRound(e.amount, |e.shares|));
    FromKeysTotal(UserIds(e.shares), DivRound(e.amount, |e.shares|));
  }

  /** A concrete case: 10.00 over three shares whose weights are all zero or missing
      charges 3.33 each, 9.99 in all, while the payer is credited 10.00. */
  lemma FallbackDriftExample()
    ensures Charges(Expense(1, 1000, [Share(1, Some(0)), Share(2, Some(0)), Share(3, None)])).Total() == 999
  {
    var e := Expense(1, 1000, [Share(1, Some(0)), Share(2, Some(0)), Share(3, None)]);
    assert AnyWeight(e.shares);
    assert TotalWeight(e.shares) == 0 by {
      assert TotalWeight(e.shares[2..]) == 0;
      assert TotalWeight(e.shares[1..]) == 0;
    }
    assert UserIds(e.shares) == [1, 2, 3];
    assert Distinct([1, 2, 3]);
    assert DivRound(1000, 3) == 333;
    FromKeysDistinct([1, 2, 3], 333);
  }

  // ---------------------------------------------------------------------------
  // Which ids an expense touches
  // ---------------------------------------------------------------------------

  /** Every participant is charged, and nobody besides the participants and the payer. */
  lemma ChargesKeys(e: Expense)
    requires e.shares != []
    ensures forall k :: k in UserIds(e.shares) ==> k in Charges(e).vals
    ensures forall k :: k in Charges(e).vals ==> k in UserIds(e.shares) || k == e.payer
  {
    if !AnyWeight(e.shares) {
      EqualModeCharges(e);
    } else if TotalWeight(e.shares) <= 0 {
      FallbackModeCharges(e);
    } else {
      WeightedModeCharges(e);
    }
  }

  /** The ids an expense adds to the balances: none when it has no shares, otherwise
      its participants and its payer. */
  function Involved(e: Expense): set<UserId> {
    if e.shares == [] then {} else (set k | k in UserIds(e.shares)) + {e.payer}
  }

  function InvolvedAll(expenses: seq<Expense>): set<UserId>
    decreases |expenses|
  {
    if expenses == [] then {}
    else InvolvedAll(expenses[..|expenses| - 1]) + Involved(expenses[|expenses| - 1])
  }

  // ---------------------------------------------------------------------------
  // Applying one expense
  // ---------------------------------------------------------------------------

  /** A debit lowers one id's balance by the amount, adding the id at 0 first when it
      is missing, and leaves every other balance alone. */
  lemma DebitPointwise(d: Dict, k: UserId, amt: Cents)
    requires d.Valid()
    ensures Debit(d, k, amt).Valid()
    ensures Debit(d, k, amt).vals.Keys == d.vals.Keys + {k}
    ensures forall x :: Debit(d, k, amt).Get(x, 0) == d.Get(x, 0) - (if x == k then amt else 0)
  {
  }

  /** The debit loop with distinct keys debits each listed id once and adds the ids
      that were missing. */
  lemma {:induction false} DebitAllPointwise(nets: Dict, ks: seq<UserId>, amts: map<UserId, Cents>)
    requires nets.Valid() && Distinct(ks)
    ensures DebitAll(nets, ks, amts).Valid()
    ensures forall x :: x in DebitAll(nets, ks, amts).vals <==> x in nets.vals || x in ks
    ensures forall x :: DebitAll(nets, ks, amts).Get(x, 0)
                        == nets.Get(x, 0) - (if x in ks then Lookup(amts, x) else 0)
    decreases |ks|
  {
    if ks != [] {
      var init, last := ks[..|ks| - 1], ks[|ks| - 1];
      DistinctLast(ks);
      DebitAllPointwise(nets, init, amts);
      var prev := DebitAll(nets, init, amts);
      DebitPointwise(prev, last, Lookup(amts, last));
      forall x ensures x in ks <==> x in init || x == last {
        assert ks == init + [last];
      }
    }
  }

  /** A debit lowers the total by the amount debited. */
  lemma DebitTotal(d: Dict, k: UserId, amt: Cents)
    requires d.Valid()
    ensures Debit(d, k, amt).Valid()
    ensures Debit(d, k, amt).Total() == d.Total() - amt
  {
    TotalPut(d, k, d.Get(k, 0) - amt);
  }

  /** The debit loop lowers the total by the sum of what it debits. */
  lemma {:induction false} DebitAllTotal(nets: Dict, ks: seq<UserId>, amts: map<UserId, Cents>)
    requires nets.Valid()
    ensures DebitAll(nets, ks, amts).Valid()
    ensures DebitAll(nets, ks, amts).Total() == nets.Total() - SumOver(ks, amts)
    decreases |ks|
  {
    if ks != [] {
      var init, last := ks[..|ks| - 1], ks[|ks| - 1];
      DebitAllTotal(nets, init, amts);
      DebitTotal(DebitAll(nets, init, amts), last, Lookup(amts, last));
      SumOverLast(ks, amts);
    }
  }

  /** Debiting every entry of `per` and crediting `amount` to the payer: each id drops
      by its charge, the payer rises by the amount, and the charged ids and the payer
      are added. */
  lemma DebitCreditPointwise(nets: Dict, per: Dict, payer: UserId, amount: Cents)
    requires nets.Valid() && per.Valid()
    ensures Credit(DebitAll(nets, per.keys, per.vals), payer, amount).Valid()
    ensures Credit(DebitAll(nets, per.keys, per.vals), payer, amount).vals.Keys
            == nets.vals.Keys + per.vals.Keys + {payer}
    ensures forall x :: Credit(DebitAll(nets, per.keys, per.vals), payer, amount).Get(x, 0)
                        == nets.Get(x, 0) - Lookup(per.vals, x) + (if x == payer then amount else 0)
  {
    DebitAllPointwise(nets, per.keys, per.vals);
    var d := DebitAll(nets, per.keys, per.vals);
    assert d.vals.Keys == nets.vals.Keys + per.vals.Keys by {
      forall x ensures x in d.vals.Keys <==> x in nets.vals.Keys + per.vals.Keys {
      }
    }
  }

  /** The same step moves the total by the amount less the sum of the charges. */
  lemma DebitCreditTotal(nets: Dict, per: Dict, payer: UserId, amount: Cents)
    requires nets.Valid()
    ensures Credit(DebitAll(nets, per.keys, per.vals), payer, amount).Total()
            == nets.Total() + amount - per.Total()
  {
    DebitAllTotal(nets, per.keys, per.vals);
    var d := DebitAll(nets, per.keys, per.vals);
    TotalPut(d, payer, d.Get(payer, 0) + amount);
  }

  /** When the charged ids are the participants `ids` and possibly the payer, the ids
      present afterwards are those before plus the participants and the payer. */
  lemma DebitCreditKeys(nets: Dict, per: Dict, payer: UserId, amount: Cents, ids: seq<UserId>)
    requires nets.Valid() && per.Valid()
    requires forall k :: k in ids ==> k in per.vals
    requires forall k :: k in per.vals ==> k in ids || k == payer
    ensures Credit(DebitAll(nets, per.keys, per.vals), payer, amount).vals.Keys
            == nets.vals.Keys + (set k | k in ids) + {payer}
  {
    DebitCreditPointwise(nets, per, payer, amount);
    forall k ensures k in per.vals.Keys + {payer} <==> k in (set k | k in ids) + {payer} {
    }
    assert per.vals.Keys + {payer} == (set k | k in ids) + {payer};
  }

  /** After one expense, every id's balance has dropped by its charge and the payer's
      has risen by the amount; the ids added are the expense's participants and payer.
      An expense without shares changes nothing. */
  lemma ApplyExpenseEffect(nets: Dict, e: Expense)
    requires nets.Valid()
    ensures ApplyExpense(nets, e).Valid()
    ensures ApplyExpense(nets, e).vals.Keys == nets.vals.Keys + Involved(e)
    ensures e.shares == [] ==> ApplyExpense(nets, e) == nets
    ensures e.shares != [] ==>
              forall x :: ApplyExpense(nets, e).Get(x, 0)
                          == nets.Get(x, 0) - Lookup(Charges(e).vals, x) + (if x == e.payer then e.amount else 0)
  {
    if e.shares != [] {
      var per := Charges(e);
      DebitCreditPointwise(nets, per, e.payer, e.amount);
      ChargesKeys(e);
      DebitCreditKeys(nets, per, e.payer, e.amount, UserIds(e.shares));
    }
  }

  /** One expense moves the total of all balances by its amount minus its charges. */
  lemma ApplyExpenseTotal(nets: Dict, e: Expense)
    requires nets.Valid()
    ensures ApplyExpense(nets, e).Total()
            == nets.Total() + (if e.shares == [] then 0 else e.amount - Charges(e).Total())
  {
    if e.shares != [] {
      var per := Charges(e);
      DebitCreditTotal(nets, per, e.payer, e.amount);
    }
  }

  // ---------------------------------------------------------------------------
  // The whole computation
  // ---------------------------------------------------------------------------

  /** With no expenses, exactly the members are present, each at 0. */
  lemma NoExpenses(members: seq<UserId>)
    ensures forall k :: k in Balances(members, []).vals <==> k in members
    ensures forall k :: k in Balances(members, []).vals ==> Balances(members, []).vals[k] == 0
    ensures Balances(members, []).Total() == 0
  {
    FromKeysContents(members, 0);
    FromKeysTotal(members, 0);
  }

  /** An expense without shares leaves every balance as it was. */
  lemma SkipsExpenseWithoutShares(members: seq<UserId>, expenses: seq<Expense>, e: Expense)
    requires e.shares == []
    ensures Balances(members, expenses + [e]) == Balances(members, expenses)
  {
    assert (expenses + [e])[..|expenses|] == expenses;
  }

  /** The result has an entry for every member and for every participant and payer of
      an expense with shares, and for nobody else. */
  lemma {:induction false} BalancesKeys(members: seq<UserId>, expenses: seq<Expense>)
    ensures Balances(members, expenses).Valid()
    ensures Balances(members, expenses).vals.Keys == (set k | k in members) + InvolvedAll(expenses)
    decreases |expenses|
  {
    if expenses == [] {
      FromKeysContents(members, 0);
      assert Balances(members, expenses) == FromKeys(members, 0);
      forall k ensures k in FromKeys(members, 0).vals.Keys <==> k in (set k | k in members) {
      }
    } else {
      var init := expenses[..|expenses| - 1];
      BalancesKeys(members, init);
      ApplyExpenseEffect(Balances(members, init), expenses[|expenses| - 1]);
    }
  }

  /** How far an expense's charges fall short of its amount; 0 for a skipped expense. */
  function Shortfall(e: Expense): Cents {
    if e.shares == [] then 0 else e.amount - Charges(e).Total()
  }

  function TotalShortfall(expenses: seq<Expense>): Cents
    decreases |expenses|
  {
    if expenses == [] then 0
    else TotalShortfall(expenses[..|expenses| - 1]) + Shortfall(expenses[|expenses| - 1])
  }

  /** The balances always sum to the total of the expenses' shortfalls. */
  lemma {:induction false} BalancesTotal(members: seq<UserId>, expenses: seq<Expense>)
    ensures Balances(members, expenses).Total() == TotalShortfall(expenses)
    decreases |expenses|
  {
    if expenses == [] {
      NoExpenses(members);
    } else {
      var init := expenses[..|expenses| - 1];
      BalancesTotal(members, init);
      BalancesKeys(members, init);
      ApplyExpenseTotal(Balances(members, init), expenses[|expenses| - 1]);
    }
  }

  /** An expense whose charges add up to its amount (or that is skipped). */
  predicate Conserving(e: Expense) {
    e.shares == [] || Charges(e).Total() == e.amount
  }

  /** Equal mode with distinct participants and positive-weight mode always conserve. */
  lemma ConservingModes(e: Expense)
    requires e.shares != []
    requires (!AnyWeight(e.shares) && Distinct(UserIds(e.shares))) || TotalWeight(e.shares) > 0
    ensures Conserving(e)
  {
    if !AnyWeight(e.shares) && Distinct(UserIds(e.shares)) {
      EqualModeConserves(e);
    } else {
      if !AnyWeight(e.shares) {
        AnyWeightIff(e.shares);
        assert forall i :: 0 <= i < |e.shares| ==> EffectiveWeight(e.shares[i].weight) == 0;
        TotalWeightZero(e.shares);
      }
      WeightedModeCharges(e);
    }
  }

  /** Zero-sum: when every expense's charges add up to its amount, the balances sum to
      exactly 0. */
  lemma ZeroSum(members: seq<UserId>, expenses: seq<Expense>)
    requires forall i :: 0 <= i < |expenses| ==> Conserving(expenses[i])
    ensures Balances(members, expenses).Total() == 0
  {
    BalancesTotal(members, expenses);
    TotalShortfallZero(expenses);
  }

  lemma {:induction false} TotalShortfallZero(expenses: seq<Expense>)
    requires forall i :: 0 <= i < |expenses| ==> Conserving(expenses[i])
    ensures TotalShortfall(expenses) == 0
    decreases |expenses|
  {
    if expenses != [] {
      TotalShortfallZero(expenses[..|expenses| - 1]);
    }
  }
}
