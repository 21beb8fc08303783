/** The balance calculator and the settlement suggester run one after the other, on a
    case where the expenses do not conserve money. */
module EndToEnd {
  import opened Money
  import opened Models
  import opened OrderedDict
  import opened BalanceService
  import opened SettlementService

  /** Equal mode whose per-share charges add up to the amount: the charges are the
      comprehension at the per-share charge, with nothing added for the payer. */
  lemma EqualChargesExact(e: Expense)
    requires e.shares != [] && !AnyWeight(e.shares)
    requires DivRound(e.amount, |e.shares|) * |e.shares| == e.amount
    ensures Charges(e) == FromKeys(UserIds(e.shares), DivRound(e.amount, |e.shares|))
  {
  }

  /** The charges of 10.00 split equally over two shares that both name user 2: one
      entry, 5.00 for user 2, and no remainder. */
  lemma RepeatedIdCharges()
    ensures Charges(Expense(1, 1000, [Share(2, None), Share(2, None)])) == Dict([2], map[2 := 500])
  {
    var e := Expense(1, 1000, [Share(2, None), Share(2, None)]);
    assert !AnyWeight(e.shares[1..]);
    assert DivRound(1000, 2) == 500;
    EqualChargesExact(e);
    assert UserIds(e.shares) == [2, 2];
    assert [2, 2][..1] == [2] && [2][..0] == [];
    assert FromKeys([2, 2], 500) == Dict([2], map[2 := 500]);
  }

  /** From members at 0, one expense with shares whose charges are `per`: every
      charge is debited, then the payer is credited the amount. */
  lemma BalancesOfOne(members: seq<UserId>, e: Expense, per: Dict)
    requires e.shares != [] && per == Charges(e)
    ensures Balances(members, [e])
            == Credit(DebitAll(FromKeys(members, 0), per.keys, per.vals), e.payer, e.amount)
  {
    assert [e][..0] == [];
  }

  /** Members 1 and 2, both at 0. */
  lemma TwoMembersAtZero()
    ensures FromKeys([1, 2], 0) == Dict([1, 2], map[1 := 0, 2 := 0])
  {
    assert [1, 2][..1] == [1] && [1][..0] == [];
    assert FromKeys([1], 0) == Dict([1], map[1 := 0]);
  }

  /** The ledger steps for those charges: from members 1 and 2 at 0, user 2 is
      debited 5.00 and user 1 credited 10.00. */
  lemma RepeatedIdLedger()
    ensures Credit(DebitAll(FromKeys([1, 2], 0), [2], map[2 := 500]), 1, 1000)
            == Dict([1, 2], map[1 := 1000, 2 := -500])
  {
    TwoMembersAtZero();
    var start := Dict([1, 2], map[1 := 0, 2 := 0]);
    assert [2][..0] == [];
    var debited := Dict([1, 2], map[1 := 0, 2 := -500]);
    assert DebitAll(start, [2], map[2 := 500]) == debited by {
      assert debited.vals == start.vals[2 := -500];
    }
    assert Credit(debited, 1, 1000).vals == debited.vals[1 := 1000];
  }

  /** The balances after that expense, with members 1 and 2. */
  lemma RepeatedIdBalances()
    ensures Balances([1, 2], [Expense(1, 1000, [Share(2, None), Share(2, None)])])
            == Dict([1, 2], map[1 := 1000, 2 := -500])
  {
    RepeatedIdCharges();
    BalancesOfOne([1, 2], Expense(1, 1000, [Share(2, None), Share(2, None)]), Dict([2], map[2 := 500]));
    RepeatedIdLedger();
  }

  /** The suggestion for those balances: a single transfer of 5.00 from 2 to 1. */
  lemma RepeatedIdSuggested()
    ensures Suggested(Dict([1, 2], map[1 := 1000, 2 := -500])) == [Settlement(2, 1, 500)]
  {
    var nets := Dict([1, 2], map[1 := 1000, 2 := -500]);
    assert Creditors([2], nets.vals) == [];
    assert Creditors(nets.keys, nets.vals) == [Party(1, 1000)];
    assert Debtors([2], nets.vals) == [Party(2, 500)];
    assert Debtors(nets.keys, nets.vals) == [Party(2, 500)];
    assert Netting([], [Party(1, 500)]) == [];
  }

  /** 10.00 paid by user 1 and split equally over two shares that both name user 2:
      the balances are +10.00 for user 1 and -5.00 for user 2, and the one suggested
      transfer, 5.00 from user 2 to user 1, leaves user 1 still owed 5.00. */
  lemma RepeatedIdUnsettled()
    ensures var nets := Balances([1, 2], [Expense(1, 1000, [Share(2, None), Share(2, None)])]);
            && nets == Dict([1, 2], map[1 := 1000, 2 := -500])
            && Suggested(nets) == [Settlement(2, 1, 500)]
  {
    RepeatedIdBalances();
    RepeatedIdSuggested();
  }
}
