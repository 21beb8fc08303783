/** The balance calculator: walks a group's expenses in creation order, splits each
    one among its shares (equally, by weight, or by the zero-weight fallback), lets
    the payer absorb the rounding remainder, debits every charged member and credits
    the payer. The result maps member id to net balance in cents: positive is owed
    money, negative owes money. */
module BalanceService {
  import opened Money
  import opened Models
  import opened OrderedDict

  // ---------------------------------------------------------------------------
  // Weights and the choice of split mode
  // ---------------------------------------------------------------------------

  /** A share's weight as the weighted split counts it: a missing or non-positive
      weight counts as 0. */
  function EffectiveWeight(w: Option<int>): (r: int)
    ensures r >= 0
    ensures r > 0 <==> w.Some? && w.value > 0
    ensures w.Some? && w.value > 0 ==> r == w.value
  {
    if w.Some? && w.value > 0 then w.value else 0
  }

  /** Whether some share carries a weight: this selects the weighted split. */
  predicate AnyWeight(shares: seq<Share>) {
    shares != [] && (shares[0].weight.Some? || AnyWeight(shares[1..]))
  }

  /** The sum of the effective weights. */
  function TotalWeight(shares: seq<Share>): int {
    if shares == [] then 0 else EffectiveWeight(shares[0].weight) + TotalWeight(shares[1..])
  }

  /** The weighted split is chosen exactly when at least one share has a non-null weight. */
  lemma {:induction false} AnyWeightIff(shares: seq<Share>)
    ensures AnyWeight(shares) <==> exists i :: 0 <= i < |shares| && shares[i].weight.Some?
  {
    if shares != [] {
      AnyWeightIff(shares[1..]);
      if AnyWeight(shares[1..]) {
        var i :| 0 <= i < |shares[1..]| && shares[1..][i].weight.Some?;
        assert shares[i + 1].weight.Some?;
      }
      if exists i :: 0 <= i < |shares| && shares[i].weight.Some? {
        var i :| 0 <= i < |shares| && shares[i].weight.Some?;
        if i > 0 {
          assert shares[1..][i - 1].weight.Some?;
        }
      }
    }
  }

  /** The total weight is never negative, and it is zero (so the fallback is taken)
      exactly when every weight is missing or non-positive. */
  lemma {:induction false} TotalWeightZero(shares: seq<Share>)
    ensures TotalWeight(shares) >= 0
    ensures TotalWeight(shares) <= 0 <==>
              forall i :: 0 <= i < |shares| ==> EffectiveWeight(shares[i].weight) == 0
  {
    if shares != [] {
      TotalWeightZero(shares[1..]);
      if TotalWeight(shares) <= 0 {
        forall i | 0 <= i < |shares| ensures EffectiveWeight(shares[i].weight) == 0 {
          if i > 0 {
            assert shares[i] == shares[1..][i - 1];
          }
        }
      }
      if forall i :: 0 <= i < |shares| ==> EffectiveWeight(shares[i].weight) == 0 {
        forall i | 0 <= i < |shares| - 1 ensures EffectiveWeight(shares[1..][i].weight) == 0 {
          assert shares[1..][i] == shares[i + 1];
        }
      }
    }
  }

  // ---------------------------------------------------------------------------
  // Per-expense allocation (`per_amounts`)
  // ---------------------------------------------------------------------------

  /** The remainder policy: a non-zero rounding remainder is added to the payer's own
      charge, creating the payer's entry if the payer is not a participant. */
  function RemainderToPayer(per: Dict, payer: UserId, remainder: Cents): (r: Dict)
    ensures per.Valid() ==> r.Valid()
    ensures r.vals.Keys == per.vals.Keys + (if remainder != 0 then {payer} else {})
  {
    if remainder != 0 then per.Put(payer, per.Get(payer, 0) + remainder) else per
  }

  /** Equal mode: each share owes `round(amount / n, 2)`, and the payer absorbs
      `amount - per_share * n`. */
  function EqualCharges(e: Expense): Dict
    requires e.shares != []
  {
    var n := |e.shares|;
    var perShare := DivRound(e.amount, n);
    RemainderToPayer(FromKeys(UserIds(e.shares), perShare), e.payer, e.amount - perShare * n)
  }

  /** Zero-total-weight fallback: each share owes `round(amount / n, 2)` and no
      remainder is corrected. */
  function FallbackCharges(e: Expense): Dict
    requires e.shares != []
  {
    FromKeys(UserIds(e.shares), DivRound(e.amount, |e.shares|))
  }

  /** The weighted allocation loop: each share in turn assigns
      `round(amount * w / total_weight, 2)` to its user, so a later share of the same
      user overwrites an earlier one. */
  function WeightedAlloc(shares: seq<Share>, amount: Cents, total: int): (r: Dict)
    requires total > 0
    ensures r.Valid()
    decreases |shares|
  {
    if shares == [] then Empty()
    else
      var last := shares[|shares| - 1];
      WeightedAlloc(shares[..|shares| - 1], amount, total)
        .Put(last.userId, DivRound(amount * EffectiveWeight(last.weight), total))
  }

  /** Weighted mode with a positive total weight: the weighted allocation, then the
      payer absorbs the amount less the sum of the allocated charges. */
  function WeightedCharges(e: Expense): Dict
    requires TotalWeight(e.shares) > 0
  {
    var per := WeightedAlloc(e.shares, e.amount, TotalWeight(e.shares));
    RemainderToPayer(per, e.payer, e.amount - per.Total())
  }

  /** `per_amounts` of an expense that has shares. */
  function Charges(e: Expense): (per: Dict)
    requires e.shares != []
    ensures per.Valid()
  {
    if AnyWeight(e.shares) then
      if TotalWeight(e.shares) <= 0 then FallbackCharges(e) else WeightedCharges(e)
    else
      EqualCharges(e)
  }

  /** The weighted allocation loop, assigning share by share in list order. */
  method WeightedAllocate(shares: seq<Share>, amount: Cents, total: int) returns (per: Dict)
    requires total > 0
    ensures per == WeightedAlloc(shares, amount, total)
  {
    per := Empty();
    for k := 0 to |shares|
      invariant per == WeightedAlloc(shares[..k], amount, total)
    {
      var s := shares[k];
      assert shares[..k + 1][..k] == shares[..k];
      per := per.Put(s.userId, DivRound(amount * EffectiveWeight(s.weight), total));
    }
    assert shares[..|shares|] == shares;
  }

  /** Builds the charges of one expense step by step: the weighted loop assigns share
      by share, and a non-zero remainder is then patched into the payer's entry. */
  method AllocateExpense(e: Expense) returns (per: Dict)
    requires e.shares != []
    ensures per == Charges(e)
  {
    var n := |e.shares|;
    if AnyWeight(e.shares) {
      var totalWeight := TotalWeight(e.shares);
      if totalWeight <= 0 {
        per := FromKeys(UserIds(e.shares), DivRound(e.amount, n));
      } else {
        per := WeightedAllocate(e.shares, e.amount, totalWeight);
        var allocatedSum := per.Total();
        var remainder := e.amount - allocatedSum;
        if remainder != 0 {
          per := per.Put(e.payer, per.Get(e.payer, 0) + remainder);
        }
      }
    } else {
      var perShare := DivRound(e.amount, n);
      per := FromKeys(UserIds(e.shares), perShare);
      var allocatedSum := perShare * n;
      var remainder := e.amount - allocatedSum;
      if remainder != 0 {
        per := per.Put(e.payer, per.Get(e.payer, 0) + remainder);
      }
    }
  }

  // ---------------------------------------------------------------------------
  // Accumulating the net balances (`nets`)
  // ---------------------------------------------------------------------------

  /** Subtracts a charge from an id's balance, which starts at 0 when the id is new. */
  function Debit(nets: Dict, uid: UserId, amt: Cents): Dict {
    nets.Put(uid, nets.Get(uid, 0) - amt)
  }

  /** Adds an amount to an id's balance, which starts at 0 when the id is new. */
  function Credit(nets: Dict, uid: UserId, amt: Cents): Dict {
    nets.Put(uid, nets.Get(uid, 0) + amt)
  }

  /** The debit loop over the charges, in their dict order, for the keys `ks`. */
  function DebitAll(nets: Dict, ks: seq<UserId>, amts: map<UserId, Cents>): Dict
    decreases |ks|
  {
    if ks == [] then nets
    else Debit(DebitAll(nets, ks[..|ks| - 1], amts), ks[|ks| - 1], Lookup(amts, ks[|ks| - 1]))
  }

  /** Debits every charged id its charge, in the charges' dict order, then credits
      the payer the whole amount. */
  function ApplyCharges(nets: Dict, per: Dict, payer: UserId, amount: Cents): Dict {
    Credit(DebitAll(nets, per.keys, per.vals), payer, amount)
  }

  /** One iteration of the loop over expenses: skipped without shares, otherwise every
      charged id is debited its charge and then the payer is credited the amount. */
  function ApplyExpense(nets: Dict, e: Expense): Dict {
    if e.shares == [] then nets else ApplyCharges(nets, Charges(e), e.payer, e.amount)
  }

  /** The net balances after the first `|expenses|` expenses, starting from every
      member at 0. */
  function Balances(members: seq<UserId>, expenses: seq<Expense>): Dict
    decreases |expenses|
  {
    if expenses == [] then FromKeys(members, 0)
    else ApplyExpense(Balances(members, expenses[..|expenses| - 1]), expenses[|expenses| - 1])
  }

  lemma BalancesStep(members: seq<UserId>, expenses: seq<Expense>, i: nat)
    requires i < |expenses|
    ensures Balances(members, expenses[..i + 1])
            == ApplyExpense(Balances(members, expenses[..i]), expenses[i])
  {
    assert expenses[..i + 1][..i] == expenses[..i];
  }

  lemma DebitAllStep(nets: Dict, ks: seq<UserId>, amts: map<UserId, Cents>, k: nat)
    requires k < |ks|
    ensures DebitAll(nets, ks[..k + 1], amts)
            == Debit(DebitAll(nets, ks[..k], amts), ks[k], Lookup(amts, ks[k]))
  {
    assert ks[..k + 1][..k] == ks[..k];
  }

  /** The debit loop: every charged id, in the charges' dict order, has its charge
      subtracted from its balance. */
  method DebitCharges(nets: Dict, per: Dict) returns (r: Dict)
    ensures r == DebitAll(nets, per.keys, per.vals)
  {
    r := nets;
    var items, amts := per.keys, per.vals;
    for k := 0 to |items|
      invariant r == DebitAll(nets, items[..k], amts)
    {
      var uid := items[k];
      DebitAllStep(nets, items, amts, k);
      // a new id enters at 0, then its charge is subtracted
      r := Debit(r, uid, Lookup(amts, uid));
    }
    assert items[..|items|] == items;
  }

  /** The body of the loop over expenses: skip an expense without shares, otherwise
      compute its charges, debit each charged id and credit the payer. */
  method ProcessExpense(nets: Dict, e: Expense) returns (r: Dict)
    ensures r == ApplyExpense(nets, e)
  {
    r := nets;
    if e.shares == [] {
      return;
    }
    var per := AllocateExpense(e);
    var debited := DebitCharges(nets, per);
    // the payer, entered at 0 if new, is credited the whole amount
    r := Credit(debited, e.payer, e.amount);
  }

  /** `compute_group_balances` on the members and the expenses already read, in
      creation order. */
  method ComputeGroupBalances(members: seq<UserId>, expenses: seq<Expense>) returns (nets: Dict)
    ensures nets == Balances(members, expenses)
  {
    nets := FromKeys(members, 0);
    for i := 0 to |expenses|
      invariant nets == Balances(members, expenses[..i])
    {
      nets := ProcessExpense(nets, expenses[i]);
      BalancesStep(members, expenses, i);
    }
    assert expenses[..|expenses|] == expenses;
    // The closing two-decimal rounding of every entry leaves whole cents unchanged.
  }
}
