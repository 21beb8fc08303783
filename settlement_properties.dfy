/** What the settlement suggester guarantees: creditors and debtors are exactly the
    balances outside the half-cent band, each list is a stable descending sort of its
    entries, every transfer is positive and runs from a debtor to a creditor, the
    number of transfers is bounded, nobody pays or receives more than they owe or are
    owed, and balances that sum to zero are settled exactly. */
module SettlementProperties {
  import opened Money
  import opened Models
  import opened OrderedDict
  import opened SettlementService

  // ---------------------------------------------------------------------------
  // Measures over parties and settlements
  // ---------------------------------------------------------------------------

  /** The ids of a list of parties. */
  function Ids(ps: seq<Party>): set<UserId> {
    set p | p in ps :: p.id
  }

  /** Every party's amount is positive. */
  predicate AllPositive(ps: seq<Party>) {
    forall p :: p in ps ==> p.amount > 0
  }

  /** The amount listed for `x`, summed over its entries. */
  function Owed(ps: seq<Party>, x: UserId): Cents {
    if ps == [] then 0 else (if ps[0].id == x then ps[0].amount else 0) + Owed(ps[1..], x)
  }

  /** The total amount listed. */
  function Sum(ps: seq<Party>): Cents {
    if ps == [] then 0 else ps[0].amount + Sum(ps[1..])
  }

  /** What `x` pays over a list of settlements. */
  function Paid(ss: seq<Settlement>, x: UserId): Cents {
    if ss == [] then 0 else (if ss[0].debtor == x then ss[0].amount else 0) + Paid(ss[1..], x)
  }

  /** What `x` receives over a list of settlements. */
  function Received(ss: seq<Settlement>, x: UserId): Cents {
    if ss == [] then 0 else (if ss[0].creditor == x then ss[0].amount else 0) + Received(ss[1..], x)
  }

  predicate SortedDescending(ps: seq<Party>) {
    forall i, j :: 0 <= i < j < |ps| ==> ps[i].amount >= ps[j].amount
  }

  /** The parties whose amount is `v`, in order. */
  function WithAmount(ps: seq<Party>, v: Cents): seq<Party> {
    if ps == [] then [] else (if ps[0].amount == v then [ps[0]] else []) + WithAmount(ps[1..], v)
  }

  lemma {:induction false} OwedNonNegative(ps: seq<Party>, x: UserId)
    requires AllPositive(ps)
    ensures Owed(ps, x) >= 0
  {
    if ps != [] {
      assert ps[0] in ps;
      OwedNonNegative(ps[1..], x);
    }
  }

  lemma {:induction false} SumPositive(ps: seq<Party>)
    requires AllPositive(ps)
    ensures Sum(ps) >= 0
    ensures ps != [] ==> Sum(ps) > 0
  {
    if ps != [] {
      assert ps[0] in ps;
      SumPositive(ps[1..]);
    }
  }

  // ---------------------------------------------------------------------------
  // Partition
  // ---------------------------------------------------------------------------

  /** Creditors are exactly the keys whose balance exceeds half a cent, with that
      balance. */
  lemma {:induction false} CreditorsIff(ks: seq<UserId>, vals: map<UserId, Cents>)
    ensures forall p :: p in Creditors(ks, vals) <==>
              p.id in ks && AboveTolerance(Lookup(vals, p.id)) && p.amount == Lookup(vals, p.id)
  {
    if ks != [] {
      CreditorsIff(ks[1..], vals);
      assert forall k :: k in ks <==> k == ks[0] || k in ks[1..];
    }
  }

  /** Debtors are exactly the keys whose balance is below minus half a cent, with the
      balance negated. */
  lemma {:induction false} DebtorsIff(ks: seq<UserId>, vals: map<UserId, Cents>)
    ensures forall p :: p in Debtors(ks, vals) <==>
              p.id in ks && BelowTolerance(Lookup(vals, p.id)) && p.amount == -Lookup(vals, p.id)
  {
    if ks != [] {
      DebtorsIff(ks[1..], vals);
      assert forall k :: k in ks <==> k == ks[0] || k in ks[1..];
    }
  }

  /** Over distinct keys, what a creditor is listed for is its balance, and 0 for
      anybody within the band or absent. */
  lemma {:induction false} OwedCreditors(ks: seq<UserId>, vals: map<UserId, Cents>, x: UserId)
    requires Distinct(ks)
    ensures Owed(Creditors(ks, vals), x)
            == if x in ks && AboveTolerance(Lookup(vals, x)) then Lookup(vals, x) else 0
  {
    if ks != [] {
      assert Distinct(ks[1..]);
      OwedCreditors(ks[1..], vals, x);
      var head := if AboveTolerance(Lookup(vals, ks[0])) then [Party(ks[0], Lookup(vals, ks[0]))] else [];
      OwedAppend(head, Creditors(ks[1..], vals), x);
      assert x == ks[0] ==> x !in ks[1..];
    }
  }

  /** Over distinct keys, what a debtor is listed for is its negated balance, and 0
      for anybody within the band or absent. */
  lemma {:induction false} OwedDebtors(ks: seq<UserId>, vals: map<UserId, Cents>, x: UserId)
    requires Distinct(ks)
    ensures Owed(Debtors(ks, vals), x)
            == if x in ks && BelowTolerance(Lookup(vals, x)) then -Lookup(vals, x) else 0
  {
    if ks != [] {
      assert Distinct(ks[1..]);
      OwedDebtors(ks[1..], vals, x);
      var head := if BelowTolerance(Lookup(vals, ks[0])) then [Party(ks[0], -Lookup(vals, ks[0]))] else [];
      OwedAppend(head, Debtors(ks[1..], vals), x);
      assert x == ks[0] ==> x !in ks[1..];
    }
  }

  lemma {:induction false} OwedAppend(a: seq<Party>, b: seq<Party>, x: UserId)
    ensures Owed(a + b, x) == Owed(a, x) + Owed(b, x)
  {
    if a == [] {
      assert a + b == b;
    } else {
      assert (a + b)[1..] == a[1..] + b;
      OwedAppend(a[1..], b, x);
    }
  }

  lemma {:induction false} SumAppend(a: seq<Party>, b: seq<Party>)
    ensures Sum(a + b) == Sum(a) + Sum(b)
  {
    if a == [] {
      assert a + b == b;
    } else {
      assert (a + b)[1..] == a[1..] + b;
      SumAppend(a[1..], b);
    }
  }

  /** A balance within the band is exactly 0 in cents, so the sum of the balances is
      the total credit less the total debt. */
  lemma {:induction false} SumOverSplit(ks: seq<UserId>, vals: map<UserId, Cents>)
    ensures SumOver(ks, vals) == Sum(Creditors(ks, vals)) - Sum(Debtors(ks, vals))
  {
    if ks != [] {
      SumOverSplit(ks[1..], vals);
      var amt := Lookup(vals, ks[0]);
      SumAppend(if AboveTolerance(amt) then [Party(ks[0], amt)] else [], Creditors(ks[1..], vals));
      SumAppend(if BelowTolerance(amt) then [Party(ks[0], -amt)] else [], Debtors(ks[1..], vals));
    }
  }

  // ---------------------------------------------------------------------------
  // Sorting
  // ---------------------------------------------------------------------------

  lemma {:induction false} InsertPermutes(p: Party, t: seq<Party>)
    ensures multiset(Insert(p, t)) == multiset(t) + multiset{p}
  {
    if !(t == [] || t[0].amount <= p.amount) {
      InsertPermutes(p, t[1..]);
      assert t == [t[0]] + t[1..];
    }
  }

  /** The sort is a permutation of its input. */
  lemma {:induction false} SortPermutes(s: seq<Party>)
    ensures multiset(SortDescending(s)) == multiset(s)
  {
    if s != [] {
      SortPermutes(s[1..]);
      InsertPermutes(s[0], SortDescending(s[1..]));
      assert s == [s[0]] + s[1..];
    }
  }

  lemma {:induction false} InsertSorted(p: Party, t: seq<Party>)
    requires SortedDescending(t)
    ensures SortedDescending(Insert(p, t))
  {
    if !(t == [] || t[0].amount <= p.amount) {
      var rest := Insert(p, t[1..]);
      InsertSorted(p, t[1..]);
      assert rest[0] == p || rest[0] == t[1];
      assert t[0].amount >= rest[0].amount;
      forall i, j | 0 <= i < j < |Insert(p, t)|
        ensures Insert(p, t)[i].amount >= Insert(p, t)[j].amount
      {
        if i == 0 {
          assert Insert(p, t)[j] == rest[j - 1];
        } else {
          assert Insert(p, t)[i] == rest[i - 1] && Insert(p, t)[j] == rest[j - 1];
        }
      }
    }
  }

  /** The sort orders its output by amount, largest first. */
  lemma {:induction false} SortSorted(s: seq<Party>)
    ensures SortedDescending(SortDescending(s))
  {
    if s != [] {
      SortSorted(s[1..]);
      InsertSorted(s[0], SortDescending(s[1..]));
    }
  }

  lemma {:induction false} InsertStable(p: Party, t: seq<Party>, v: Cents)
    ensures WithAmount(Insert(p, t), v) == (if p.amount == v then [p] else []) + WithAmount(t, v)
  {
    if t == [] || t[0].amount <= p.amount {
      assert ([p] + t)[1..] == t;
    } else {
      var u := Insert(p, t[1..]);
      InsertStable(p, t[1..], v);
      assert ([t[0]] + u)[1..] == u;
      var head := if t[0].amount == v then [t[0]] else [];
      assert WithAmount(Insert(p, t), v) == head + WithAmount(u, v);
      assert WithAmount(t, v) == head + WithAmount(t[1..], v);
      if p.amount == v {
        // `t[0]` is larger than `p`, so it is not of amount `v`
        assert head == [];
      } else {
        assert WithAmount(u, v) == WithAmount(t[1..], v);
      }
    }
  }

  /** The sort is stable: the parties of any one amount come out in the order they
      went in. */
  lemma {:induction false} SortStable(s: seq<Party>, v: Cents)
    ensures WithAmount(SortDescending(s), v) == WithAmount(s, v)
  {
    if s != [] {
      SortStable(s[1..], v);
      InsertStable(s[0], SortDescending(s[1..]), v);
    }
  }

  lemma {:induction false} InsertOwed(p: Party, t: seq<Party>, x: UserId)
    ensures Owed(Insert(p, t), x) == (if p.id == x then p.amount else 0) + Owed(t, x)
    ensures Sum(Insert(p, t)) == p.amount + Sum(t)
  {
    if t == [] || t[0].amount <= p.amount {
      assert ([p] + t)[1..] == t;
    } else {
      InsertOwed(p, t[1..], x);
      assert ([t[0]] + Insert(p, t[1..]))[1..] == Insert(p, t[1..]);
    }
  }

  /** Sorting changes neither what anybody is listed for nor the total. */
  lemma {:induction false} SortOwed(s: seq<Party>, x: UserId)
    ensures Owed(SortDescending(s), x) == Owed(s, x)
    ensures Sum(SortDescending(s)) == Sum(s)
  {
    if s != [] {
      SortOwed(s[1..], x);
      InsertOwed(s[0], SortDescending(s[1..]), x);
    }
  }

  /** The sort keeps exactly the same parties. */
  lemma SortMembers(s: seq<Party>)
    ensures forall p :: p in SortDescending(s) <==> p in s
    ensures Ids(SortDescending(s)) == Ids(s)
  {
    SortPermutes(s);
    assert forall p :: p in SortDescending(s) <==> p in multiset(s);
  }

  // ---------------------------------------------------------------------------
  // Netting
  // ---------------------------------------------------------------------------

  /** After the head has given or received `pay` (at most its amount), the list
      accounts for `pay` less at the head's id, totals `pay` less, keeps positive
      amounts positive and names no new ids. */
  lemma AdvanceAccounting(ps: seq<Party>, pay: Cents, x: UserId)
    requires ps != [] && pay <= ps[0].amount
    ensures Owed(Advance(ps, pay), x) + (if ps[0].id == x then pay else 0) == Owed(ps, x)
    ensures Sum(Advance(ps, pay)) + pay == Sum(ps)
    ensures AllPositive(ps) ==> AllPositive(Advance(ps, pay))
    ensures Ids(Advance(ps, pay)) <= Ids(ps)
  {
    var rest := ps[0].amount - pay;
    if AboveTolerance(rest) {
      assert ([Party(ps[0].id, rest)] + ps[1..])[1..] == ps[1..];
      assert ps[0] in ps;
    }
    forall q | q in Advance(ps, pay) ensures q.id in Ids(ps) {
      if q in ps[1..] {
        assert q in ps;
      } else {
        assert ps[0] in ps;
      }
    }
  }

  /** Every transfer is positive and runs from a listed debtor to a listed creditor. */
  lemma {:induction false} NettingEndpoints(d: seq<Party>, c: seq<Party>)
    ensures forall s :: s in Netting(d, c) ==> s.amount > 0 && s.debtor in Ids(d) && s.creditor in Ids(c)
    decreases |d| + |c|
  {
    if d != [] && c != [] {
      var pay := Min(d[0].amount, c[0].amount);
      NettingEndpoints(Advance(d, pay), Advance(c, pay));
      AdvanceAccounting(d, pay, d[0].id);
      AdvanceAccounting(c, pay, c[0].id);
      assert d[0] in d && c[0] in c;
    }
  }

  /** Each step uses up at least one party, so there are fewer transfers than
      parties, and none at all once either list is empty. */
  lemma {:induction false} NettingCount(d: seq<Party>, c: seq<Party>)
    ensures d == [] || c == [] ==> Netting(d, c) == []
    ensures d != [] && c != [] ==> |Netting(d, c)| <= |d| + |c| - 1
    decreases |d| + |c|
  {
    if d != [] && c != [] {
      var pay := Min(d[0].amount, c[0].amount);
      NettingCount(Advance(d, pay), Advance(c, pay));
    }
  }

  /** With positive amounts the first step always transfers something, so there is a
      transfer exactly when both lists are non-empty. */
  lemma NettingNonEmpty(d: seq<Party>, c: seq<Party>)
    requires AllPositive(d) && AllPositive(c)
    ensures Netting(d, c) != [] <==> d != [] && c != []
  {
    if d != [] && c != [] {
      assert d[0] in d && c[0] in c;
    }
  }

  /** With positive amounts nobody pays more than listed as owing or receives more
      than listed as owed; when the two lists total the same, everybody pays and
      receives exactly that. */
  lemma {:induction false} NettingAccounting(d: seq<Party>, c: seq<Party>, x: UserId)
    requires AllPositive(d) && AllPositive(c)
    ensures Paid(Netting(d, c), x) <= Owed(d, x)
    ensures Received(Netting(d, c), x) <= Owed(c, x)
    ensures Sum(d) == Sum(c) ==>
              Paid(Netting(d, c), x) == Owed(d, x) && Received(Netting(d, c), x) == Owed(c, x)
    decreases |d| + |c|
  {
    if d == [] || c == [] {
      OwedNonNegative(d, x);
      OwedNonNegative(c, x);
      SumPositive(d);
      SumPositive(c);
    } else {
      var pay := Min(d[0].amount, c[0].amount);
      assert d[0] in d && c[0] in c;
      AdvanceAccounting(d, pay, x);
      AdvanceAccounting(c, pay, x);
      NettingAccounting(Advance(d, pay), Advance(c, pay), x);
      var s := Settlement(d[0].id, c[0].id, pay);
      var rest := Netting(Advance(d, pay), Advance(c, pay));
      assert Netting(d, c) == [s] + rest;
      assert ([s] + rest)[1..] == rest;
    }
  }

  // ---------------------------------------------------------------------------
  // The suggester on a balance mapping
  // ---------------------------------------------------------------------------

  lemma SortedPartitionPositive(nets: Dict)
    ensures AllPositive(SortDescending(Debtors(nets.keys, nets.vals)))
    ensures AllPositive(SortDescending(Creditors(nets.keys, nets.vals)))
  {
    DebtorsIff(nets.keys, nets.vals);
    CreditorsIff(nets.keys, nets.vals);
    SortMembers(Debtors(nets.keys, nets.vals));
    SortMembers(Creditors(nets.keys, nets.vals));
  }

  /** Every suggested transfer is positive and runs from a key whose balance is below
      minus half a cent to a key whose balance is above half a cent; a balance within
      the band is never part of a transfer. */
  lemma SuggestedEndpoints(nets: Dict)
    ensures forall s :: s in Suggested(nets) ==>
              && s.amount > 0
              && s.debtor in nets.keys && BelowTolerance(Lookup(nets.vals, s.debtor))
              && s.creditor in nets.keys && AboveTolerance(Lookup(nets.vals, s.creditor))
  {
    var ds, cs := Debtors(nets.keys, nets.vals), Creditors(nets.keys, nets.vals);
    NettingEndpoints(SortDescending(ds), SortDescending(cs));
    SortMembers(ds);
    SortMembers(cs);
    DebtorsIff(nets.keys, nets.vals);
    CreditorsIff(nets.keys, nets.vals);
  }

  /** No transfers when there are no balances, no creditors or no debtors; otherwise
      at least one and at most one fewer than the creditors and debtors together. */
  lemma SuggestedCount(nets: Dict)
    ensures nets.keys == [] ==> Suggested(nets) == []
    ensures var ds, cs := Debtors(nets.keys, nets.vals), Creditors(nets.keys, nets.vals);
            && (ds == [] || cs == [] ==> Suggested(nets) == [])
            && (ds != [] && cs != [] ==> 0 < |Suggested(nets)| <= |ds| + |cs| - 1)
  {
    var ds, cs := Debtors(nets.keys, nets.vals), Creditors(nets.keys, nets.vals);
    NettingCount(SortDescending(ds), SortDescending(cs));
    SortedPartitionPositive(nets);
    NettingNonEmpty(SortDescending(ds), SortDescending(cs));
  }

  /** With positive transfers only, nobody pays or receives a negative total. */
  lemma {:induction false} PaidReceivedNonNegative(ss: seq<Settlement>, x: UserId)
    requires forall s :: s in ss ==> s.amount > 0
    ensures Paid(ss, x) >= 0 && Received(ss, x) >= 0
  {
    if ss != [] {
      assert ss[0] in ss;
      PaidReceivedNonNegative(ss[1..], x);
    }
  }

  /** A debtor pays at most what it owes and a creditor receives at most what it is
      owed; anybody else neither pays nor receives. */
  lemma SuggestedNeverOverpays(nets: Dict, x: UserId)
    requires nets.Valid()
    ensures var v := Lookup(nets.vals, x);
            && 0 <= Paid(Suggested(nets), x) <= (if BelowTolerance(v) then -v else 0)
            && 0 <= Received(Suggested(nets), x) <= (if AboveTolerance(v) then v else 0)
  {
    SuggestedEndpoints(nets);
    PaidReceivedNonNegative(Suggested(nets), x);
    var ds, cs := Debtors(nets.keys, nets.vals), Creditors(nets.keys, nets.vals);
    SortedPartitionPositive(nets);
    NettingAccounting(SortDescending(ds), SortDescending(cs), x);
    SortOwed(ds, x);
    SortOwed(cs, x);
    OwedDebtors(nets.keys, nets.vals, x);
    OwedCreditors(nets.keys, nets.vals, x);
  }

  /** Full settlement: when the balances sum to zero, applying the suggested transfers
      (the debtor pays, the creditor receives) brings every balance to exactly 0. */
  lemma SuggestedSettles(nets: Dict, x: UserId)
    requires nets.Valid() && nets.Total() == 0
    ensures Lookup(nets.vals, x) + Paid(Suggested(nets), x) - Received(Suggested(nets), x) == 0
  {
    var ds, cs := Debtors(nets.keys, nets.vals), Creditors(nets.keys, nets.vals);
    SortedPartitionPositive(nets);
    SumOverSplit(nets.keys, nets.vals);
    SortOwed(ds, x);
    SortOwed(cs, x);
    NettingAccounting(SortDescending(ds), SortDescending(cs), x);
    OwedDebtors(nets.keys, nets.vals, x);
    OwedCreditors(nets.keys, nets.vals, x);
  }

  /** A concrete case: one creditor owed 20.00 and two debtors owing 10.00 each
      settle with two transfers of 10.00, the debtors taken in key order. */
  lemma SuggestedExample()
    ensures Suggested(Dict([1, 2, 3], map[1 := 2000, 2 := -1000, 3 := -1000]))
            == [Settlement(2, 1, 1000), Settlement(3, 1, 1000)]
  {
    var nets := Dict([1, 2, 3], map[1 := 2000, 2 := -1000, 3 := -1000]);
    assert Creditors(nets.keys, nets.vals) == [Party(1, 2000)];
    assert Debtors([3], nets.vals) == [Party(3, 1000)];
    assert Debtors(nets.keys, nets.vals) == [Party(2, 1000), Party(3, 1000)];
    assert SortDescending([Party(3, 1000)]) == [Party(3, 1000)];
    assert SortDescending([Party(2, 1000), Party(3, 1000)]) == [Party(2, 1000), Party(3, 1000)];
    assert Netting([Party(3, 1000)], [Party(1, 1000)]) == [Settlement(3, 1, 1000)];
  }
}
