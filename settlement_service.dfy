/** The settlement suggester: splits the net balances into creditors (owed more than
    half a cent) and debtors (owing more than half a cent, kept as positive amounts),
    sorts each list by amount, largest first, and walks both with two cursors, each
    step transferring the smaller of the two remaining amounts from the current debtor
    to the current creditor. */
module SettlementService {
  import opened Money
  import opened Models
  import opened OrderedDict

  /** A creditor or a debtor with the amount still to be received or paid. */
  datatype Party = Party(id: UserId, amount: Cents)

  /** A suggested transfer of `amount` from `debtor` to `creditor`. */
  datatype Settlement = Settlement(debtor: UserId, creditor: UserId, amount: Cents)

  // ---------------------------------------------------------------------------
  // Partition
  // ---------------------------------------------------------------------------

  /** The creditors: in key order, every key whose balance exceeds half a cent, with
      that balance. */
  function Creditors(ks: seq<UserId>, vals: map<UserId, Cents>): seq<Party> {
    if ks == [] then []
    else
      var amt := Lookup(vals, ks[0]);
      (if AboveTolerance(amt) then [Party(ks[0], amt)] else []) + Creditors(ks[1..], vals)
  }

  /** The debtors: in key order, every key whose balance is below minus half a cent,
      with the balance negated so that it is the positive amount owed. */
  function Debtors(ks: seq<UserId>, vals: map<UserId, Cents>): seq<Party> {
    if ks == [] then []
    else
      var amt := Lookup(vals, ks[0]);
      (if BelowTolerance(amt) then [Party(ks[0], -amt)] else []) + Debtors(ks[1..], vals)
  }

  // ---------------------------------------------------------------------------
  // Sorting by amount, largest first
  // ---------------------------------------------------------------------------

  /** Places `p` before the first party of `t` whose amount is not larger, so that
      parties of equal amount keep their relative order. */
  function Insert(p: Party, t: seq<Party>): (r: seq<Party>)
    ensures |r| == |t| + 1
  {
    if t == [] || t[0].amount <= p.amount then [p] + t
    else [t[0]] + Insert(p, t[1..])
  }

  /** Python's list sort by amount in reverse: an insertion sort, largest amount
      first, that keeps parties of equal amount in their original order. */
  function SortDescending(s: seq<Party>): (r: seq<Party>)
    ensures |r| == |s|
  {
    if s == [] then [] else Insert(s[0], SortDescending(s[1..]))
  }

  // ---------------------------------------------------------------------------
  // Greedy two-cursor netting
  // ---------------------------------------------------------------------------

  /** The list after its head party has given or received `pay`: the head is dropped
      when what remains is no more than half a cent, and otherwise keeps the rest. */
  function Advance(ps: seq<Party>, pay: Cents): (r: seq<Party>)
    requires ps != []
    ensures |r| == if AboveTolerance(ps[0].amount - pay) then |ps| else |ps| - 1
  {
    var rest := ps[0].amount - pay;
    if !AboveTolerance(rest) then ps[1..] else [Party(ps[0].id, rest)] + ps[1..]
  }

  /** The settlements the loop emits from the remaining debtors `d` and creditors `c`:
      the heads exchange the smaller of their amounts, recorded when positive, and at
      least one of them is used up, so the walk ends once a list runs out. */
  function Netting(d: seq<Party>, c: seq<Party>): seq<Settlement>
    decreases |d| + |c|
  {
    if d == [] || c == [] then []
    else
      var pay := Min(d[0].amount, c[0].amount);
      (if pay > 0 then [Settlement(d[0].id, c[0].id, pay)] else [])
        + Netting(Advance(d, pay), Advance(c, pay))
  }

  /** The suggested settlements for a balance mapping, without the display names. */
  function Suggested(nets: Dict): seq<Settlement> {
    Netting(SortDescending(Debtors(nets.keys, nets.vals)),
            SortDescending(Creditors(nets.keys, nets.vals)))
  }

  /** Moving a cursor past a used-up head: the list from cursor `i` on, after its
      head has given or received `pay`, is the list past `i`. */
  lemma AdvanceDrop(ps: seq<Party>, i: nat, pay: Cents)
    requires i < |ps| && !AboveTolerance(ps[i].amount - pay)
    ensures Advance(ps[i..], pay) == ps[i + 1..]
  {
    assert ps[i..][1..] == ps[i + 1..];
  }

  /** Keeping the cursor on a head with more than half a cent left: the list from
      cursor `i` on is the list with entry `i` overwritten by what is left. */
  lemma AdvanceKeep(ps: seq<Party>, i: nat, pay: Cents)
    requires i < |ps| && AboveTolerance(ps[i].amount - pay)
    ensures Advance(ps[i..], pay) == ps[i := Party(ps[i].id, ps[i].amount - pay)][i..]
  {
    assert ps[i := Party(ps[i].id, ps[i].amount - pay)][i..]
        == [Party(ps[i].id, ps[i].amount - pay)] + ps[i + 1..];
  }

  /** One step of the walk: the transfer between the heads, if positive, comes first,
      followed by the walk over the advanced lists. */
  lemma NettingHead(d: seq<Party>, c: seq<Party>, pay: Cents, emitted: seq<Settlement>)
    requires d != [] && c != [] && pay == Min(d[0].amount, c[0].amount)
    requires emitted == if pay > 0 then [Settlement(d[0].id, c[0].id, pay)] else []
    ensures Netting(d, c) == emitted + Netting(Advance(d, pay), Advance(c, pay))
  {
  }

  lemma AppendAssoc(a: seq<Settlement>, b: seq<Settlement>, c: seq<Settlement>)
    ensures a + (b + c) == (a + b) + c
  {
  }

  /** One cursor's move after its party has given or received `pay`: past the party
      when no more than half a cent is left, otherwise onto the same entry,
      overwritten with what is left. */
  method MoveCursor(ps: seq<Party>, i: nat, pay: Cents) returns (ps': seq<Party>, i': nat)
    requires i < |ps|
    ensures |ps'| == |ps| && i' <= |ps'|
    ensures i' == if AboveTolerance(ps[i].amount - pay) then i else i + 1
    ensures ps' == if AboveTolerance(ps[i].amount - pay)
                   then ps[i := Party(ps[i].id, ps[i].amount - pay)] else ps
    ensures ps'[i'..] == Advance(ps[i..], pay)
  {
    var left := ps[i].amount - pay;
    if !AboveTolerance(left) {
      AdvanceDrop(ps, i, pay);
      ps', i' := ps, i + 1;
    } else {
      AdvanceKeep(ps, i, pay);
      ps', i' := ps[i := Party(ps[i].id, left)], i;
    }
  }

  /** The `while` loop of the suggester over the sorted `debtors` and `creditors`:
      cursors `i` and `j` advance past used-up parties, and a party with more than
      half a cent left is overwritten in place with what it has left. */
  method SettleSorted(debtors: seq<Party>, creditors: seq<Party>) returns (settlements: seq<Settlement>)
    ensures settlements == Netting(debtors, creditors)
  {
    var debtors, creditors := debtors, creditors;
    // the lists from the cursors on, still to be walked
    ghost var restD, restC := debtors, creditors;
    ghost var total := Netting(debtors, creditors);
    var i, j := 0, 0;
    settlements := [];
    while i < |debtors| && j < |creditors|
      invariant 0 <= i <= |debtors| && 0 <= j <= |creditors|
      invariant restD == debtors[i..] && restC == creditors[j..]
      invariant settlements + Netting(restD, restC) == total
      decreases |debtors| - i + |creditors| - j
    {
      var debtor, creditor := debtors[i], creditors[j];
      var pay := Min(debtor.amount, creditor.amount);
      ghost var emitted := if pay > 0 then [Settlement(debtor.id, creditor.id, pay)] else [];
      NettingHead(restD, restC, pay, emitted);
      AppendAssoc(settlements, emitted, Netting(Advance(restD, pay), Advance(restC, pay)));
      if pay > 0 {
        settlements := settlements + [Settlement(debtor.id, creditor.id, pay)];
      } else {
        assert settlements + emitted == settlements;
      }
      debtors, i := MoveCursor(debtors, i, pay);
      creditors, j := MoveCursor(creditors, j, pay);
      restD, restC := Advance(restD, pay), Advance(restC, pay);
    }
    assert Netting(restD, restC) == [];
  }

  /** `suggest_settlements` without the display names: partition, sort, then the
      netting loop. `nets` is a value, so it is never changed. */
  method SuggestSettlements(nets: Dict) returns (settlements: seq<Settlement>)
    ensures settlements == Suggested(nets)
  {
    var creditors := Creditors(nets.keys, nets.vals);
    var debtors := Debtors(nets.keys, nets.vals);
    creditors := SortDescending(creditors);
    debtors := SortDescending(debtors);
    settlements := SettleSorted(debtors, creditors);
  }
}
