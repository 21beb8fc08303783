/** Python's `dict` from user id to an amount, as the engine uses it: insertion-ordered,
    assignment to an existing key keeps its position, assignment to a new key appends it,
    and `get` supplies a default for a missing key. */
module OrderedDict {
  import opened Money
  import opened Models

  predicate Distinct(ks: seq<UserId>) {
    forall i, j :: 0 <= i < j < |ks| ==> ks[i] != ks[j]
  }

  /** The value at `k`, or 0 when `k` is absent. */
  function Lookup(m: map<UserId, Cents>, k: UserId): Cents {
    if k in m then m[k] else 0
  }

  /** The sum of the values at the keys `ks`, in order. */
  function SumOver(ks: seq<UserId>, m: map<UserId, Cents>): Cents {
    if ks == [] then 0 else Lookup(m, ks[0]) + SumOver(ks[1..], m)
  }

  /** `keys` is the iteration order of the dict and `vals` its contents. */
  datatype Dict = Dict(keys: seq<UserId>, vals: map<UserId, Cents>) {

    /** Keys occur once each, and exactly the stored keys are listed. */
    ghost predicate Valid() {
      && Distinct(keys)
      && forall k :: k in vals <==> k in keys
    }

    /** The value at `k`, or `default` when `k` is absent. */
    function Get(k: UserId, default: Cents): Cents {
      if k in vals then vals[k] else default
    }

    /** Assignment at `k`: the value is replaced, a new key goes to the end of the order. */
    function Put(k: UserId, v: Cents): (r: Dict)
      ensures Valid() ==> r.Valid()
      ensures r.vals == vals[k := v]
      ensures k in vals ==> r.keys == keys
      ensures k !in vals ==> r.keys == keys + [k]
    {
      if k in vals then Dict(keys, vals[k := v]) else Dict(keys + [k], vals[k := v])
    }

    /** The sum of the stored values. */
    function Total(): Cents {
      SumOver(keys, vals)
    }
  }

  function Empty(): (r: Dict)
    ensures r.Valid() && r.vals == map[] && r.Total() == 0
  {
    Dict([], map[])
  }

  /** The dict comprehension mapping every key of `ks` to `v`: each key once, in
      first-occurrence order. */
  function FromKeys(ks: seq<UserId>, v: Cents): (r: Dict)
    ensures r.Valid()
    decreases |ks|
  {
    if ks == [] then Empty() else FromKeys(ks[..|ks| - 1], v).Put(ks[|ks| - 1], v)
  }

  /** The comprehension's keys are exactly the listed keys, each mapped to `v`. */
  lemma {:induction false} FromKeysContents(ks: seq<UserId>, v: Cents)
    ensures forall k :: k in FromKeys(ks, v).vals <==> k in ks
    ensures forall k :: k in FromKeys(ks, v).vals ==> FromKeys(ks, v).vals[k] == v
    decreases |ks|
  {
    if ks != [] {
      var init := ks[..|ks| - 1];
      FromKeysContents(init, v);
      assert ks == init + [ks[|ks| - 1]];
    }
  }

  lemma {:induction false} SumOverAppend(ks: seq<UserId>, k: UserId, m: map<UserId, Cents>)
    ensures SumOver(ks + [k], m) == SumOver(ks, m) + Lookup(m, k)
  {
    if ks != [] {
      assert (ks + [k])[1..] == ks[1..] + [k];
      SumOverAppend(ks[1..], k, m);
    }
  }

  /** Distinct keys stay distinct without the last one, which is not among the rest. */
  lemma DistinctLast(ks: seq<UserId>)
    requires ks != [] && Distinct(ks)
    ensures Distinct(ks[..|ks| - 1]) && ks[|ks| - 1] !in ks[..|ks| - 1]
  {
  }

  /** A sum split off at its last key. */
  lemma SumOverLast(ks: seq<UserId>, m: map<UserId, Cents>)
    requires ks != []
    ensures SumOver(ks, m) == SumOver(ks[..|ks| - 1], m) + Lookup(m, ks[|ks| - 1])
  {
    assert ks == ks[..|ks| - 1] + [ks[|ks| - 1]];
    SumOverAppend(ks[..|ks| - 1], ks[|ks| - 1], m);
  }

  /** Replacing the value at one key changes a sum over distinct keys by the
      difference at that key, and not at all when the key is not summed. */
  lemma {:induction false} SumOverUpdate(ks: seq<UserId>, m: map<UserId, Cents>, k: UserId, v: Cents)
    requires Distinct(ks)
    ensures SumOver(ks, m[k := v]) == SumOver(ks, m) + (if k in ks then v - Lookup(m, k) else 0)
  {
    if ks != [] {
      assert Distinct(ks[1..]);
      assert ks[0] == k ==> k !in ks[1..];
      SumOverUpdate(ks[1..], m, k, v);
    }
  }

  /** Assigning `v` at `k` changes the dict's total by `v` minus what `k` held. */
  lemma TotalPut(d: Dict, k: UserId, v: Cents)
    requires d.Valid()
    ensures d.Put(k, v).Total() == d.Total() - d.Get(k, 0) + v
  {
    SumOverUpdate(d.keys, d.vals, k, v);
    if k !in d.vals {
      SumOverAppend(d.keys, k, d.vals[k := v]);
    }
  }

  /** Summing the same value over a set of distinct keys. */
  lemma {:induction false} SumOverConstant(ks: seq<UserId>, m: map<UserId, Cents>, v: Cents)
    requires forall k :: k in ks ==> k in m && m[k] == v
    ensures SumOver(ks, m) == |ks| * v
  {
    if ks != [] {
      SumOverConstant(ks[1..], m, v);
    }
  }

  /** A dict comprehension over distinct keys keeps their order, so its total is
      the number of keys times the value. */
  lemma {:induction false} FromKeysDistinct(ks: seq<UserId>, v: Cents)
    requires Distinct(ks)
    ensures FromKeys(ks, v).keys == ks
    ensures FromKeys(ks, v).Total() == |ks| * v
    decreases |ks|
  {
    if ks != [] {
      var init := ks[..|ks| - 1];
      assert Distinct(init);
      FromKeysDistinct(init, v);
      assert ks[|ks| - 1] !in init;
      assert init + [ks[|ks| - 1]] == ks;
    }
    var r := FromKeys(ks, v);
    FromKeysContents(ks, v);
    SumOverConstant(r.keys, r.vals, v);
  }

  /** In general a dict comprehension's total is its number of distinct keys times
      the value. */
  lemma FromKeysTotal(ks: seq<UserId>, v: Cents)
    ensures FromKeys(ks, v).Total() == |FromKeys(ks, v).keys| * v
  {
    var r := FromKeys(ks, v);
    FromKeysContents(ks, v);
    SumOverConstant(r.keys, r.vals, v);
  }
}
