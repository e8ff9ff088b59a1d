/** Insertion-ordered dictionaries with string keys, as Python's `dict`
    behaves: assigning to a present key keeps its position and replaces its
    value; assigning to an absent key appends it. */
module Tables {
  import opened Base

  type Table<V> = seq<(string, V)>

  function Keys<V>(t: Table<V>): (ks: seq<string>)
    ensures |ks| == |t|
    ensures forall i :: 0 <= i < |t| ==> ks[i] == t[i].0
  {
    if |t| == 0 then [] else [t[0].0] + Keys(t[1..])
  }

  predicate HasKey<V>(t: Table<V>, k: string)
  {
    k in Keys(t)
  }

  /** A key no entry carries is absent. */
  lemma NoKey<V>(t: Table<V>, k: string)
    requires forall i :: 0 <= i < |t| ==> t[i].0 != k
    ensures !HasKey(t, k)
  {
  }

  /** Python dicts never hold a key twice. */
  predicate UniqueKeys<V>(t: Table<V>)
  {
    forall i, j :: 0 <= i < j < |t| ==> t[i].0 != t[j].0
  }

  /** `t.get(k)`: the value stored under `k`, if any. */
  function Get<V>(t: Table<V>, k: string): (r: Option<V>)
    ensures r.None? <==> !HasKey(t, k)
    ensures r.Some? ==> (k, r.value) in t
  {
    if |t| == 0 then None
    else if t[0].0 == k then Some(t[0].1)
    else
      assert Keys(t) == [t[0].0] + Keys(t[1..]);
      Get(t[1..], k)
  }

  /** `t.get(k, default)`. */
  function GetOr<V>(t: Table<V>, k: string, default: V): (r: V)
    ensures HasKey(t, k) ==> Get(t, k) == Some(r)
    ensures !HasKey(t, k) ==> r == default
  {
    match Get(t, k)
    case Some(v) => v
    case None => default
  }

  /** `t[k] = v`. */
  function Set<V>(t: Table<V>, k: string, v: V): (r: Table<V>)
    ensures Keys(r) == if HasKey(t, k) then Keys(t) else Keys(t) + [k]
    ensures Get(r, k) == Some(v)
  {
    if |t| == 0 then [(k, v)]
    else if t[0].0 == k then
      assert Keys(t) == [k] + Keys(t[1..]);
      assert ([(k, v)] + t[1..])[1..] == t[1..];
      [(k, v)] + t[1..]
    else
      var rest := Set(t[1..], k, v);
      var r := [t[0]] + rest;
      assert r[1..] == rest;
      assert Keys(t) == [t[0].0] + Keys(t[1..]);
      assert Keys(r) == [t[0].0] + Keys(rest);
      assert HasKey(t, k) == HasKey(t[1..], k);
      AppendAssoc([t[0].0], Keys(t[1..]), [k]);
      r
  }

  /** Setting one key leaves every other key's lookup alone. */
  lemma {:induction false} SetOther<V>(t: Table<V>, k: string, v: V, other: string)
    requires other != k
    ensures Get(Set(t, k, v), other) == Get(t, other)
  {
    if |t| > 0 && t[0].0 != k {
      SetOther(t[1..], k, v, other);
    }
  }

  /** Setting a key keeps the keys unique. */
  lemma SetUnique<V>(t: Table<V>, k: string, v: V)
    requires UniqueKeys(t)
    ensures UniqueKeys(Set(t, k, v))
  {
    var r := Set(t, k, v);
    forall i, j | 0 <= i < j < |r|
      ensures r[i].0 != r[j].0
    {
      assert r[i].0 == Keys(r)[i] && r[j].0 == Keys(r)[j];
      if j < |t| {
        assert Keys(r)[i] == Keys(t)[i] == t[i].0 && Keys(r)[j] == Keys(t)[j] == t[j].0;
      } else {
        assert Keys(r)[j] == k && Keys(r)[i] == Keys(t)[i];
      }
    }
  }

  /** `del t[k]`: the entry under `k` goes, the others keep their order. */
  function Delete<V>(t: Table<V>, k: string): (r: Table<V>)
    ensures !HasKey(r, k)
    ensures forall e :: e in r ==> e in t
  {
    if |t| == 0 then []
    else
      var rest := Delete(t[1..], k);
      if t[0].0 == k then rest
      else
        assert Keys([t[0]] + rest) == [t[0].0] + Keys(rest);
        [t[0]] + rest
  }

  /** Deleting one key leaves every other key's lookup alone. */
  lemma {:induction false} DeleteOther<V>(t: Table<V>, k: string, other: string)
    requires other != k
    ensures Get(Delete(t, k), other) == Get(t, other)
  {
    if |t| > 0 {
      DeleteOther(t[1..], k, other);
    }
  }

  /** `dict(pairs)`: each key keeps the position of its first occurrence and
      the value of its last. */
  function FromPairs<V>(pairs: seq<(string, V)>): (r: Table<V>)
    ensures |r| <= |pairs|
  {
    if |pairs| == 0 then []
    else
      var init := FromPairs(pairs[..|pairs| - 1]);
      Set(init, pairs[|pairs| - 1].0, pairs[|pairs| - 1].1)
  }

  /** The value the last pair with key `k` carries. */
  function LastValue<V>(pairs: seq<(string, V)>, k: string): Option<V>
  {
    if |pairs| == 0 then None
    else if pairs[|pairs| - 1].0 == k then Some(pairs[|pairs| - 1].1)
    else LastValue(pairs[..|pairs| - 1], k)
  }

  /** Looking a key up in `dict(pairs)` finds the value of its last pair. */
  lemma {:induction false} FromPairsGet<V>(pairs: seq<(string, V)>, k: string)
    ensures Get(FromPairs(pairs), k) == LastValue(pairs, k)
  {
    if |pairs| > 0 {
      var init := pairs[..|pairs| - 1];
      FromPairsGet(init, k);
      if pairs[|pairs| - 1].0 != k {
        SetOther(FromPairs(init), pairs[|pairs| - 1].0, pairs[|pairs| - 1].1, k);
      }
    }
  }

  /** `dict(pairs)` never holds a key twice. */
  lemma {:induction false} FromPairsUnique<V>(pairs: seq<(string, V)>)
    ensures UniqueKeys(FromPairs(pairs))
  {
    if |pairs| > 0 {
      FromPairsUnique(pairs[..|pairs| - 1]);
      SetUnique(FromPairs(pairs[..|pairs| - 1]), pairs[|pairs| - 1].0, pairs[|pairs| - 1].1);
    }
  }

  /** `dict(pairs)` holds exactly the keys that occur in `pairs`. */
  lemma {:induction false} FromPairsKeys<V>(pairs: seq<(string, V)>)
    ensures forall k :: HasKey(FromPairs(pairs), k) <==> k in Keys(pairs)
  {
    if |pairs| > 0 {
      var init := pairs[..|pairs| - 1];
      FromPairsKeys(init);
      assert Keys(pairs) == Keys(init) + [pairs[|pairs| - 1].0];
    }
  }

  /** Assigning an absent key appends it. */
  lemma {:induction false} SetAbsent<V>(t: Table<V>, k: string, v: V)
    requires !HasKey(t, k)
    ensures Set(t, k, v) == t + [(k, v)]
  {
    if |t| > 0 {
      assert Keys(t) == [t[0].0] + Keys(t[1..]);
      SetAbsent(t[1..], k, v);
      ConsSnoc(t, (k, v));
    }
  }

  /** Appending an entry for one key leaves another key absent. */
  lemma AppendAbsent<V>(t: Table<V>, k: string, v: V, other: string)
    requires !HasKey(t, other) && other != k
    ensures !HasKey(t + [(k, v)], other)
  {
    var u := t + [(k, v)];
    forall i | 0 <= i < |u| ensures u[i].0 != other {
      if i < |t| {
        assert u[i] == t[i] && Keys(t)[i] == t[i].0;
      }
    }
    NoKey(u, other);
  }

  /** After an assignment every entry is an old one or the new pair. */
  lemma {:induction false} SetEntries<V>(t: Table<V>, k: string, v: V)
    ensures forall e :: e in Set(t, k, v) ==> e in t || e == (k, v)
  {
    if |t| > 0 && t[0].0 != k {
      SetEntries(t[1..], k, v);
      assert Set(t, k, v) == [t[0]] + Set(t[1..], k, v);
      forall e | e in t[1..] ensures e in t {
      }
    } else if |t| > 0 {
      forall e | e in t[1..] ensures e in t {
      }
    }
  }

  /** Every entry of `dict(pairs)` is one of the pairs. */
  lemma {:induction false} FromPairsEntries<V>(pairs: seq<(string, V)>)
    ensures forall e :: e in FromPairs(pairs) ==> e in pairs
  {
    if |pairs| > 0 {
      var init := pairs[..|pairs| - 1];
      FromPairsEntries(init);
      SetEntries(FromPairs(init), pairs[|pairs| - 1].0, pairs[|pairs| - 1].1);
      forall e | e in init ensures e in pairs {
      }
    }
  }

  /** Looking up in a dict extended by one entry at the end. */
  lemma {:induction false} GetAppend<V>(t: Table<V>, k: string, v: V, key: string)
    ensures Get(t + [(k, v)], key) ==
      if HasKey(t, key) then Get(t, key) else if key == k then Some(v) else None
  {
    if |t| > 0 {
      assert (t + [(k, v)])[1..] == t[1..] + [(k, v)];
      assert Keys(t) == [t[0].0] + Keys(t[1..]);
      GetAppend(t[1..], k, v, key);
    } else {
      assert [(k, v)][1..] == [];
    }
  }

  /** Looking up in a dict by way of its front and its last entry. */
  lemma GetInitLast<V>(t: Table<V>, key: string)
    requires |t| > 0
    ensures Get(t, key) ==
      if HasKey(t[..|t| - 1], key) then Get(t[..|t| - 1], key)
      else if key == t[|t| - 1].0 then Some(t[|t| - 1].1) else None
  {
    InitLast(t);
    GetAppend(t[..|t| - 1], t[|t| - 1].0, t[|t| - 1].1, key);
  }

  /** Dropping the last entry of a dict leaves a dict without its key. */
  lemma UniqueInit<V>(t: Table<V>)
    requires |t| > 0 && UniqueKeys(t)
    ensures UniqueKeys(t[..|t| - 1]) && !HasKey(t[..|t| - 1], t[|t| - 1].0)
  {
    var init := t[..|t| - 1];
    forall i, j | 0 <= i < j < |init| ensures init[i].0 != init[j].0 {
      assert init[i] == t[i] && init[j] == t[j];
    }
    forall i | 0 <= i < |init| ensures Keys(init)[i] != t[|t| - 1].0 {
      assert init[i] == t[i];
    }
  }

  /** `dict(d.items())` is `d` again. */
  lemma {:induction false} FromPairsOfUnique<V>(t: Table<V>)
    requires UniqueKeys(t)
    ensures FromPairs(t) == t
  {
    if |t| > 0 {
      var init, last := t[..|t| - 1], t[|t| - 1];
      assert FromPairs(t) == Set(FromPairs(init), last.0, last.1);
      UniqueInit(t);
      FromPairsOfUnique(init);
      SetAbsent(init, last.0, last.1);
      InitLast(t);
    }
  }

  /** Looking up in a table with a known first entry. */
  lemma GetCons<V>(k0: string, v0: V, t: Table<V>, k: string)
    ensures Get([(k0, v0)] + t, k) == if k0 == k then Some(v0) else Get(t, k)
  {
    assert ([(k0, v0)] + t)[1..] == t;
  }


  /** A one-entry display is its own dict, and its key finds its entry. */
  lemma SingleTable<V>(k0: string, v0: V)
    ensures FromPairs([(k0, v0)]) == [(k0, v0)]
    ensures Keys([(k0, v0)]) == [k0]
    ensures Get([(k0, v0)], k0) == Some(v0)
  {
    var t := [(k0, v0)];
    assert UniqueKeys(t);
    FromPairsOfUnique(t);
    GetAt(t, 0);
  }

  /** A two-entry display with distinct keys is its own dict, and each key
      finds its entry. */
  lemma PairTable<V>(k0: string, v0: V, k1: string, v1: V)
    requires k0 != k1
    ensures FromPairs([(k0, v0), (k1, v1)]) == [(k0, v0), (k1, v1)]
    ensures Keys([(k0, v0), (k1, v1)]) == [k0, k1]
    ensures Get([(k0, v0), (k1, v1)], k0) == Some(v0) && Get([(k0, v0), (k1, v1)], k1) == Some(v1)
  {
    var t := [(k0, v0), (k1, v1)];
    assert UniqueKeys(t);
    FromPairsOfUnique(t);
    GetAt(t, 0);
    GetAt(t, 1);
  }

  /** A three-entry display with distinct keys is its own dict, and each
      key finds its entry. */
  lemma TripleTable<V>(k0: string, v0: V, k1: string, v1: V, k2: string, v2: V)
    requires k0 != k1 && k0 != k2 && k1 != k2
    ensures FromPairs([(k0, v0), (k1, v1), (k2, v2)]) == [(k0, v0), (k1, v1), (k2, v2)]
    ensures Keys([(k0, v0), (k1, v1), (k2, v2)]) == [k0, k1, k2]
    ensures Get([(k0, v0), (k1, v1), (k2, v2)], k0) == Some(v0)
    ensures Get([(k0, v0), (k1, v1), (k2, v2)], k1) == Some(v1)
    ensures Get([(k0, v0), (k1, v1), (k2, v2)], k2) == Some(v2)
  {
    var t := [(k0, v0), (k1, v1), (k2, v2)];
    assert UniqueKeys(t);
    FromPairsOfUnique(t);
    GetAt(t, 0);
    GetAt(t, 1);
    GetAt(t, 2);
  }

  /** A four-entry display with distinct keys: each key finds its entry
      and no other key is present. */
  lemma QuadGet<V>(k0: string, v0: V, k1: string, v1: V, k2: string, v2: V, k3: string, v3: V, k: string)
    requires k1 != k2 && k1 != k3 && k2 != k3
    ensures Get([(k0, v0)] + [(k1, v1), (k2, v2), (k3, v3)], k) ==
              if k == k0 then Some(v0) else if k == k1 then Some(v1)
              else if k == k2 then Some(v2) else if k == k3 then Some(v3) else None
  {
    var rest := [(k1, v1), (k2, v2), (k3, v3)];
    GetCons(k0, v0, rest, k);
    TripleTable(k1, v1, k2, v2, k3, v3);
    if k != k1 && k != k2 && k != k3 {
      NotInTriple(k1, v1, k2, v2, k3, v3, k);
    }
  }

  /** A key other than the three of a display is not in it. */
  lemma NotInTriple<V>(k0: string, v0: V, k1: string, v1: V, k2: string, v2: V, k: string)
    requires k != k0 && k != k1 && k != k2
    ensures !HasKey([(k0, v0), (k1, v1), (k2, v2)], k)
  {
    assert Keys([(k0, v0), (k1, v1), (k2, v2)]) == [k0, k1, k2];
  }

  /** A key other than the two of a display is not in it. */
  lemma NotInPair<V>(k0: string, v0: V, k1: string, v1: V, k: string)
    requires k != k0 && k != k1
    ensures !HasKey([(k0, v0), (k1, v1)], k)
  {
    assert Keys([(k0, v0), (k1, v1)]) == [k0, k1];
  }

  /** With unique keys, the entry at position `i` is what its key finds. */
  lemma GetAt<V>(t: Table<V>, i: nat)
    requires i < |t| && UniqueKeys(t)
    ensures Get(t, t[i].0) == Some(t[i].1) && GetOr(t, t[i].0, t[i].1) == t[i].1
  {
    assert Keys(t)[i] == t[i].0;
    var v := Get(t, t[i].0).value;
    var j :| 0 <= j < |t| && t[j] == (t[i].0, v);
  }

  /** Applying `f` to every value keeps the keys in place. */
  function MapValues<V, W>(t: Table<V>, f: V -> W): (r: Table<W>)
    ensures |r| == |t|
    ensures forall i :: 0 <= i < |t| ==> r[i] == (t[i].0, f(t[i].1))
  {
    if |t| == 0 then [] else [(t[0].0, f(t[0].1))] + MapValues(t[1..], f)
  }
}
