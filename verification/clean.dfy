/** The data store's recursive removal of empty values before a reference
    is written: falsy values go, at the top level and inside nested dicts
    and lists. */
module Clean {
  import opened Base
  import opened Tables
  import opened Json

  /** `_inner_clean`: dicts keep their truthy entries and lists their
      truthy elements, each cleaned in turn; anything else is returned as
      it is. */
  function InnerClean(v: Value): (r: Value)
    ensures !v.Dict? && !v.List? ==> r == v
    ensures v.Dict? ==> r.Dict? && |r.entries| <= |v.entries|
    ensures v.List? ==> r.List? && |r.items| == CountTruthy(v.items)
    decreases v, 1
  {
    match v
    case Dict(entries) => Dict(CleanEntries(entries))
    case List(items) => List(CleanItems(items))
    case _ => v
  }

  /** The number of truthy elements. */
  function CountTruthy(items: seq<Value>): nat
  {
    if |items| == 0 then 0 else (if Truthy(items[0]) then 1 else 0) + CountTruthy(items[1..])
  }

  function CleanItems(items: seq<Value>): (r: seq<Value>)
    ensures |r| == CountTruthy(items)
    decreases items, 0
  {
    if |items| == 0 then []
    else if Truthy(items[0]) then [InnerClean(items[0])] + CleanItems(items[1..])
    else CleanItems(items[1..])
  }

  function CleanEntries(entries: Table<Value>): (r: Table<Value>)
    ensures |r| <= |entries|
    ensures forall k :: HasKey(r, k) ==> HasKey(entries, k)
    decreases entries, 0
  {
    if |entries| == 0 then []
    else
      assert entries[0] in entries && entries[0].1 < entries[0];
      var rest := CleanEntries(entries[1..]);
      assert Keys(entries) == [entries[0].0] + Keys(entries[1..]);
      if Truthy(entries[0].1) then
        var r := [(entries[0].0, InnerClean(entries[0].1))] + rest;
        assert Keys(r) == [entries[0].0] + Keys(rest);
        assert forall k :: HasKey(r, k) ==> k == entries[0].0 || HasKey(rest, k);
        r
      else rest
  }

  /** `clean(reference)`: None stays None; a dict is cleaned by the same
      rule as a nested one. */
  function Clean(reference: Option<Table<Value>>): (r: Option<Table<Value>>)
    ensures reference.None? <==> r.None?
    ensures r.Some? ==> forall k :: HasKey(r.value, k) ==> HasKey(reference.value, k)
  {
    match reference
    case None => None
    case Some(t) => Some(CleanEntries(t))
  }

  lemma UniqueTail<V>(t: Table<V>)
    requires |t| > 0 && UniqueKeys(t)
    ensures UniqueKeys(t[1..]) && !HasKey(t[1..], t[0].0)
  {
    forall i, j | 0 <= i < j < |t[1..]| ensures t[1..][i].0 != t[1..][j].0 {
      assert t[1..][i] == t[i + 1] && t[1..][j] == t[j + 1];
    }
    forall i | 0 <= i < |t[1..]| ensures Keys(t[1..])[i] != t[0].0 {
      assert t[1..][i] == t[i + 1];
    }
  }

  /** A key survives exactly when its value is truthy, and then holds the
      cleaned value. */
  lemma {:induction false} CleanEntriesGet(entries: Table<Value>, k: string)
    requires UniqueKeys(entries)
    ensures Get(CleanEntries(entries), k) ==
      match Get(entries, k)
      case Some(v) => if Truthy(v) then Some(InnerClean(v)) else None
      case None => None
  {
    if |entries| > 0 {
      assert entries[0] in entries && entries[0].1 < entries[0];
      UniqueTail(entries);
      CleanEntriesGet(entries[1..], k);
      if entries[0].0 == k && !Truthy(entries[0].1) {
        assert !HasKey(CleanEntries(entries[1..]), k);
      }
    }
  }

  /** Top-level form of the same rule. */
  lemma CleanGet(t: Table<Value>, k: string)
    requires UniqueKeys(t)
    ensures HasKey(Clean(Some(t)).value, k) <==> HasKey(t, k) && Truthy(Get(t, k).value)
    ensures HasKey(Clean(Some(t)).value, k) ==> Get(Clean(Some(t)).value, k) == Some(InnerClean(Get(t, k).value))
  {
    CleanEntriesGet(t, k);
  }

  /** Cleaning a list works element by element: the cleaned concatenation
      is the concatenation of the cleaned parts, so order is kept. */
  lemma {:induction false} CleanItemsAppend(a: seq<Value>, b: seq<Value>)
    ensures CleanItems(a + b) == CleanItems(a) + CleanItems(b)
  {
    if |a| > 0 {
      assert (a + b)[0] == a[0];
      assert (a + b)[1..] == a[1..] + b;
      CleanItemsAppend(a[1..], b);
    } else {
      assert a + b == b;
    }
  }

  lemma CleanItemsOne(v: Value)
    ensures CleanItems([v]) == if Truthy(v) then [InnerClean(v)] else []
  {
    assert [v][1..] == [];
  }

  /** Truthiness is tested before cleaning, so a dict holding only empty
      values survives as an empty dict, and a second pass removes it:
      `clean` is not idempotent. */
  lemma CleanNotIdempotent()
    ensures var once := Clean(Some([("a", Dict([("b", Null)]))]));
            once == Some([("a", Dict([]))]) && Clean(once) == Some([])
  {
    var inner: Table<Value> := [("b", Null)];
    assert inner[1..] == [];
    assert CleanEntries(inner) == [];
    var t: Table<Value> := [("a", Dict(inner))];
    assert t[1..] == [];
    assert CleanEntries(t) == [("a", Dict([]))];
    var t2: Table<Value> := [("a", Dict([]))];
    assert t2[1..] == [];
  }
}
