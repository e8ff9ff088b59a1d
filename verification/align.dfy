/** The older reference alignment: references from several extractors are
    grouped greedily by the word overlap of their digests. The first
    extractor's references seed the groups; every later reference joins the
    group it resembles most, above a similarity cutoff, or opens a new one. */
module Align {
  import opened Base
  import opened Text
  import opened Tables
  import opened Json
  import opened Externals

  /** `argmax(values)`: the index of the first maximum; `max` of nothing
      raises ValueError. */
  function Argmax(values: seq<real>): (r: Result<nat>)
    ensures r.Err? <==> |values| == 0
    ensures r.Ok? ==> r.value < |values|
    ensures r.Ok? ==> forall j :: 0 <= j < |values| ==> values[j] <= values[r.value]
    ensures r.Ok? ==> forall j :: 0 <= j < r.value ==> values[j] < values[r.value]
  {
    if |values| == 0 then Err(ValueError("max() arg is an empty sequence")) else Ok(ArgMax(values))
  }

  // ---------------------------------------------------------------------
  // Word-set similarity

  /** Shared elements over all elements, 0.0 when both sets are empty. */
  function SetJacard<T>(w0: set<T>, w1: set<T>): (r: real)
    ensures 0.0 <= r <= 1.0
    ensures w0 + w1 == {} ==> r == 0.0
  {
    var all := |w0 + w1|;
    if all == 0 then 0.0
    else
      SubsetCard(w0 * w1, w0 + w1);
      RatioWithin(|w0 * w1| as real, all as real);
      |w0 * w1| as real / all as real
  }

  /** `jacard(str0, str1)`: the ratio over the sets of whitespace-separated
      words. */
  function Jacard(str0: string, str1: string): (r: real)
    ensures 0.0 <= r <= 1.0
    ensures Words(str0) + Words(str1) == {} ==> r == 0.0
  {
    SetJacard(Words(str0), Words(str1))
  }

  /** The ratio is symmetric. */
  lemma JacardSymmetric(str0: string, str1: string)
    ensures Jacard(str0, str1) == Jacard(str1, str0)
  {
    assert Words(str0) + Words(str1) == Words(str1) + Words(str0);
    assert Words(str0) * Words(str1) == Words(str1) * Words(str0);
  }

  lemma RatioOne(n: real, d: real)
    requires d > 0.0
    ensures n / d == 1.0 <==> n == d
  {
    if n / d == 1.0 {
      assert n / d * d == n;
    }
    if n == d {
      DivSelf(d);
    }
  }

  lemma MeetIsJoin<T>(a: set<T>, b: set<T>)
    ensures a * b == a + b <==> a == b
  {
    if a * b == a + b {
      forall x ensures x in a <==> x in b {
        assert x in a + b <==> x in a * b;
      }
    }
  }

  lemma SetJacardOneIff<T>(w0: set<T>, w1: set<T>)
    ensures SetJacard(w0, w1) == 1.0 <==> w0 == w1 && w0 != {}
  {
    if w0 + w1 != {} {
      var n, d := |w0 * w1|, |w0 + w1|;
      RatioOne(n as real, d as real);
      SubsetCard(w0 * w1, w0 + w1);
      MeetIsJoin(w0, w1);
    }
  }

  /** The ratio is 1.0 exactly when both strings have the same, non-empty,
      set of words. */
  lemma JacardOneIff(str0: string, str1: string)
    ensures Jacard(str0, str1) == 1.0 <==> Words(str0) == Words(str1) && Words(str0) != {}
  {
    SetJacardOneIff(Words(str0), Words(str1));
  }

  // ---------------------------------------------------------------------
  // Digests

  /** Keys whose values never enter a digest. */
  const BadKeys: seq<string> := ["raw", "doi", "identifiers"]

  /** `digest(metadata)`: the cleaned, space-joined digests of a list's
      elements or of a dict's values outside `BadKeys`; anything else is
      cleaned `str(metadata)`. Cleaning keeps digits. */
  function Digest(env: Env, v: Value): string
    decreases v, 1
  {
    match v
    case List(items) => env.cleanText(Join(" ", DigestItems(env, items)), true)
    case Dict(entries) => env.cleanText(Join(" ", DigestEntries(env, entries)), true)
    case _ => env.cleanText(Show(v, env.formatReal), true)
  }

  function DigestItems(env: Env, items: seq<Value>): (r: seq<string>)
    ensures |r| == |items|
    decreases items, 0
  {
    if |items| == 0 then [] else [Digest(env, items[0])] + DigestItems(env, items[1..])
  }

  function DigestEntries(env: Env, entries: Table<Value>): (r: seq<string>)
    ensures |r| <= |entries|
    decreases entries, 0
  {
    if |entries| == 0 then []
    else
      assert entries[0] in entries && entries[0].1 < entries[0];
      var rest := DigestEntries(env, entries[1..]);
      if entries[0].0 in BadKeys then rest else [Digest(env, entries[0].1)] + rest
  }

  /** `v` with the `BadKeys` entries removed from every dict, at every
      level of lists and dicts. */
  function StripBad(v: Value): (r: Value)
    ensures v.List? <==> r.List?
    ensures v.Dict? <==> r.Dict?
    ensures !v.List? && !v.Dict? ==> r == v
    decreases v, 1
  {
    match v
    case List(items) => List(StripItems(items))
    case Dict(entries) => Dict(StripEntries(entries))
    case _ => v
  }

  function StripItems(items: seq<Value>): (r: seq<Value>)
    ensures |r| == |items|
    decreases items, 0
  {
    if |items| == 0 then [] else [StripBad(items[0])] + StripItems(items[1..])
  }

  function StripEntries(entries: Table<Value>): (r: Table<Value>)
    decreases entries, 0
  {
    if |entries| == 0 then []
    else
      assert entries[0] in entries && entries[0].1 < entries[0];
      var rest := StripEntries(entries[1..]);
      if entries[0].0 in BadKeys then rest else [(entries[0].0, StripBad(entries[0].1))] + rest
  }

  /** No dict anywhere inside `v` holds one of the `BadKeys`. */
  predicate FreeOfBadKeys(v: Value)
    decreases v, 1
  {
    match v
    case List(items) => ItemsFree(items)
    case Dict(entries) => EntriesFree(entries)
    case _ => true
  }

  predicate ItemsFree(items: seq<Value>)
    decreases items, 0
  {
    |items| == 0 || (FreeOfBadKeys(items[0]) && ItemsFree(items[1..]))
  }

  predicate EntriesFree(entries: Table<Value>)
    decreases entries, 0
  {
    |entries| == 0 ||
      (assert entries[0] in entries && entries[0].1 < entries[0];
       entries[0].0 !in BadKeys && FreeOfBadKeys(entries[0].1) && EntriesFree(entries[1..]))
  }

  /** Stripping removes every bad key and leaves the digest unchanged: the
      digest never depends on what lies under a bad key, at any depth. */
  lemma {:induction false} DigestStripBad(env: Env, v: Value)
    ensures FreeOfBadKeys(StripBad(v))
    ensures Digest(env, StripBad(v)) == Digest(env, v)
    decreases v, 1
  {
    match v
    case List(items) => DigestStripItems(env, items);
    case Dict(entries) => DigestStripEntries(env, entries);
    case _ =>
  }

  lemma {:induction false} DigestStripItems(env: Env, items: seq<Value>)
    ensures ItemsFree(StripItems(items))
    ensures DigestItems(env, StripItems(items)) == DigestItems(env, items)
    decreases items, 0
  {
    if |items| > 0 {
      DigestStripBad(env, items[0]);
      DigestStripItems(env, items[1..]);
      var s := StripItems(items);
      assert s[0] == StripBad(items[0]) && s[1..] == StripItems(items[1..]);
    }
  }

  lemma {:induction false} DigestStripEntries(env: Env, entries: Table<Value>)
    ensures EntriesFree(StripEntries(entries))
    ensures DigestEntries(env, StripEntries(entries)) == DigestEntries(env, entries)
    decreases entries, 0
  {
    if |entries| > 0 {
      assert entries[0] in entries && entries[0].1 < entries[0];
      DigestStripEntries(env, entries[1..]);
      if entries[0].0 !in BadKeys {
        DigestStripBad(env, entries[0].1);
        var s := StripEntries(entries);
        assert s[0] == (entries[0].0, StripBad(entries[0].1)) && s[1..] == StripEntries(entries[1..]);
      }
    }
  }

  /** Records that differ only under bad keys have the same digest. */
  lemma DigestIgnoresBadKeys(env: Env, a: Value, b: Value)
    requires StripBad(a) == StripBad(b)
    ensures Digest(env, a) == Digest(env, b)
  {
    DigestStripBad(env, a);
    DigestStripBad(env, b);
  }

  // ---------------------------------------------------------------------
  // Flattening

  predicate IsLeaf(v: Value) { !v.List? && !v.Dict? }

  /** `flatten(arr)`: the leaves of nested lists and dict values, in
      iteration order. */
  function Flatten(v: Value): (r: seq<Value>)
    ensures IsLeaf(v) ==> r == [v]
    decreases v, 1
  {
    match v
    case List(items) => FlattenItems(items)
    case Dict(entries) => FlattenEntries(entries)
    case _ => [v]
  }

  function FlattenItems(items: seq<Value>): seq<Value>
    decreases items, 0
  {
    if |items| == 0 then [] else Flatten(items[0]) + FlattenItems(items[1..])
  }

  function FlattenEntries(entries: Table<Value>): seq<Value>
    decreases entries, 0
  {
    if |entries| == 0 then []
    else
      assert entries[0] in entries && entries[0].1 < entries[0];
      Flatten(entries[0].1) + FlattenEntries(entries[1..])
  }

  /** Everything `flatten` returns is a leaf. */
  lemma {:induction false} FlattenLeaves(v: Value)
    ensures forall i :: 0 <= i < |Flatten(v)| ==> IsLeaf(Flatten(v)[i])
    decreases v, 1
  {
    match v
    case List(items) => FlattenItemsLeaves(items);
    case Dict(entries) => FlattenEntriesLeaves(entries);
    case _ =>
  }

  lemma {:induction false} FlattenItemsLeaves(items: seq<Value>)
    ensures forall i :: 0 <= i < |FlattenItems(items)| ==> IsLeaf(FlattenItems(items)[i])
    decreases items, 0
  {
    if |items| > 0 {
      FlattenLeaves(items[0]);
      FlattenItemsLeaves(items[1..]);
    }
  }

  lemma {:induction false} FlattenEntriesLeaves(entries: Table<Value>)
    ensures forall i :: 0 <= i < |FlattenEntries(entries)| ==> IsLeaf(FlattenEntries(entries)[i])
    decreases entries, 0
  {
    if |entries| > 0 {
      assert entries[0] in entries && entries[0].1 < entries[0];
      FlattenLeaves(entries[0].1);
      FlattenEntriesLeaves(entries[1..]);
    }
  }

  /** Flattening concatenated lists concatenates their flattenings. */
  lemma {:induction false} FlattenItemsAppend(a: seq<Value>, b: seq<Value>)
    ensures FlattenItems(a + b) == FlattenItems(a) + FlattenItems(b)
  {
    if |a| > 0 {
      assert (a + b)[0] == a[0] && (a + b)[1..] == a[1..] + b;
      FlattenItemsAppend(a[1..], b);
    } else {
      assert a + b == b;
    }
  }

  lemma {:induction false} FlattenItemsOfLeaves(s: seq<Value>)
    requires forall i :: 0 <= i < |s| ==> IsLeaf(s[i])
    ensures FlattenItems(s) == s
  {
    if |s| > 0 {
      FlattenItemsOfLeaves(s[1..]);
      assert s == [s[0]] + s[1..];
    }
  }

  /** Flattening a flattened structure changes nothing. */
  lemma FlattenIdempotent(v: Value)
    ensures Flatten(List(Flatten(v))) == Flatten(v)
  {
    FlattenLeaves(v);
    FlattenItemsOfLeaves(Flatten(v));
  }

  // ---------------------------------------------------------------------
  // Alignment

  /** A reference tagged with the name of the extractor that produced it. */
  type Entry = (string, Value)
  type Group = seq<Entry>

  // The alignment below takes the similarity of two references as a
  // parameter `sim`; the source's is `Similarity(env, _, _)`.

  function Similarity(env: Env, a: Value, b: Value): real
  {
    Jacard(Digest(env, a), Digest(env, b))
  }

  function MemberScores(sim: (Value, Value) -> real, ref: Value, group: Group): (r: seq<real>)
    ensures |r| == |group|
    ensures forall i :: 0 <= i < |group| ==> r[i] == sim(ref, group[i].1)
  {
    if |group| == 0 then [] else [sim(ref, group[0].1)] + MemberScores(sim, ref, group[1..])
  }

  /** `_jacard_max`: the best similarity to any member of the group. */
  function JacardMax(sim: (Value, Value) -> real, ref: Value, group: Group): (m: real)
    requires |group| > 0
    ensures forall i :: 0 <= i < |group| ==> sim(ref, group[i].1) <= m
    ensures exists i :: 0 <= i < |group| && sim(ref, group[i].1) == m
  {
    var scores := MemberScores(sim, ref, group);
    var m := MaxOf(scores);
    assert exists i :: 0 <= i < |scores| && scores[i] == m;
    m
  }

  predicate NonEmptyGroups(groups: seq<Group>)
  {
    forall i :: 0 <= i < |groups| ==> |groups[i]| > 0
  }

  function GroupScores(sim: (Value, Value) -> real, groups: seq<Group>, ref: Value): (r: seq<real>)
    requires NonEmptyGroups(groups)
    ensures |r| == |groups|
    ensures forall i :: 0 <= i < |groups| ==> r[i] == JacardMax(sim, ref, groups[i])
  {
    if |groups| == 0 then [] else [JacardMax(sim, ref, groups[0])] + GroupScores(sim, groups[1..], ref)
  }

  /** `reversed(sorted(scores))[0]` over the groups among the first `n`
      scoring strictly above the cutoff: the highest score, and on a tie
      the highest index. */
  function BestUpTo(scores: seq<real>, cutoff: real, n: nat): (r: Option<nat>)
    requires n <= |scores|
    ensures r.None? ==> forall j :: 0 <= j < n ==> scores[j] <= cutoff
    ensures r.Some? ==> r.value < n && scores[r.value] > cutoff
    ensures r.Some? ==> forall j :: 0 <= j < n && scores[j] > cutoff ==> scores[j] <= scores[r.value]
    ensures r.Some? ==> forall j :: r.value < j < n ==> scores[j] <= cutoff || scores[j] < scores[r.value]
  {
    if n == 0 then None
    else
      var b := BestUpTo(scores, cutoff, n - 1);
      if scores[n - 1] > cutoff && (b.None? || scores[n - 1] >= scores[b.value]) then Some(n - 1) else b
  }

  function BestGroup(scores: seq<real>, cutoff: real): (r: Option<nat>)
    ensures r.None? ==> forall j :: 0 <= j < |scores| ==> scores[j] <= cutoff
    ensures r.Some? ==> r.value < |scores| && scores[r.value] > cutoff
    ensures r.Some? ==> forall j :: 0 <= j < |scores| && scores[j] > cutoff ==> scores[j] <= scores[r.value]
    ensures r.Some? ==> forall j :: r.value < j < |scores| ==> scores[j] <= cutoff || scores[j] < scores[r.value]
  {
    BestUpTo(scores, cutoff, |scores|)
  }

  /** The chosen group is the only one with those properties. */
  lemma BestGroupUnique(scores: seq<real>, cutoff: real, i: nat)
    requires i < |scores| && scores[i] > cutoff
    requires forall j :: 0 <= j < |scores| && scores[j] > cutoff ==> scores[j] <= scores[i]
    requires forall j :: i < j < |scores| ==> scores[j] <= cutoff || scores[j] < scores[i]
    ensures BestGroup(scores, cutoff) == Some(i)
  {
    var b := BestGroup(scores, cutoff);
    assert b.Some?;
  }

  /** One reference of a later extractor: it joins the end of the best
      group scoring strictly above the cutoff, or opens a group of its own
      at the end. */
  function AlignStep(sim: (Value, Value) -> real, groups: seq<Group>, e: Entry, cutoff: real): (r: seq<Group>)
    requires NonEmptyGroups(groups)
    ensures NonEmptyGroups(r)
    ensures |groups| <= |r| <= |groups| + 1
    ensures forall i :: 0 <= i < |groups| ==> groups[i] <= r[i]
    ensures var best := BestGroup(GroupScores(sim, groups, e.1), cutoff);
      best.Some? ==> r == groups[best.value := groups[best.value] + [e]]
    ensures var best := BestGroup(GroupScores(sim, groups, e.1), cutoff);
      best.None? ==> r == groups + [[e]]
  {
    var best := BestGroup(GroupScores(sim, groups, e.1), cutoff);
    if best.Some? then Extend(groups, best.value, e) else groups + [[e]]
  }

  /** `output[index] = output[index] + entry`. */
  function Extend(groups: seq<Group>, i: nat, e: Entry): (r: seq<Group>)
    requires i < |groups| && NonEmptyGroups(groups)
    ensures r == groups[i := groups[i] + [e]]
    ensures NonEmptyGroups(r)
    ensures forall j :: 0 <= j < |groups| ==> groups[j] <= r[j]
  {
    groups[i := groups[i] + [e]]
  }

  /** The references of one extractor, in order. */
  function AlignRefs(sim: (Value, Value) -> real, groups: seq<Group>, key: string, refs: seq<Value>, cutoff: real): (r: seq<Group>)
    requires NonEmptyGroups(groups)
    ensures NonEmptyGroups(r)
    ensures |groups| <= |r|
    ensures forall i :: 0 <= i < |groups| ==> groups[i] <= r[i]
    decreases |refs|
  {
    if |refs| == 0 then groups
    else AlignRefs(sim, AlignStep(sim, groups, (key, refs[0]), cutoff), key, refs[1..], cutoff)
  }

  /** The extractors from position `from` on, in dict order. */
  function AlignFrom(sim: (Value, Value) -> real, groups: seq<Group>, records: Table<seq<Value>>, from: nat, cutoff: real): (r: seq<Group>)
    requires from <= |records| && NonEmptyGroups(groups)
    ensures NonEmptyGroups(r)
    ensures |groups| <= |r|
    ensures forall i :: 0 <= i < |groups| ==> groups[i] <= r[i]
    decreases |records| - from
  {
    if from == |records| then groups
    else AlignFrom(sim, AlignRefs(sim, groups, records[from].0, records[from].1, cutoff), records, from + 1, cutoff)
  }

  /** The first extractor's references, one group each, in order. */
  function Seed(key: string, refs: seq<Value>): (r: seq<Group>)
    ensures NonEmptyGroups(r)
    ensures |r| == |refs|
    ensures forall i :: 0 <= i < |refs| ==> r[i] == [(key, refs[i])]
  {
    if |refs| == 0 then [] else [[(key, refs[0])]] + Seed(key, refs[1..])
  }

  /** `align_records` with the value of the similarity cutoff given: the
      first extractor's references seed the groups in order, so there are
      at least as many groups as it has references, and no group is empty.
      `similarity_cutoff` runs first and fails on too few extractors: with
      none, `max(map(len, records))` raises ValueError; with one, no pair
      of extractors is compared, and the median of the empty flattened
      matrix raises StatisticsError. */
  function AlignRecords(sim: (Value, Value) -> real, records: Table<seq<Value>>, cutoff: real): (r: Result<seq<Group>>)
    ensures r.Err? <==> |records| < 2
    ensures |records| == 0 ==> r == Err(ValueError("max() arg is an empty sequence"))
    ensures |records| == 1 ==> r == Err(StatisticsError)
    ensures r.Ok? ==> NonEmptyGroups(r.value) && |r.value| >= |records[0].1|
    ensures r.Ok? ==> forall i :: 0 <= i < |records[0].1| ==> r.value[i][0] == (records[0].0, records[0].1[i])
  {
    if |records| == 0 then Err(ValueError("max() arg is an empty sequence"))
    else if |records| == 1 then Err(StatisticsError)
    else
      var seed := Seed(records[0].0, records[0].1);
      var r := AlignFrom(sim, seed, records, 1, cutoff);
      assert forall i :: 0 <= i < |records[0].1| ==> seed[i] <= r[i] && seed[i][0] == (records[0].0, records[0].1[i]);
      Ok(r)
  }

  // Every reference lands in exactly one group

  function Concat(groups: seq<Group>): (r: seq<Entry>)
  {
    if |groups| == 0 then [] else groups[0] + Concat(groups[1..])
  }

  lemma {:induction false} ConcatAppend(a: seq<Group>, b: seq<Group>)
    ensures Concat(a + b) == Concat(a) + Concat(b)
  {
    if |a| > 0 {
      assert (a + b)[0] == a[0] && (a + b)[1..] == a[1..] + b;
      ConcatAppend(a[1..], b);
    } else {
      assert a + b == b;
    }
  }

  /** Adding an entry to one group adds it to the entries overall. */
  lemma ConcatUpdate(groups: seq<Group>, i: nat, e: Entry)
    requires i < |groups|
    ensures multiset(Concat(groups[i := groups[i] + [e]])) == multiset(Concat(groups)) + multiset{e}
  {
    var pre, post := groups[..i], groups[i + 1..];
    assert groups == pre + [groups[i]] + post;
    assert groups[i := groups[i] + [e]] == pre + [groups[i] + [e]] + post;
    ConcatAppend(pre + [groups[i]], post);
    ConcatAppend(pre, [groups[i]]);
    ConcatAppend(pre + [groups[i] + [e]], post);
    ConcatAppend(pre, [groups[i] + [e]]);
    assert Concat([groups[i]]) == groups[i];
    assert Concat([groups[i] + [e]]) == groups[i] + [e];
  }

  lemma AlignStepEntries(sim: (Value, Value) -> real, groups: seq<Group>, e: Entry, cutoff: real)
    requires NonEmptyGroups(groups)
    ensures multiset(Concat(AlignStep(sim, groups, e, cutoff))) == multiset(Concat(groups)) + multiset{e}
  {
    match BestGroup(GroupScores(sim, groups, e.1), cutoff)
    case Some(i) => ConcatUpdate(groups, i, e);
    case None =>
      ConcatAppend(groups, [[e]]);
      assert Concat([[e]]) == [e];
  }

  /** The references of one extractor, each tagged with its name. */
  function Tagged(key: string, refs: seq<Value>): (r: seq<Entry>)
    ensures |r| == |refs|
    ensures forall i :: 0 <= i < |refs| ==> r[i] == (key, refs[i])
  {
    if |refs| == 0 then [] else [(key, refs[0])] + Tagged(key, refs[1..])
  }

  lemma {:induction false} AlignRefsEntries(sim: (Value, Value) -> real, groups: seq<Group>, key: string, refs: seq<Value>, cutoff: real)
    requires NonEmptyGroups(groups)
    ensures multiset(Concat(AlignRefs(sim, groups, key, refs, cutoff))) == multiset(Concat(groups)) + multiset(Tagged(key, refs))
    decreases |refs|
  {
    if |refs| > 0 {
      AlignStepEntries(sim, groups, (key, refs[0]), cutoff);
      AlignRefsEntries(sim, AlignStep(sim, groups, (key, refs[0]), cutoff), key, refs[1..], cutoff);
      assert Tagged(key, refs) == [(key, refs[0])] + Tagged(key, refs[1..]);
    }
  }

  /** Every input reference, tagged, extractor after extractor. */
  function AllFrom(records: Table<seq<Value>>, from: nat): (r: seq<Entry>)
    requires from <= |records|
    decreases |records| - from
  {
    if from == |records| then [] else Tagged(records[from].0, records[from].1) + AllFrom(records, from + 1)
  }

  lemma {:induction false} AlignFromEntries(sim: (Value, Value) -> real, groups: seq<Group>, records: Table<seq<Value>>, from: nat, cutoff: real)
    requires from <= |records| && NonEmptyGroups(groups)
    ensures multiset(Concat(AlignFrom(sim, groups, records, from, cutoff))) == multiset(Concat(groups)) + multiset(AllFrom(records, from))
    decreases |records| - from
  {
    if from < |records| {
      AlignRefsEntries(sim, groups, records[from].0, records[from].1, cutoff);
      AlignFromEntries(sim, AlignRefs(sim, groups, records[from].0, records[from].1, cutoff), records, from + 1, cutoff);
    }
  }

  lemma {:induction false} ConcatSeed(key: string, refs: seq<Value>)
    ensures Concat(Seed(key, refs)) == Tagged(key, refs)
  {
    if |refs| > 0 {
      ConcatSeed(key, refs[1..]);
      assert Seed(key, refs)[1..] == Seed(key, refs[1..]);
    }
  }

  /** The groups hold exactly the input references, each once. */
  lemma AlignRecordsPartition(sim: (Value, Value) -> real, records: Table<seq<Value>>, cutoff: real)
    requires |records| >= 2
    ensures multiset(Concat(AlignRecords(sim, records, cutoff).value)) == multiset(AllFrom(records, 0))
  {
    ConcatSeed(records[0].0, records[0].1);
    AlignFromEntries(sim, Seed(records[0].0, records[0].1), records, 1, cutoff);
  }

  /** The scan over the groups' scores: the last score above the cutoff
      that is at least every earlier qualifying one. */
  method BestGroupLoop(scores: seq<real>, cutoff: real) returns (best: Option<nat>)
    ensures best == BestGroup(scores, cutoff)
  {
    best := None;
    var bestScore := 0.0;
    var iout := 0;
    while iout < |scores|
      invariant 0 <= iout <= |scores|
      invariant best == BestUpTo(scores, cutoff, iout)
      invariant best.Some? ==> bestScore == scores[best.value]
    {
      if scores[iout] > cutoff && (best.None? || scores[iout] >= bestScore) {
        best, bestScore := Some(iout), scores[iout];
      }
      iout := iout + 1;
    }
  }

  /** One extractor's references, one after the other. */
  method AlignRefsLoop(sim: (Value, Value) -> real, output: seq<Group>, key: string, refs: seq<Value>, cutoff: real) returns (r: seq<Group>)
    requires NonEmptyGroups(output)
    ensures r == AlignRefs(sim, output, key, refs, cutoff)
  {
    r := output;
    var iref := 0;
    while iref < |refs|
      invariant 0 <= iref <= |refs|
      invariant NonEmptyGroups(r)
      invariant AlignRefs(sim, r, key, refs[iref..], cutoff) == AlignRefs(sim, output, key, refs, cutoff)
    {
      var best := BestGroupLoop(GroupScores(sim, r, refs[iref]), cutoff);
      ghost var before := r;
      if best.Some? {
        r := r[best.value := r[best.value] + [(key, refs[iref])]];
      } else {
        r := r + [[(key, refs[iref])]];
      }
      assert r == AlignStep(sim, before, (key, refs[iref]), cutoff);
      assert refs[iref..][0] == refs[iref] && refs[iref..][1..] == refs[iref + 1..];
      iref := iref + 1;
    }
  }

  /** `align_records` as the nested loops of the source. */
  method AlignRecordsLoop(sim: (Value, Value) -> real, records: Table<seq<Value>>, cutoff: real) returns (r: Result<seq<Group>>)
    ensures r == AlignRecords(sim, records, cutoff)
  {
    if |records| == 0 {
      return Err(ValueError("max() arg is an empty sequence"));
    }
    if |records| == 1 {
      return Err(StatisticsError);
    }
    ghost var goal := AlignFrom(sim, Seed(records[0].0, records[0].1), records, 1, cutoff);
    var output := Seed(records[0].0, records[0].1);
    var ikey := 1;
    while ikey < |records|
      invariant 1 <= ikey <= |records|
      invariant NonEmptyGroups(output)
      invariant AlignFrom(sim, output, records, ikey, cutoff) == goal
    {
      output := AlignRefsLoop(sim, output, records[ikey].0, records[ikey].1, cutoff);
      ikey := ikey + 1;
    }
    return Ok(output);
  }

  /** The reference joins group `i` when that group is the best one above
      the cutoff. */
  lemma StepInto(sim: (Value, Value) -> real, groups: seq<Group>, e: Entry, cutoff: real, i: nat)
    requires NonEmptyGroups(groups) && i < |groups|
    requires JacardMax(sim, e.1, groups[i]) > cutoff
    requires forall j :: 0 <= j < |groups| && j != i ==> JacardMax(sim, e.1, groups[j]) <= cutoff
    ensures AlignStep(sim, groups, e, cutoff) == groups[i := groups[i] + [e]]
  {
    BestGroupUnique(GroupScores(sim, groups, e.1), cutoff, i);
  }

  /** The reference opens a new group when no group is above the cutoff. */
  lemma StepNew(sim: (Value, Value) -> real, groups: seq<Group>, e: Entry, cutoff: real)
    requires NonEmptyGroups(groups)
    requires forall j :: 0 <= j < |groups| ==> JacardMax(sim, e.1, groups[j]) <= cutoff
    ensures AlignStep(sim, groups, e, cutoff) == groups + [[e]]
  {
    var b := BestGroup(GroupScores(sim, groups, e.1), cutoff);
    if b.Some? {
      assert false;
    }
  }

  lemma MaxOfTwo(sim: (Value, Value) -> real, ref: Value, a: Entry, b: Entry, bound: real)
    requires sim(ref, a.1) <= bound && sim(ref, b.1) <= bound
    ensures JacardMax(sim, ref, [a, b]) <= bound
  {
  }

  lemma MaxOfOne(sim: (Value, Value) -> real, ref: Value, a: Entry)
    ensures JacardMax(sim, ref, [a]) == sim(ref, a.1)
  {
  }

  // Scenarios

  /** `used` is never filled in, so one extractor can put two references
      into the same group. */
  lemma RefsOne(sim: (Value, Value) -> real, g: seq<Group>, key: string, x: Value, cutoff: real)
    requires NonEmptyGroups(g)
    ensures AlignRefs(sim, g, key, [x], cutoff) == AlignStep(sim, g, (key, x), cutoff)
  {
    assert [x][1..] == [];
  }

  lemma RefsTwo(sim: (Value, Value) -> real, g: seq<Group>, key: string, x: Value, y: Value, cutoff: real)
    requires NonEmptyGroups(g)
    ensures AlignRefs(sim, g, key, [x, y], cutoff) ==
      AlignStep(sim, AlignStep(sim, g, (key, x), cutoff), (key, y), cutoff)
  {
    assert [x, y][1..] == [y];
    RefsOne(sim, AlignStep(sim, g, (key, x), cutoff), key, y, cutoff);
  }

  lemma SeedOne(key: string, x: Value)
    ensures Seed(key, [x]) == [[(key, x)]]
  {
    assert [x][1..] == [];
  }

  lemma SeedTwo(key: string, x: Value, y: Value)
    ensures Seed(key, [x, y]) == [[(key, x)], [(key, y)]]
  {
    assert [x, y][1..] == [y];
    SeedOne(key, y);
  }

  lemma OneExtractorTwiceInAGroup(sim: (Value, Value) -> real, x: Value, cutoff: real)
    requires sim(x, x) > cutoff
    ensures AlignRecords(sim, [("a", [x]), ("b", [x, x])], cutoff) == Ok([[("a", x), ("b", x), ("b", x)]])
  {
    var records: Table<seq<Value>> := [("a", [x]), ("b", [x, x])];
    var g0: seq<Group> := [[("a", x)]];
    SeedOne("a", x);
    MaxOfOne(sim, x, ("a", x));
    StepInto(sim, g0, ("b", x), cutoff, 0);
    var g1: seq<Group> := [[("a", x), ("b", x)]];
    assert g0[0] + [("b", x)] == g1[0];
    assert g0[0 := g0[0] + [("b", x)]] == g1;
    MaxOfTwo(sim, x, ("a", x), ("b", x), 1.0 * sim(x, x));
    assert JacardMax(sim, x, g1[0]) >= sim(x, x);
    StepInto(sim, g1, ("b", x), cutoff, 0);
    var g2: seq<Group> := [[("a", x), ("b", x), ("b", x)]];
    assert g1[0] + [("b", x)] == g2[0];
    assert g1[0 := g1[0] + [("b", x)]] == g2;
    RefsTwo(sim, g0, "b", x, x, cutoff);
    assert AlignFrom(sim, g2, records, 2, cutoff) == g2;
  }

  /** With the digest similarity, any reference whose digest has a word is
      a perfect match for itself, so a second extractor listing it twice
      puts both copies into its group for any cutoff below 1.0. */
  lemma DuplicateJoinsTwice(env: Env, x: Value, cutoff: real)
    requires Words(Digest(env, x)) != {} && cutoff < 1.0
    ensures AlignRecords((a, b) => Similarity(env, a, b), [("a", [x]), ("b", [x, x])], cutoff)
      == Ok([[("a", x), ("b", x), ("b", x)]])
  {
    JacardOneIff(Digest(env, x), Digest(env, x));
    OneExtractorTwiceInAGroup((a, b) => Similarity(env, a, b), x, cutoff);
  }

  lemma AlignThree(sim: (Value, Value) -> real, records: Table<seq<Value>>, cutoff: real)
    requires |records| == 3
    ensures AlignRecords(sim, records, cutoff) == Ok(
      AlignRefs(sim, AlignRefs(sim, Seed(records[0].0, records[0].1), records[1].0, records[1].1, cutoff),
        records[2].0, records[2].1, cutoff))
  {
    var seed := Seed(records[0].0, records[0].1);
    var g1 := AlignRefs(sim, seed, records[1].0, records[1].1, cutoff);
    var g2 := AlignRefs(sim, g1, records[2].0, records[2].1, cutoff);
    assert AlignFrom(sim, g2, records, 3, cutoff) == g2;
    assert AlignFrom(sim, g1, records, 2, cutoff) == g2;
    assert AlignFrom(sim, seed, records, 1, cutoff) == g2;
  }

  /** Three extractors: the second one's Matt joins the first one's Matt,
      the third one's John resembles nothing and opens a group, and its
      Eric joins the first one's Erick, whenever the similarities fall on
      the right sides of the cutoff. */
  lemma ThreeExtractorsBySimilarity(sim: (Value, Value) -> real, cutoff: real, m1: Value, e1: Value, m2: Value, j3: Value, e3: Value)
    requires sim(m2, m1) > cutoff && sim(m2, e1) <= cutoff
    requires sim(j3, m1) <= cutoff && sim(j3, m2) <= cutoff && sim(j3, e1) <= cutoff
    requires sim(e3, m1) <= cutoff && sim(e3, m2) <= cutoff
    requires sim(e3, e1) > cutoff && sim(e3, j3) <= cutoff
    ensures AlignRecords(sim, [("ext1", [m1, e1]), ("ext2", [m2]), ("ext3", [j3, e3])], cutoff)
      == Ok([[("ext1", m1), ("ext2", m2)], [("ext1", e1), ("ext3", e3)], [("ext3", j3)]])
  {
    var records: Table<seq<Value>> := [("ext1", [m1, e1]), ("ext2", [m2]), ("ext3", [j3, e3])];
    AlignThree(sim, records, cutoff);
    SeedTwo("ext1", m1, e1);
    var g0: seq<Group> := [[("ext1", m1)], [("ext1", e1)]];
    var g1 := ExtTwo(sim, cutoff, m1, e1, m2);
    RefsOne(sim, g0, "ext2", m2, cutoff);
    var g2 := ExtThreeJohn(sim, cutoff, m1, e1, m2, j3);
    var g3 := ExtThreeEric(sim, cutoff, m1, e1, m2, j3, e3);
    RefsTwo(sim, g1, "ext3", j3, e3, cutoff);
  }

  lemma ExtTwo(sim: (Value, Value) -> real, cutoff: real, m1: Value, e1: Value, m2: Value) returns (g1: seq<Group>)
    requires sim(m2, m1) > cutoff && sim(m2, e1) <= cutoff
    ensures g1 == [[("ext1", m1), ("ext2", m2)], [("ext1", e1)]]
    ensures AlignStep(sim, [[("ext1", m1)], [("ext1", e1)]], ("ext2", m2), cutoff) == g1
  {
    var g0: seq<Group> := [[("ext1", m1)], [("ext1", e1)]];
    MaxOfOne(sim, m2, ("ext1", m1));
    MaxOfOne(sim, m2, ("ext1", e1));
    StepInto(sim, g0, ("ext2", m2), cutoff, 0);
    g1 := [[("ext1", m1), ("ext2", m2)], [("ext1", e1)]];
    assert g0[0] + [("ext2", m2)] == g1[0];
    assert g0[0 := g0[0] + [("ext2", m2)]] == g1;
  }

  lemma ExtThreeJohn(sim: (Value, Value) -> real, cutoff: real, m1: Value, e1: Value, m2: Value, j3: Value) returns (g2: seq<Group>)
    requires sim(j3, m1) <= cutoff && sim(j3, m2) <= cutoff && sim(j3, e1) <= cutoff
    ensures g2 == [[("ext1", m1), ("ext2", m2)], [("ext1", e1)], [("ext3", j3)]]
    ensures AlignStep(sim, [[("ext1", m1), ("ext2", m2)], [("ext1", e1)]], ("ext3", j3), cutoff) == g2
  {
    var g1: seq<Group> := [[("ext1", m1), ("ext2", m2)], [("ext1", e1)]];
    MaxOfTwo(sim, j3, ("ext1", m1), ("ext2", m2), cutoff);
    MaxOfOne(sim, j3, ("ext1", e1));
    StepNew(sim, g1, ("ext3", j3), cutoff);
    g2 := g1 + [[("ext3", j3)]];
  }

  lemma ExtThreeEric(sim: (Value, Value) -> real, cutoff: real, m1: Value, e1: Value, m2: Value, j3: Value, e3: Value) returns (g3: seq<Group>)
    requires sim(e3, m1) <= cutoff && sim(e3, m2) <= cutoff
    requires sim(e3, e1) > cutoff && sim(e3, j3) <= cutoff
    ensures g3 == [[("ext1", m1), ("ext2", m2)], [("ext1", e1), ("ext3", e3)], [("ext3", j3)]]
    ensures AlignStep(sim, [[("ext1", m1), ("ext2", m2)], [("ext1", e1)], [("ext3", j3)]], ("ext3", e3), cutoff) == g3
  {
    var a: Group := [("ext1", m1), ("ext2", m2)];
    var b: Group := [("ext1", e1)];
    var c: Group := [("ext3", j3)];
    var g2: seq<Group> := [a, b, c];
    MaxOfTwo(sim, e3, ("ext1", m1), ("ext2", m2), cutoff);
    MaxOfOne(sim, e3, ("ext1", e1));
    MaxOfOne(sim, e3, ("ext3", j3));
    assert JacardMax(sim, e3, g2[0]) <= cutoff;
    assert JacardMax(sim, e3, g2[1]) > cutoff;
    assert JacardMax(sim, e3, g2[2]) <= cutoff;
    StepInto(sim, g2, ("ext3", e3), cutoff, 1);
    var b2: Group := [("ext1", e1), ("ext3", e3)];
    assert b + [("ext3", e3)] == b2;
    g3 := [a, b2, c];
    assert g2[1 := b2] == g3;
  }

  // The regression batch, with a cleaner that leaves text as it is

  /** A record with a title and a year. */
  function TitleYear(title: string, year: nat): Value
  {
    Dict([("title", Str(title)), ("year", Int(year))])
  }

  ghost predicate KeepsText(env: Env)
  {
    forall t :: env.cleanText(t, true) == t
  }

  /** Such a record's digest has two words: the title and the year. */
  lemma TitleYearWords(env: Env, title: string, year: nat)
    requires KeepsText(env) && |title| > 0 && NoSpace(title)
    ensures Words(Digest(env, TitleYear(title, year))) == {title, IntToString(year)}
  {
    var entries: Table<Value> := [("title", Str(title)), ("year", Int(year))];
    var y := IntToString(year);
    assert "title" !in BadKeys && "year" !in BadKeys;
    assert entries[1..] == [("year", Int(year))] && entries[1..][1..] == [];
    assert Digest(env, Str(title)) == title;
    assert Digest(env, Int(year)) == y;
    assert DigestEntries(env, entries) == [title, y];
    assert NoSpace(y) by {
      assert AllDigits(y);
    }
    SplitJoin([title, y]);
    assert Digest(env, TitleYear(title, year)) == Join(" ", [title, y]);
  }

  lemma DisjointPairs(a: string, b: string, c: string, d: string)
    requires a != c && a != d && b != c && b != d
    ensures SetJacard({a, b}, {c, d}) == 0.0
  {
    assert {a, b} * {c, d} == {};
    assert c in {a, b} + {c, d};
  }

  lemma OneWordShared(e: string, f: string, y: string)
    requires e != f && e != y && f != y
    ensures SetJacard({e, y}, {f, y}) == 1.0 / 3.0
  {
    assert {e, y} * {f, y} == {y};
    assert {e, y} + {f, y} == {e, y} + {f};
    assert |{e, y}| == 2;
  }

  lemma YearsDiffer(a: nat, b: nat)
    requires a != b
    ensures IntToString(a) != IntToString(b)
  {
    IntToStringRoundTrip(a);
    IntToStringRoundTrip(b);
  }

  /** A title starting with a letter is never a year's digits. */
  lemma TitleIsNoYear(title: string, year: nat)
    requires |title| > 0 && !IsDigit(title[0])
    ensures title != IntToString(year)
  {
    assert AllDigits(IntToString(year));
  }

  /** The similarity of two such records compares their word pairs. */
  lemma TitleYearSimilarity(env: Env, t1: string, y1: nat, t2: string, y2: nat)
    requires KeepsText(env) && |t1| > 0 && NoSpace(t1) && |t2| > 0 && NoSpace(t2)
    ensures Similarity(env, TitleYear(t1, y1), TitleYear(t2, y2))
      == SetJacard({t1, IntToString(y1)}, {t2, IntToString(y2)})
  {
    TitleYearWords(env, t1, y1);
    TitleYearWords(env, t2, y2);
  }

  /** Records with different titles and different years share no word. */
  lemma NothingShared(env: Env, t1: string, y1: nat, t2: string, y2: nat)
    requires KeepsText(env) && |t1| > 0 && NoSpace(t1) && |t2| > 0 && NoSpace(t2)
    requires !IsDigit(t1[0]) && !IsDigit(t2[0]) && t1 != t2 && y1 != y2
    ensures Similarity(env, TitleYear(t1, y1), TitleYear(t2, y2)) == 0.0
  {
    TitleYearSimilarity(env, t1, y1, t2, y2);
    YearsDiffer(y1, y2);
    TitleIsNoYear(t1, y2);
    TitleIsNoYear(t2, y1);
    DisjointPairs(t1, IntToString(y1), t2, IntToString(y2));
  }

  /** Records with different titles and the same year share one word of
      three. */
  lemma YearShared(env: Env, t1: string, t2: string, y: nat)
    requires KeepsText(env) && |t1| > 0 && NoSpace(t1) && |t2| > 0 && NoSpace(t2)
    requires !IsDigit(t1[0]) && !IsDigit(t2[0]) && t1 != t2
    ensures Similarity(env, TitleYear(t1, y), TitleYear(t2, y)) == 1.0 / 3.0
  {
    TitleYearSimilarity(env, t1, y, t2, y);
    TitleIsNoYear(t1, y);
    TitleIsNoYear(t2, y);
    OneWordShared(t1, t2, IntToString(y));
  }

  /** A record with a title is a perfect match for itself. */
  lemma SameRecord(env: Env, t: string, y: nat)
    requires KeepsText(env) && |t| > 0 && NoSpace(t)
    ensures Similarity(env, TitleYear(t, y), TitleYear(t, y)) == 1.0
  {
    TitleYearSimilarity(env, t, y, t, y);
    SetJacardOneIff({t, IntToString(y)}, {t, IntToString(y)});
  }

  /** The similarities the batch runs into. */
  lemma BatchSimilarities(env: Env)
    requires KeepsText(env)
    ensures var matt, erick := TitleYear("Matt", 2011), TitleYear("Erick", 2013);
      var john, eric := TitleYear("John", 2010), TitleYear("Eric", 2013);
      Similarity(env, matt, matt) == 1.0 && Similarity(env, matt, erick) == 0.0
      && Similarity(env, john, matt) == 0.0 && Similarity(env, john, erick) == 0.0
      && Similarity(env, eric, matt) == 0.0 && Similarity(env, eric, john) == 0.0
      && Similarity(env, eric, erick) == 1.0 / 3.0
  {
    assert NoSpace("Matt") && NoSpace("Erick") && NoSpace("John") && NoSpace("Eric");
    SameRecord(env, "Matt", 2011);
    NothingShared(env, "Matt", 2011, "Erick", 2013);
    NothingShared(env, "John", 2010, "Matt", 2011);
    NothingShared(env, "John", 2010, "Erick", 2013);
    NothingShared(env, "Eric", 2013, "Matt", 2011);
    NothingShared(env, "Eric", 2013, "John", 2010);
    YearShared(env, "Eric", "Erick", 2013);
  }

  /** The regression batch of three extractors, with records holding a
      title and a year: the two Matts group together, Erick and Eric group
      together, and John stands alone, for every cutoff from 0 up to but
      excluding 1/3 (Erick and Eric share one word out of three). */
  lemma MattErickJohn(env: Env, cutoff: real)
    requires KeepsText(env) && 0.0 <= cutoff < 1.0 / 3.0
    ensures var matt, erick := TitleYear("Matt", 2011), TitleYear("Erick", 2013);
      var john, eric := TitleYear("John", 2010), TitleYear("Eric", 2013);
      AlignRecords((a, b) => Similarity(env, a, b),
        [("ext1", [matt, erick]), ("ext2", [matt]), ("ext3", [john, eric])], cutoff)
      == Ok([[("ext1", matt), ("ext2", matt)], [("ext1", erick), ("ext3", eric)], [("ext3", john)]])
  {
    var matt, erick := TitleYear("Matt", 2011), TitleYear("Erick", 2013);
    var john, eric := TitleYear("John", 2010), TitleYear("Eric", 2013);
    BatchSimilarities(env);
    ThreeExtractorsBySimilarity((a, b) => Similarity(env, a, b), cutoff, matt, erick, matt, john, eric);
  }
}
