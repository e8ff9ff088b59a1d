/** Arbitration of one aligned reference, as the current pipeline does it:
    the extractors' values for each field are pooled into buckets of
    similar values, each weighted by the value's validity times the
    extractor's prior trust; the heaviest bucket of each field wins, and the
    assembled reference is scored by completeness times confidence. */
module Arbitrate {
  import opened Base
  import opened Text
  import opened Tables
  import opened Json
  import opened Externals
  import opened Domain
  import Levenshtein

  // ---------------------------------------------------------------------
  // Validation

  const MissingPriors := "Priors missing for one or more extractors"
  const ShapeMismatch := "Metadata and validity objects must have the same shape"

  /** `_validate`: every extractor needs a priors entry; then the metadata
      and validity dicts must have the same size and no metadata key may be
      missing from the validity dict. */
  function Validate<R>(extractors: seq<string>, priors: Table<Table<real>>,
                       metadata: Table<R>, valid: Table<Table<real>>): (r: Result<()>)
    ensures (exists e :: e in extractors && !HasKey(priors, e)) ==> r == Err(ValueError(MissingPriors))
    ensures (forall e :: e in extractors ==> HasKey(priors, e)) ==>
              (r.Ok? <==> |metadata| == |valid| && forall k :: k in Keys(metadata) ==> HasKey(valid, k))
    ensures r.Err? ==> r.error == ValueError(MissingPriors) || r.error == ValueError(ShapeMismatch)
  {
    if exists e :: e in extractors && !HasKey(priors, e) then Err(ValueError(MissingPriors))
    else if |metadata| == |valid| && forall k :: k in Keys(metadata) ==> HasKey(valid, k) then Ok(())
    else Err(ValueError(ShapeMismatch))
  }

  /** Dicts keyed by exactly the extractors pass the validation. */
  lemma ValidateSameKeys<R>(extractors: seq<string>, priors: Table<Table<real>>,
                            metadata: Table<R>, valid: Table<Table<real>>)
    requires Keys(priors) == extractors && Keys(metadata) == extractors && Keys(valid) == extractors
    ensures Validate(extractors, priors, metadata, valid).Ok?
  {
    assert forall e :: e in extractors ==> HasKey(priors, e);
    assert forall k :: k in Keys(metadata) ==> HasKey(valid, k);
  }

  /** An extractor without priors fails the validation. */
  lemma ValidateMissingPrior<R>(extractors: seq<string>, priors: Table<Table<real>>,
                                metadata: Table<R>, valid: Table<Table<real>>, e: string)
    requires e in extractors && !HasKey(priors, e)
    ensures Validate(extractors, priors, metadata, valid) == Err(ValueError(MissingPriors))
  {
  }

  /** With every prior present, a metadata key missing from the validity
      dict fails the shape check. */
  lemma ValidateMissingKey<R>(extractors: seq<string>, priors: Table<Table<real>>,
                              metadata: Table<R>, valid: Table<Table<real>>, k: string)
    requires forall e :: e in extractors ==> HasKey(priors, e)
    requires k in Keys(metadata) && !HasKey(valid, k)
    ensures Validate(extractors, priors, metadata, valid) == Err(ValueError(ShapeMismatch))
  {
  }

  predicate Distinct(s: seq<string>)
  {
    forall i, j :: 0 <= i < j < |s| ==> s[i] != s[j]
  }

  lemma {:induction false} DistinctCard(s: seq<string>)
    requires Distinct(s)
    ensures |set x | x in s| == |s|
  {
    if |s| > 0 {
      var t := s[1..];
      assert Distinct(t) by {
        forall i, j | 0 <= i < j < |t| ensures t[i] != t[j] {
          assert t[i] == s[i + 1] && t[j] == s[j + 1];
        }
      }
      DistinctCard(t);
      assert s[0] !in t by {
        forall i | 0 <= i < |t| ensures t[i] != s[0] {
          assert t[i] == s[i + 1];
        }
      }
      assert (set x | x in s) == (set x | x in t) + {s[0]} by {
        assert s == [s[0]] + t;
      }
    }
  }

  lemma UniqueKeysDistinct<V>(t: Table<V>)
    requires UniqueKeys(t)
    ensures Distinct(Keys(t))
  {
  }

  /** Once validation passes on dicts, the metadata and the validity
      objects name exactly the same extractors. */
  lemma ValidatedKeysAgree<R>(extractors: seq<string>, priors: Table<Table<real>>,
                              metadata: Table<R>, valid: Table<Table<real>>)
    requires UniqueKeys(metadata) && UniqueKeys(valid)
    requires Validate(extractors, priors, metadata, valid).Ok?
    ensures forall k :: HasKey(metadata, k) <==> HasKey(valid, k)
  {
    var a := set x | x in Keys(metadata);
    var b := set x | x in Keys(valid);
    UniqueKeysDistinct(metadata);
    UniqueKeysDistinct(valid);
    DistinctCard(Keys(metadata));
    DistinctCard(Keys(valid));
    assert a <= b;
    SubsetCard(a, b);
    forall k ensures HasKey(metadata, k) <==> HasKey(valid, k) {
      assert HasKey(metadata, k) <==> k in a;
      assert HasKey(valid, k) <==> k in b;
    }
  }

  // ---------------------------------------------------------------------
  // Similarity of field values

  /** `type(v) in [int, float]`; booleans are excluded. */
  predicate Numeric(v: Value) { v.Int? || v.Real? }

  function NumberOf(v: Value): real
    requires Numeric(v)
  {
    if v.Int? then v.i as real else v.r
  }

  function Abs(x: real): real { Max(x, -1.0 * x) }

  /** `_similarity_int_float`: one minus the absolute difference relative
      to the mean of the two, and zero when that mean is zero. Values of
      mixed sign or negative values fall outside [0, 1]. */
  function NumberSimilarity(a: real, b: real): (r: real)
    ensures a + b == 0.0 ==> r == 0.0
    ensures a == b && a != 0.0 ==> r == 1.0
    ensures 0.0 <= a && 0.0 <= b ==> -1.0 <= r <= 1.0
    ensures 0.0 <= a && 0.0 <= b && a + b > 0.0 ==> (r == 1.0 <==> a == b)
    ensures a + b < 0.0 && a != b ==> r > 1.0
  {
    var diff := a - b;
    var mean := (a + b) / 2.0;
    if mean == 0.0 then 0.0
    else
      var r := 1.0 - Abs(diff) / mean;
      assert mean > 0.0 ==> Abs(diff) / mean * mean == Abs(diff);
      assert 0.0 <= a && 0.0 <= b && mean > 0.0 ==> Abs(diff) <= 2.0 * mean;
      assert mean < 0.0 && a != b ==> Abs(diff) / mean < 0.0;
      r
  }

  lemma NumberSimilaritySymmetric(a: real, b: real)
    ensures NumberSimilarity(a, b) == NumberSimilarity(b, a)
  {
  }

  /** Two numbers of different sizes, and two negative numbers, fall
      outside the promised range. */
  lemma NumberSimilarityOutOfRange()
    ensures NumberSimilarity(0.0, 1.0) == -1.0
    ensures NumberSimilarity(-1.0, -2.0) == 5.0 / 3.0
  {
  }

  /** The similarity `_similarity_int_float` promises: one minus the
      absolute difference relative to the mean magnitude, floored at zero,
      so it stays in [0, 1] for numbers of any sign. */
  function BoundedNumberSimilarity(a: real, b: real): (r: real)
    ensures 0.0 <= r <= 1.0
    ensures a != 0.0 || b != 0.0 ==> (r == 1.0 <==> a == b)
    ensures 0.0 <= a && 0.0 <= b && NumberSimilarity(a, b) >= 0.0 ==> r == NumberSimilarity(a, b)
  {
    var scale := (Abs(a) + Abs(b)) / 2.0;
    if scale == 0.0 then 0.0
    else
      assert Abs(a - b) / scale >= 0.0;
      assert Abs(a - b) / scale == 0.0 <==> a == b by {
        assert Abs(a - b) / scale * scale == Abs(a - b);
      }
      Max(0.0, 1.0 - Abs(a - b) / scale)
  }

  lemma BoundedNumberSimilaritySymmetric(a: real, b: real)
    ensures BoundedNumberSimilarity(a, b) == BoundedNumberSimilarity(b, a)
  {
    assert Abs(a - b) == Abs(b - a);
  }

  /** `_similarity_str`: the share of the longer length that the edit
      distance leaves untouched; zero for two empty strings. */
  function StrSimilarity(a: string, b: string): (r: real)
    ensures 0.0 <= r <= 1.0
    ensures |a| == 0 && |b| == 0 ==> r == 0.0
    ensures r == 1.0 <==> a == b && |a| > 0
  {
    var n := Levenshtein.MaxLen(a, b);
    if n == 0 then 0.0
    else
      Levenshtein.DistanceAtMostMaxLen(a, b);
      Levenshtein.DistanceZeroIff(a, b);
      var d := Levenshtein.Distance(a, b);
      RatioWithin((n - d) as real, n as real);
      assert (n - d) as real / n as real == 1.0 <==> d == 0 by {
        assert (n - d) as real / n as real * n as real == (n - d) as real;
      }
      (n - d) as real / n as real
  }

  lemma StrSimilaritySymmetric(a: string, b: string)
    ensures StrSimilarity(a, b) == StrSimilarity(b, a)
  {
    Levenshtein.DistanceSymmetric(a, b);
  }

  /** The branches of `_similarity` that compare scalars: two numbers, two
      strings, and zero for any other pair, mixed kinds included. */
  function ScalarSimilarity(a: Value, b: Value): (r: real)
    ensures Numeric(a) && Numeric(b) ==> r == NumberSimilarity(NumberOf(a), NumberOf(b))
    ensures a.Str? && b.Str? ==> r == StrSimilarity(a.s, b.s)
    ensures !(Numeric(a) && Numeric(b)) && !(a.Str? && b.Str?) ==> r == 0.0
  {
    if Numeric(a) && Numeric(b) then NumberSimilarity(NumberOf(a), NumberOf(b))
    else if a.Str? && b.Str? then StrSimilarity(a.s, b.s)
    else 0.0
  }

  /** Size of a value tree, which shrinks from a dict to any of its values. */
  function Size(v: Value): (n: nat)
    ensures n >= 1
    decreases v, 1
  {
    match v
    case List(items) => 1 + ItemsSize(items)
    case Dict(entries) => 1 + EntriesSize(entries)
    case _ => 1
  }

  function ItemsSize(items: seq<Value>): nat
    decreases items, 0
  {
    if |items| == 0 then 0 else Size(items[0]) + ItemsSize(items[1..])
  }

  function EntriesSize(entries: Table<Value>): nat
    decreases entries, 0
  {
    if |entries| == 0 then 0
    else
      assert entries[0] in entries && entries[0].1 < entries[0];
      Size(entries[0].1) + EntriesSize(entries[1..])
  }

  lemma {:induction false} DictGetSmaller(entries: Table<Value>, k: string)
    requires HasKey(entries, k)
    ensures Size(DictGet(entries, k)) <= EntriesSize(entries)
  {
    assert Keys(entries) == [entries[0].0] + Keys(entries[1..]);
    if entries[0].0 != k {
      DictGetSmaller(entries[1..], k);
    }
  }

  lemma PairGetSmaller(a: Table<Value>, b: Table<Value>, k: string)
    requires HasKey(a, k) || HasKey(b, k)
    ensures Size(DictGet(a, k)) + Size(DictGet(b, k)) < Size(Dict(a)) + Size(Dict(b))
  {
    if HasKey(a, k) { DictGetSmaller(a, k); }
    if HasKey(b, k) { DictGetSmaller(b, k); }
  }

  /** The keys of `a`, then those of `b` that `a` lacks: the union that
      `_similarity_dict` compares over. */
  function KeyUnion(a: Table<Value>, b: Table<Value>): (ks: seq<string>)
    ensures forall k :: k in ks <==> HasKey(a, k) || HasKey(b, k)
  {
    Keys(a) + KeysMissing(Keys(b), a)
  }

  function KeysMissing(ks: seq<string>, a: Table<Value>): (r: seq<string>)
    ensures forall k :: k in r <==> k in ks && !HasKey(a, k)
  {
    if |ks| == 0 then []
    else (if HasKey(a, ks[0]) then [] else [ks[0]]) + KeysMissing(ks[1..], a)
  }

  /** `_similarity`: numbers and strings as above, dicts by the mean
      similarity over their key union (absent keys read as None), and two
      lists by `listSim`, which stands for the list alignment of the
      current merge package. Any other pair scores zero. */
  function Similarity(listSim: (seq<Value>, seq<Value>) -> Result<real>, a: Value, b: Value): (r: Result<real>)
    ensures !(a.Dict? && b.Dict?) && !(a.List? && b.List?) ==> r == Ok(ScalarSimilarity(a, b))
    ensures a.Dict? && b.Dict? && |a.entries| == 0 && |b.entries| == 0 ==> r == Err(StatisticsError)
    decreases Size(a) + Size(b), 1
  {
    if a.Dict? && b.Dict? then DictSimilarity(listSim, a.entries, b.entries)
    else if a.List? && b.List? then listSim(a.items, b.items)
    else Ok(ScalarSimilarity(a, b))
  }

  /** `_similarity_dict`: the mean of the per-key similarities; the first
      failing comparison's exception propagates, and two empty dicts leave
      nothing to average. */
  function DictSimilarity(listSim: (seq<Value>, seq<Value>) -> Result<real>, a: Table<Value>, b: Table<Value>): (r: Result<real>)
    ensures |a| == 0 && |b| == 0 ==> r == Err(StatisticsError)
    decreases Size(Dict(a)) + Size(Dict(b)), 0
  {
    match KeyScores(listSim, a, b, KeyUnion(a, b))
    case Err(e) => Err(e)
    case Ok(scores) => Mean(scores)
  }

  function KeyScores(listSim: (seq<Value>, seq<Value>) -> Result<real>, a: Table<Value>, b: Table<Value>,
                     keys: seq<string>): (r: Result<seq<real>>)
    requires forall k :: k in keys ==> HasKey(a, k) || HasKey(b, k)
    ensures r.Ok? ==> |r.value| == |keys|
    decreases Size(Dict(a)) + Size(Dict(b)), 0, |keys|
  {
    if |keys| == 0 then Ok([])
    else
      var k := keys[0];
      PairGetSmaller(a, b, k);
      match Similarity(listSim, DictGet(a, k), DictGet(b, k))
      case Err(e) => Err(e)
      case Ok(s) =>
        match KeyScores(listSim, a, b, keys[1..])
        case Err(e) => Err(e)
        case Ok(rest) => Ok([s] + rest)
  }

  // ---------------------------------------------------------------------
  // Pooling

  /** Lists, dicts and dataclass instances have no hash. */
  predicate Hashable(v: Value) { !v.List? && !v.Dict? && !v.Obj? }

  /** `_prep_value`: an unhashable value is replaced by its `str`, so it
      can be a dict key. */
  function Prepared(fmt: real -> string, v: Value): (k: Value)
    ensures Hashable(k)
    ensures Hashable(v) ==> k == v
    ensures !Hashable(v) ==> k == Str(Repr(v, fmt))
  {
    if Hashable(v) then v else Str(Show(v, fmt))
  }

  /** Pooling compares prepared values only, so the dict and list branches
      of `_similarity` are never reached from it. */
  lemma PreparedSimilarity(listSim: (seq<Value>, seq<Value>) -> Result<real>, fmt: real -> string, a: Value, b: Value)
    ensures Similarity(listSim, Prepared(fmt, a), Prepared(fmt, b))
            == Ok(ScalarSimilarity(Prepared(fmt, a), Prepared(fmt, b)))
  {
  }

  /** Booleans and numbers are equal dict keys when their values are
      (`True == 1 == 1.0`). */
  predicate KeyNumber(v: Value) { v.Bool? || v.Int? || v.Real? }

  function KeyNumberOf(v: Value): real
    requires KeyNumber(v)
  {
    match v
    case Bool(b) => if b then 1.0 else 0.0
    case Int(i) => i as real
    case Real(r) => r
  }

  /** Python equality of two hashable keys, which decides whether they are
      the same dict key. */
  predicate Same(a: Value, b: Value)
  {
    if KeyNumber(a) && KeyNumber(b) then KeyNumberOf(a) == KeyNumberOf(b) else a == b
  }

  /** A key equal to one key and unequal to another tells the two apart. */
  lemma SameApart(a: Value, k: Value, other: Value)
    requires Same(a, k) && !Same(k, other)
    ensures !Same(a, other)
  {
  }

  /** One pooled value: its dict key, the field value it was prepared from
      (what `_cast_value` recovers), and its accumulated weight. */
  datatype Candidate = Candidate(key: Value, original: Value, weight: real)

  /** The `Counter` of one field, in insertion order. */
  type Bucket = seq<Candidate>

  /** Whether some candidate's key equals `k`. */
  predicate Holds(b: Bucket, k: Value)
  {
    exists c :: c in b && Same(c.key, k)
  }

  /** `counter[k]`, zero for a key never added. */
  function WeightOf(b: Bucket, k: Value): real
  {
    if |b| == 0 then 0.0
    else if Same(b[0].key, k) then b[0].weight
    else WeightOf(b[1..], k)
  }

  /** `counter[k] += w`: the candidate with key `k` gains `w` and keeps
      its place, or a new candidate is appended. */
  function Add(b: Bucket, k: Value, original: Value, w: real): (r: Bucket)
  {
    if |b| == 0 then [Candidate(k, original, w)]
    else if Same(b[0].key, k) then [b[0].(weight := b[0].weight + w)] + b[1..]
    else [b[0]] + Add(b[1..], k, original, w)
  }

  /** `del counter[k]`. */
  function Remove(b: Bucket, k: Value): (r: Bucket)
  {
    if |b| == 0 then []
    else if Same(b[0].key, k) then b[1..]
    else [b[0]] + Remove(b[1..], k)
  }

  /** `sum(counter.values())`. */
  function Total(b: Bucket): real
  {
    if |b| == 0 then 0.0 else b[0].weight + Total(b[1..])
  }

  lemma {:induction false} AddAbsent(b: Bucket, k: Value, original: Value, w: real)
    requires !Holds(b, k)
    ensures Add(b, k, original, w) == b + [Candidate(k, original, w)]
  {
    if |b| > 0 {
      assert b[0] in b;
      assert !Holds(b[1..], k) by {
        forall c | c in b[1..] ensures !Same(c.key, k) {
          assert c in b;
        }
      }
      AddAbsent(b[1..], k, original, w);
      assert b == [b[0]] + b[1..];
    }
  }

  lemma {:induction false} AddWeight(b: Bucket, k: Value, original: Value, w: real)
    ensures WeightOf(Add(b, k, original, w), k) == WeightOf(b, k) + w
  {
    if |b| > 0 && !Same(b[0].key, k) {
      AddWeight(b[1..], k, original, w);
    }
  }

  /** Adding to one key leaves the weight of a different key alone. */
  lemma {:induction false} WeightOfAddOther(b: Bucket, k: Value, original: Value, w: real, other: Value)
    requires !Same(k, other)
    ensures WeightOf(Add(b, k, original, w), other) == WeightOf(b, other)
  {
    if |b| > 0 {
      if Same(b[0].key, k) {
        SameApart(b[0].key, k, other);
        var c := b[0].(weight := b[0].weight + w);
        assert Add(b, k, original, w) == [c] + b[1..];
        WeightOfCons(c, b[1..], other);
      } else {
        WeightOfAddOther(b[1..], k, original, w, other);
        WeightOfCons(b[0], Add(b[1..], k, original, w), other);
      }
    }
  }

  /** The weight of a key in front of a bucket. */
  lemma WeightOfCons(c: Candidate, rest: Bucket, k: Value)
    ensures WeightOf([c] + rest, k) == if Same(c.key, k) then c.weight else WeightOf(rest, k)
  {
    assert ([c] + rest)[1..] == rest;
  }

  lemma {:induction false} TotalAdd(b: Bucket, k: Value, original: Value, w: real)
    ensures Total(Add(b, k, original, w)) == Total(b) + w
  {
    if |b| > 0 && !Same(b[0].key, k) {
      TotalAdd(b[1..], k, original, w);
    }
  }

  lemma {:induction false} TotalRemove(b: Bucket, k: Value)
    ensures Total(Remove(b, k)) == Total(b) - WeightOf(b, k)
  {
    if |b| > 0 && !Same(b[0].key, k) {
      TotalRemove(b[1..], k);
    }
  }

  /** One candidate of the snapshot that the incoming value resembles: a
      different value with strictly more weight takes the candidate's place
      and inherits its weight; otherwise the candidate gains `p`. */
  function Step(b: Bucket, prev: Candidate, key: Value, original: Value, p: real): Bucket
  {
    var pPrev := WeightOf(b, prev.key);
    if p > pPrev && !Same(key, prev.key) then Remove(Add(b, key, original, p + pPrev), prev.key)
    else Add(b, prev.key, prev.original, p)
  }

  lemma TakeOverTotal(b: Bucket, prevKey: Value, key: Value, original: Value, p: real, pPrev: real)
    requires pPrev == WeightOf(b, prevKey) && !Same(key, prevKey)
    ensures Total(Remove(Add(b, key, original, p + pPrev), prevKey)) == Total(b) + p
  {
    var a := Add(b, key, original, p + pPrev);
    TotalAdd(b, key, original, p + pPrev);
    TotalRemove(a, prevKey);
    WeightOfAddOther(b, key, original, p + pPrev, prevKey);
  }

  /** Whichever branch is taken, the bucket's total grows by exactly `p`. */
  lemma StepTotal(b: Bucket, prev: Candidate, key: Value, original: Value, p: real)
    ensures Total(Step(b, prev, key, original, p)) == Total(b) + p
  {
    var pPrev := WeightOf(b, prev.key);
    if p > pPrev && !Same(key, prev.key) {
      TakeOverTotal(b, prev.key, key, original, p, pPrev);
    } else {
      TotalAdd(b, prev.key, prev.original, p);
    }
  }

  /** The loop of `_pool` over a snapshot of the bucket's keys for one
      incoming value; it does not stop at the first similar candidate. The
      flag says whether any candidate was similar enough. */
  function Visit(sim: (Value, Value) -> real, b: Bucket, prevs: seq<Candidate>, key: Value,
                 original: Value, p: real, threshold: real): (r: (Bucket, bool))
    ensures r.1 <==> exists j :: 0 <= j < |prevs| && sim(key, prevs[j].key) >= threshold
    decreases |prevs|
  {
    if |prevs| == 0 then (b, false)
    else
      var hit := sim(key, prevs[0].key) >= threshold;
      var b' := if hit then Step(b, prevs[0], key, original, p) else b;
      var rest := Visit(sim, b', prevs[1..], key, original, p, threshold);
      assert forall j :: 1 <= j < |prevs| ==> prevs[j] == prevs[1..][j - 1];
      (rest.0, rest.1 || hit)
  }

  /** How many candidates of the snapshot the value resembles. */
  function SimilarCount(sim: (Value, Value) -> real, prevs: seq<Candidate>, key: Value, threshold: real): nat
  {
    if |prevs| == 0 then 0
    else (if sim(key, prevs[0].key) >= threshold then 1 else 0) + SimilarCount(sim, prevs[1..], key, threshold)
  }

  /** `p` added up `n` times. */
  function Times(p: real, n: nat): real
  {
    if n == 0 then 0.0 else p + Times(p, n - 1)
  }

  lemma {:induction false} TimesIsProduct(p: real, n: nat)
    ensures Times(p, n) == p * n as real
  {
    if n > 0 {
      TimesIsProduct(p, n - 1);
      assert p * n as real == p + p * (n - 1) as real;
    }
  }

  lemma {:induction false} VisitTotal(sim: (Value, Value) -> real, b: Bucket, prevs: seq<Candidate>, key: Value,
                                      original: Value, p: real, threshold: real)
    ensures Total(Visit(sim, b, prevs, key, original, p, threshold).0)
            == Total(b) + Times(p, SimilarCount(sim, prevs, key, threshold))
    decreases |prevs|
  {
    if |prevs| > 0 {
      var hit := sim(key, prevs[0].key) >= threshold;
      var b' := if hit then Step(b, prevs[0], key, original, p) else b;
      assert Visit(sim, b, prevs, key, original, p, threshold).0
             == Visit(sim, b', prevs[1..], key, original, p, threshold).0;
      VisitTotal(sim, b', prevs[1..], key, original, p, threshold);
      if hit {
        StepTotal(b, prevs[0], key, original, p);
      }
    }
  }

  /** The whole treatment of one non-None value in its field's bucket: the
      similar candidates are visited in order and, if there was none, the
      value is added with its own weight. */
  function PoolValue(sim: (Value, Value) -> real, b: Bucket, key: Value, original: Value,
                     p: real, threshold: real): (r: Bucket)
  {
    var visited := Visit(sim, b, b, key, original, p, threshold);
    if visited.1 then visited.0 else Add(visited.0, key, original, p)
  }

  /** Because the loop does not break, the value's weight enters the bucket
      once for every similar candidate, and once if there is none. */
  lemma PoolValueTotal(sim: (Value, Value) -> real, b: Bucket, key: Value, original: Value,
                       p: real, threshold: real)
    ensures var n := SimilarCount(sim, b, key, threshold);
            Total(PoolValue(sim, b, key, original, p, threshold))
            == Total(b) + Times(p, if n == 0 then 1 else n)
  {
    var visited := Visit(sim, b, b, key, original, p, threshold);
    var n := SimilarCount(sim, b, key, threshold);
    VisitTotal(sim, b, b, key, original, p, threshold);
    SimilarCountPositive(sim, b, key, threshold);
    if !visited.1 {
      TotalAdd(visited.0, key, original, p);
    }
  }

  lemma {:induction false} SimilarCountPositive(sim: (Value, Value) -> real, prevs: seq<Candidate>, key: Value, threshold: real)
    ensures SimilarCount(sim, prevs, key, threshold) > 0
            <==> exists j :: 0 <= j < |prevs| && sim(key, prevs[j].key) >= threshold
  {
    if |prevs| > 0 {
      SimilarCountPositive(sim, prevs[1..], key, threshold);
      assert forall j :: 1 <= j < |prevs| ==> prevs[j] == prevs[1..][j - 1];
    }
  }

  lemma VisitUnmatched(sim: (Value, Value) -> real, b: Bucket, prevs: seq<Candidate>, key: Value,
                       original: Value, p: real, threshold: real)
    requires forall j :: 0 <= j < |prevs| ==> sim(key, prevs[j].key) < threshold
    ensures Visit(sim, b, prevs, key, original, p, threshold) == (b, false)
    decreases |prevs|
  {
    if |prevs| > 0 {
      assert forall j :: 1 <= j < |prevs| ==> prevs[j] == prevs[1..][j - 1];
      VisitUnmatched(sim, b, prevs[1..], key, original, p, threshold);
    }
  }

  /** A value resembling no candidate is added under its own key with its
      own weight. */
  lemma PoolValueFresh(sim: (Value, Value) -> real, b: Bucket, key: Value, original: Value,
                       p: real, threshold: real)
    requires forall j :: 0 <= j < |b| ==> sim(key, b[j].key) < threshold
    ensures PoolValue(sim, b, key, original, p, threshold) == Add(b, key, original, p)
  {
    VisitUnmatched(sim, b, b, key, original, p, threshold);
  }

  /** A different, similar value with strictly more weight replaces the
      candidate and carries both weights. */
  lemma PoolValueTakesOver(sim: (Value, Value) -> real, c: Candidate, key: Value, original: Value,
                           p: real, threshold: real)
    requires sim(key, c.key) >= threshold && p > c.weight && !Same(key, c.key)
    ensures PoolValue(sim, [c], key, original, p, threshold) == [Candidate(key, original, p + c.weight)]
  {
    assert WeightOf([c], c.key) == c.weight;
    var a := Add([c], key, original, p + c.weight);
    assert [c][1..] == [];
    assert a == [c] + Add([], key, original, p + c.weight);
    assert Remove(a, c.key) == a[1..];
    assert Visit(sim, [c], [c], key, original, p, threshold) == (Remove(a, c.key), true);
  }

  /** Otherwise the similar candidate keeps its key and gains `p`. */
  lemma PoolValueJoins(sim: (Value, Value) -> real, c: Candidate, key: Value, original: Value,
                       p: real, threshold: real)
    requires sim(key, c.key) >= threshold && !(p > c.weight && !Same(key, c.key))
    ensures PoolValue(sim, [c], key, original, p, threshold) == [c.(weight := c.weight + p)]
  {
    assert WeightOf([c], c.key) == c.weight;
    assert [c][1..] == [];
    assert Add([c], c.key, c.original, p) == [c.(weight := c.weight + p)];
    assert Visit(sim, [c], [c], key, original, p, threshold)
           == (Add([c], c.key, c.original, p), true);
  }

  /** Two distinct similar candidates that both outweigh the value each
      gain its weight: the loop has no `break`. */
  lemma PoolValueNoBreak(sim: (Value, Value) -> real, c1: Candidate, c2: Candidate, key: Value,
                         original: Value, p: real, threshold: real)
    requires sim(key, c1.key) >= threshold && sim(key, c2.key) >= threshold
    requires p <= c1.weight && p <= c2.weight && !Same(c1.key, c2.key)
    ensures PoolValue(sim, [c1, c2], key, original, p, threshold)
            == [c1.(weight := c1.weight + p), c2.(weight := c2.weight + p)]
  {
    var b := [c1, c2];
    assert b[1..] == [c2] && b[1..][1..] == [];
    assert WeightOf(b, c1.key) == c1.weight;
    var b1 := Add(b, c1.key, c1.original, p);
    assert b1 == [c1.(weight := c1.weight + p), c2];
    assert b1[1..] == [c2];
    assert WeightOf(b1, c2.key) == c2.weight;
    var b2 := Add(b1, c2.key, c2.original, p);
    assert b2 == [c1.(weight := c1.weight + p)] + Add([c2], c2.key, c2.original, p);
    assert b2 == [c1.(weight := c1.weight + p), c2.(weight := c2.weight + p)];
    assert Visit(sim, b1, [c2], key, original, p, threshold) == (b2, true);
  }

  predicate NonNegative(b: Bucket)
  {
    forall c :: c in b ==> c.weight >= 0.0
  }

  lemma NonNegativeTail(b: Bucket)
    requires |b| > 0 && NonNegative(b)
    ensures b[0].weight >= 0.0 && NonNegative(b[1..])
  {
    assert b[0] in b;
    forall c | c in b[1..] ensures c.weight >= 0.0 {
      assert c in b;
    }
  }

  lemma {:induction false} AddNonNegative(b: Bucket, k: Value, original: Value, w: real)
    requires NonNegative(b) && w >= 0.0
    ensures NonNegative(Add(b, k, original, w))
  {
    if |b| > 0 {
      NonNegativeTail(b);
      if !Same(b[0].key, k) {
        AddNonNegative(b[1..], k, original, w);
      }
    }
  }

  lemma {:induction false} RemoveNonNegative(b: Bucket, k: Value)
    requires NonNegative(b)
    ensures NonNegative(Remove(b, k))
  {
    if |b| > 0 {
      NonNegativeTail(b);
      if !Same(b[0].key, k) {
        RemoveNonNegative(b[1..], k);
      }
    }
  }

  lemma {:induction false} WeightOfNonNegative(b: Bucket, k: Value)
    requires NonNegative(b)
    ensures WeightOf(b, k) >= 0.0
  {
    if |b| > 0 {
      NonNegativeTail(b);
      if !Same(b[0].key, k) {
        WeightOfNonNegative(b[1..], k);
      }
    }
  }

  lemma TakeOverNonNegative(b: Bucket, prevKey: Value, key: Value, original: Value, p: real)
    requires NonNegative(b) && p >= 0.0
    ensures NonNegative(Remove(Add(b, key, original, p + WeightOf(b, prevKey)), prevKey))
  {
    var pPrev := WeightOf(b, prevKey);
    WeightOfNonNegative(b, prevKey);
    AddNonNegative(b, key, original, p + pPrev);
    RemoveNonNegative(Add(b, key, original, p + pPrev), prevKey);
  }

  lemma StepNonNegative(b: Bucket, prev: Candidate, key: Value, original: Value, p: real)
    requires NonNegative(b) && p >= 0.0
    ensures NonNegative(Step(b, prev, key, original, p))
  {
    var pPrev := WeightOf(b, prev.key);
    if p > pPrev && !Same(key, prev.key) {
      TakeOverNonNegative(b, prev.key, key, original, p);
    } else {
      AddNonNegative(b, prev.key, prev.original, p);
      assert Step(b, prev, key, original, p) == Add(b, prev.key, prev.original, p);
    }
  }

  lemma {:induction false} VisitNonNegative(sim: (Value, Value) -> real, b: Bucket, prevs: seq<Candidate>, key: Value,
                                            original: Value, p: real, threshold: real)
    requires NonNegative(b) && p >= 0.0
    ensures NonNegative(Visit(sim, b, prevs, key, original, p, threshold).0)
    decreases |prevs|
  {
    if |prevs| > 0 {
      var hit := sim(key, prevs[0].key) >= threshold;
      var b' := if hit then Step(b, prevs[0], key, original, p) else b;
      if hit {
        StepNonNegative(b, prevs[0], key, original, p);
      }
      assert Visit(sim, b, prevs, key, original, p, threshold).0
             == Visit(sim, b', prevs[1..], key, original, p, threshold).0;
      VisitNonNegative(sim, b', prevs[1..], key, original, p, threshold);
    }
  }

  /** Non-negative weights stay non-negative. */
  lemma PoolValueNonNegative(sim: (Value, Value) -> real, b: Bucket, key: Value, original: Value,
                             p: real, threshold: real)
    requires NonNegative(b) && p >= 0.0
    ensures NonNegative(PoolValue(sim, b, key, original, p, threshold))
  {
    VisitNonNegative(sim, b, b, key, original, p, threshold);
    AddNonNegative(Visit(sim, b, b, key, original, p, threshold).0, key, original, p);
  }

  // ---------------------------------------------------------------------
  // Pooling every field of every extractor

  /** The weight of an extractor's value for a field. */
  type WeightFn = (string, Field) -> real

  /** The pooled buckets, one per field name, in order of first use. */
  type Pooled = Table<Bucket>

  predicate NonNegativeTable(t: Table<real>)
  {
    forall e :: e in t ==> e.1 >= 0.0
  }

  /** Every value of the table is a probability. */
  predicate ProbabilityTable(t: Table<real>)
  {
    forall e :: e in t ==> 0.0 <= e.1 <= 1.0
  }

  /** The extractor's prior for a field: its own prior for the field, else
      its `__all__` prior, else zero. */
  function FieldPrior(prior: Table<real>, name: string): (r: real)
    ensures HasKey(prior, name) ==> r == Get(prior, name).value
    ensures !HasKey(prior, name) && HasKey(prior, "__all__") ==> r == Get(prior, "__all__").value
    ensures !HasKey(prior, name) && !HasKey(prior, "__all__") ==> r == 0.0
  {
    var pExtr := GetOr(prior, "__all__", 0.0);
    GetOr(prior, name, pExtr)
  }

  /** `_prob_valid`: the value's validity for the field (zero when absent)
      times the extractor's prior for the field. */
  function Weight(validity: Table<real>, prior: Table<real>, name: string): (p: real)
    ensures !HasKey(validity, name) ==> p == 0.0
    ensures !HasKey(prior, name) && !HasKey(prior, "__all__") ==> p == 0.0
  {
    var pVal := GetOr(validity, name, 0.0);
    var pField := FieldPrior(prior, name);
    ZeroFactor(pVal, pField);
    pVal * pField
  }

  /** Equal factors give equal products. */
  lemma MulCongruence(a: real, b: real, c: real, d: real)
    requires a == c && b == d
    ensures a * b == c * d
  {
  }

  /** A zero factor gives a zero product. */
  lemma ZeroFactor(a: real, b: real)
    ensures a == 0.0 || b == 0.0 ==> a * b == 0.0
  {
  }

  /** A product of non-negative numbers is non-negative. */
  lemma ProductNonNegative(q: real, m: real)
    requires q >= 0.0 && m >= 0.0
    ensures q * m >= 0.0
  {
    if q > 0.0 && m > 0.0 { assert q * m > 0.0 * m; }
  }

  /** Looking up a non-negative table with a non-negative default. */
  lemma GetOrNonNegative(t: Table<real>, k: string, default: real)
    requires NonNegativeTable(t) && default >= 0.0
    ensures GetOr(t, k, default) >= 0.0
  {
    if HasKey(t, k) { assert (k, GetOr(t, k, default)) in t; }
  }

  /** Looking up a table of probabilities with a probability as default. */
  lemma GetOrProbability(t: Table<real>, k: string, default: real)
    requires ProbabilityTable(t) && 0.0 <= default <= 1.0
    ensures 0.0 <= GetOr(t, k, default) <= 1.0
  {
    if HasKey(t, k) { assert (k, GetOr(t, k, default)) in t; }
  }

  /** Factors in [0, 1] give a weight in [0, 1]. */
  lemma WeightOfFactors(validity: Table<real>, prior: Table<real>, name: string)
    requires 0.0 <= GetOr(validity, name, 0.0) <= 1.0
    requires 0.0 <= FieldPrior(prior, name) <= 1.0
    ensures 0.0 <= Weight(validity, prior, name) <= 1.0
  {
    ProductWithin(GetOr(validity, name, 0.0), FieldPrior(prior, name));
  }

  /** Non-negative factors give a non-negative weight. */
  lemma WeightOfNonNegativeFactors(validity: Table<real>, prior: Table<real>, name: string)
    requires GetOr(validity, name, 0.0) >= 0.0
    requires FieldPrior(prior, name) >= 0.0
    ensures Weight(validity, prior, name) >= 0.0
  {
    ProductNonNegative(GetOr(validity, name, 0.0), FieldPrior(prior, name));
  }

  /** Non-negative validities and priors give a non-negative weight. */
  lemma WeightNonNegative(validity: Table<real>, prior: Table<real>, name: string)
    requires NonNegativeTable(validity) && NonNegativeTable(prior)
    ensures Weight(validity, prior, name) >= 0.0
  {
    GetOrNonNegative(validity, name, 0.0);
    GetOrNonNegative(prior, "__all__", 0.0);
    GetOrNonNegative(prior, name, GetOr(prior, "__all__", 0.0));
    WeightOfNonNegativeFactors(validity, prior, name);
  }

  /** Validities and priors in [0, 1] give a weight in [0, 1]. */
  lemma WeightWithin(validity: Table<real>, prior: Table<real>, name: string)
    requires ProbabilityTable(validity) && ProbabilityTable(prior)
    ensures 0.0 <= Weight(validity, prior, name) <= 1.0
  {
    GetOrProbability(validity, name, 0.0);
    GetOrProbability(prior, "__all__", 0.0);
    GetOrProbability(prior, name, GetOr(prior, "__all__", 0.0));
    WeightOfFactors(validity, prior, name);
  }

  /** The weight of a value whose validity is stated. */
  lemma WeightStated(validity: Table<real>, prior: Table<real>, name: string, a: real)
    requires Get(validity, name) == Some(a)
    ensures Weight(validity, prior, name) == a * FieldPrior(prior, name)
  {
    MulCongruence(GetOr(validity, name, 0.0), FieldPrior(prior, name), a, FieldPrior(prior, name));
  }

  lemma SetKeepsUnique<V>(t: Table<V>, k: string, v: V)
    ensures UniqueKeys(t) ==> UniqueKeys(Set(t, k, v))
  {
    if UniqueKeys(t) { SetUnique(t, k, v); }
  }

  /** One field of one extractor's record: a None value is skipped;
      otherwise its prepared form is pooled into the field's bucket, which is
      created on first use. No other field's bucket changes. */
  function PoolField(sim: (Value, Value) -> real, fmt: real -> string, weight: WeightFn, threshold: real,
                     pooled: Pooled, extractor: string, record: Reference, f: Field): (r: Pooled)
    ensures FieldValue(record, f).Null? ==> r == pooled
    ensures forall k :: k != Name(f) ==> Get(r, k) == Get(pooled, k)
    ensures forall k :: HasKey(r, k) ==> HasKey(pooled, k) || k == Name(f)
    ensures UniqueKeys(pooled) ==> UniqueKeys(r)
  {
    var v := FieldValue(record, f);
    if v.Null? then pooled
    else
      var b := PoolValue(sim, GetOr(pooled, Name(f), []), Prepared(fmt, v), v, weight(extractor, f), threshold);
      var r := Set(pooled, Name(f), b);
      forall k | k != Name(f) ensures Get(r, k) == Get(pooled, k) {
        SetOther(pooled, Name(f), b, k);
      }
      SetKeepsUnique(pooled, Name(f), b);
      r
  }

  /** The inner loop of `_pool` over the fields of one record. */
  function PoolRecord(sim: (Value, Value) -> real, fmt: real -> string, weight: WeightFn, threshold: real,
                      pooled: Pooled, extractor: string, record: Reference, fields: seq<Field>): (r: Pooled)
    ensures forall k :: HasKey(r, k) ==> HasKey(pooled, k) || exists f :: f in fields && Name(f) == k
    ensures UniqueKeys(pooled) ==> UniqueKeys(r)
    decreases |fields|
  {
    if |fields| == 0 then pooled
    else
      var next := PoolField(sim, fmt, weight, threshold, pooled, extractor, record, fields[0]);
      var r := PoolRecord(sim, fmt, weight, threshold, next, extractor, record, fields[1..]);
      assert forall f :: f in fields[1..] ==> f in fields;
      r
  }

  /** `_pool`: every extractor's record in metadata order, and within it
      every arbitrated field. */
  function Pool(sim: (Value, Value) -> real, fmt: real -> string, weight: WeightFn, threshold: real,
                pooled: Pooled, records: seq<(string, Reference)>, fields: seq<Field>): (r: Pooled)
    ensures forall k :: HasKey(r, k) ==> HasKey(pooled, k) || exists f :: f in fields && Name(f) == k
    ensures UniqueKeys(pooled) ==> UniqueKeys(r)
    decreases |records|
  {
    if |records| == 0 then pooled
    else
      var next := PoolRecord(sim, fmt, weight, threshold, pooled, records[0].0, records[0].1, fields);
      Pool(sim, fmt, weight, threshold, next, records[1..], fields)
  }

  /** A field the record leaves None keeps its bucket through the record. */
  lemma {:induction false} PoolRecordSkipsNone(sim: (Value, Value) -> real, fmt: real -> string, weight: WeightFn,
                                               threshold: real, pooled: Pooled, extractor: string,
                                               record: Reference, fields: seq<Field>, f: Field)
    requires FieldValue(record, f).Null?
    ensures Get(PoolRecord(sim, fmt, weight, threshold, pooled, extractor, record, fields), Name(f)) == Get(pooled, Name(f))
    decreases |fields|
  {
    if |fields| > 0 {
      var next := PoolField(sim, fmt, weight, threshold, pooled, extractor, record, fields[0]);
      if fields[0] == f {
        assert next == pooled;
      } else {
        assert Name(fields[0]) != Name(f) by {
          if Name(fields[0]) == Name(f) { NameInjective(fields[0], f); }
        }
      }
      PoolRecordSkipsNone(sim, fmt, weight, threshold, next, extractor, record, fields[1..], f);
    }
  }

  /** `_pool` skips None: a field that every record leaves None is never
      pooled. */
  lemma {:induction false} PoolSkipsNone(sim: (Value, Value) -> real, fmt: real -> string, weight: WeightFn,
                                         threshold: real, pooled: Pooled, records: seq<(string, Reference)>,
                                         fields: seq<Field>, f: Field)
    requires forall i :: 0 <= i < |records| ==> FieldValue(records[i].1, f).Null?
    ensures Get(Pool(sim, fmt, weight, threshold, pooled, records, fields), Name(f)) == Get(pooled, Name(f))
    decreases |records|
  {
    if |records| > 0 {
      PoolRecordSkipsNone(sim, fmt, weight, threshold, pooled, records[0].0, records[0].1, fields, f);
      var next := PoolRecord(sim, fmt, weight, threshold, pooled, records[0].0, records[0].1, fields);
      assert forall i :: 1 <= i < |records| ==> records[1..][i - 1] == records[i];
      PoolSkipsNone(sim, fmt, weight, threshold, next, records[1..], fields, f);
    }
  }

  predicate AllNonNegative(pooled: Pooled)
  {
    forall e :: e in pooled ==> NonNegative(e.1)
  }

  ghost predicate WeightsNonNegative(weight: WeightFn)
  {
    forall e, f :: weight(e, f) >= 0.0
  }

  lemma PoolFieldNonNegative(sim: (Value, Value) -> real, fmt: real -> string, weight: WeightFn, threshold: real,
                             pooled: Pooled, extractor: string, record: Reference, f: Field)
    requires AllNonNegative(pooled) && WeightsNonNegative(weight)
    ensures AllNonNegative(PoolField(sim, fmt, weight, threshold, pooled, extractor, record, f))
  {
    var v := FieldValue(record, f);
    if !v.Null? {
      var before := GetOr(pooled, Name(f), []);
      assert NonNegative(before) by {
        if HasKey(pooled, Name(f)) { assert (Name(f), before) in pooled; }
      }
      var b := PoolValue(sim, before, Prepared(fmt, v), v, weight(extractor, f), threshold);
      PoolValueNonNegative(sim, before, Prepared(fmt, v), v, weight(extractor, f), threshold);
      SetEntries(pooled, Name(f), b);
    }
  }

  lemma {:induction false} PoolRecordNonNegative(sim: (Value, Value) -> real, fmt: real -> string, weight: WeightFn,
                                                 threshold: real, pooled: Pooled, extractor: string,
                                                 record: Reference, fields: seq<Field>)
    requires AllNonNegative(pooled) && WeightsNonNegative(weight)
    ensures AllNonNegative(PoolRecord(sim, fmt, weight, threshold, pooled, extractor, record, fields))
    decreases |fields|
  {
    if |fields| > 0 {
      PoolFieldNonNegative(sim, fmt, weight, threshold, pooled, extractor, record, fields[0]);
      var next := PoolField(sim, fmt, weight, threshold, pooled, extractor, record, fields[0]);
      PoolRecordNonNegative(sim, fmt, weight, threshold, next, extractor, record, fields[1..]);
    }
  }

  /** With non-negative weights every pooled weight is non-negative. */
  lemma {:induction false} PoolNonNegative(sim: (Value, Value) -> real, fmt: real -> string, weight: WeightFn,
                                           threshold: real, pooled: Pooled, records: seq<(string, Reference)>,
                                           fields: seq<Field>)
    requires AllNonNegative(pooled) && WeightsNonNegative(weight)
    ensures AllNonNegative(Pool(sim, fmt, weight, threshold, pooled, records, fields))
    decreases |records|
  {
    if |records| > 0 {
      PoolRecordNonNegative(sim, fmt, weight, threshold, pooled, records[0].0, records[0].1, fields);
      var next := PoolRecord(sim, fmt, weight, threshold, pooled, records[0].0, records[0].1, fields);
      PoolNonNegative(sim, fmt, weight, threshold, next, records[1..], fields);
    }
  }

  // ---------------------------------------------------------------------
  // Recovering field values

  /** Whether a dataclass instance occurs anywhere inside the value; its
      repr names a class that `eval` cannot resolve in this module. */
  predicate HoldsDataclass(v: Value)
    decreases v, 1
  {
    match v
    case Obj(_, _) => true
    case List(items) => exists i :: 0 <= i < |items| && HoldsDataclass(items[i])
    case Dict(entries) => exists i :: 0 <= i < |entries| && EntryHoldsDataclass(entries, i)
    case _ => false
  }

  predicate EntryHoldsDataclass(entries: Table<Value>, i: int)
    requires 0 <= i < |entries|
    decreases entries, 0
  {
    assert entries[i] in entries && entries[i].1 < entries[i];
    HoldsDataclass(entries[i].1)
  }

  /** The fields whose pooled text `_cast_value` evaluates. */
  predicate Evaluated(name: string) { name == "authors" || name == "identifiers" }

  /** `_cast_value`. A year is parsed with `int`, and text that is not an
      integer becomes None. Authors and identifiers were pooled as the `str`
      of a container, and `eval` of that text rebuilds the container: a list
      is itself again and a dict gives the list of its keys, unless a
      dataclass repr inside names a class not in scope. `eval` of a
      non-string raises TypeError. Text that was never a container is kept.
      Every other field keeps its pooled value. */
  function Cast(name: string, key: Value, original: Value): (r: Result<Value>)
    ensures name == "year" && key.Str? ==>
              r == Ok(match ParseInt(key.s) case Some(i) => Int(i) case None => Null)
    ensures name == "year" && key.Int? ==> r == Ok(key)
    ensures Evaluated(name) && !key.Str? ==> r == Err(TypeError)
    ensures Evaluated(name) && key.Str? && original.List? && !HoldsDataclass(original) ==> r == Ok(original)
    ensures Evaluated(name) && key.Str? && HoldsDataclass(original) ==> r == Err(NameError)
    ensures name != "year" && name != "authors" && name != "identifiers" ==> r == Ok(key)
  {
    if name == "year" then
      match IntOf(key)
      case Ok(i) => Ok(Int(i))
      case Err(ValueError(_)) => Ok(Null)
      case Err(e) => Err(e)
    else if Evaluated(name) then
      if !key.Str? then Err(TypeError)
      else if HoldsDataclass(original) then Err(NameError)
      else if original.List? then Ok(original)
      else if original.Dict? then Ok(List(KeyStrings(Keys(original.entries))))
      else Ok(key)
    else Ok(key)
  }

  /** One author of `_fix_authors`: a dict with given names and surname but
      no full name gets `"givennames surname"`; anything without `.get` is
      passed through. */
  function FixAuthor(fmt: real -> string, a: Value): (r: Value)
    ensures !a.Dict? ==> r == a
  {
    match a
    case Dict(e) =>
      var g := DictGet(e, "givennames");
      var s := DictGet(e, "surname");
      var f := DictGet(e, "fullname");
      if Truthy(g) && Truthy(s) && !Truthy(f) then Dict(Set(e, "fullname", Str(Show(g, fmt) + " " + Show(s, fmt))))
      else a
    case _ => a
  }

  /** The rule for a dict author, and nothing else about it changes. */
  lemma FixAuthorRule(fmt: real -> string, e: Table<Value>, k: string)
    requires k != "fullname"
    ensures var r := FixAuthor(fmt, Dict(e));
            r.Dict? && DictGet(r.entries, k) == DictGet(e, k)
    ensures var r := FixAuthor(fmt, Dict(e));
            var g := DictGet(e, "givennames");
            var s := DictGet(e, "surname");
            DictGet(r.entries, "fullname") ==
              if Truthy(g) && Truthy(s) && !Truthy(DictGet(e, "fullname"))
              then Str(Show(g, fmt) + " " + Show(s, fmt))
              else DictGet(e, "fullname")
  {
    var g := DictGet(e, "givennames");
    var s := DictGet(e, "surname");
    if Truthy(g) && Truthy(s) && !Truthy(DictGet(e, "fullname")) {
      var name := Str(Show(g, fmt) + " " + Show(s, fmt));
      assert FixAuthor(fmt, Dict(e)) == Dict(Set(e, "fullname", name));
      DictGetSet(e, "fullname", name, k);
    }
  }

  /** Filling in a full name twice changes nothing more. */
  lemma FixAuthorIdempotent(fmt: real -> string, a: Value)
    ensures FixAuthor(fmt, FixAuthor(fmt, a)) == FixAuthor(fmt, a)
  {
    if a.Dict? {
      var e := a.entries;
      var r := FixAuthor(fmt, a);
      FixAuthorRule(fmt, e, "givennames");
      FixAuthorRule(fmt, e, "surname");
      var g := DictGet(e, "givennames");
      var s := DictGet(e, "surname");
      if Truthy(g) && Truthy(s) && !Truthy(DictGet(e, "fullname")) {
        assert |Show(g, fmt) + " " + Show(s, fmt)| > 0;
        assert Truthy(DictGet(r.entries, "fullname"));
      } else {
        assert r == a;
      }
      FixAuthorStable(fmt, r.entries);
    }
  }

  /** An author that already has a full name, or lacks a given name or
      surname, is left alone. */
  lemma FixAuthorStable(fmt: real -> string, e: Table<Value>)
    requires !(Truthy(DictGet(e, "givennames")) && Truthy(DictGet(e, "surname")) && !Truthy(DictGet(e, "fullname")))
    ensures FixAuthor(fmt, Dict(e)) == Dict(e)
  {
  }

  /** `_fix_authors`: iterates its argument, so a list is fixed author by
      author, a string falls apart into its characters, a dict into its
      keys, and anything else raises TypeError. */
  function FixAuthors(fmt: real -> string, v: Value): (r: Result<Value>)
    ensures v.List? ==> (r.Ok? && r.value.List? && |r.value.items| == |v.items| &&
                         forall i :: 0 <= i < |v.items| ==> r.value.items[i] == FixAuthor(fmt, v.items[i]))
    ensures v.Str? ==> r == Ok(List(Chars(v.s)))
    ensures !v.List? && !v.Str? && !v.Dict? ==> r == Err(TypeError)
  {
    match v
    case List(items) => Ok(List(seq(|items|, i requires 0 <= i < |items| => FixAuthor(fmt, items[i]))))
    case Str(s) => Ok(List(Chars(s)))
    case Dict(entries) => Ok(List(KeyStrings(Keys(entries))))
    case _ => Err(TypeError)
  }

  lemma FixAuthorsIdempotent(fmt: real -> string, items: seq<Value>)
    ensures FixAuthors(fmt, FixAuthors(fmt, List(items)).value) == FixAuthors(fmt, List(items))
  {
    var once := FixAuthors(fmt, List(items)).value;
    var twice := FixAuthors(fmt, once).value;
    forall i | 0 <= i < |items| ensures twice.items[i] == once.items[i] {
      FixAuthorIdempotent(fmt, items[i]);
    }
    assert twice.items == once.items;
  }

  // ---------------------------------------------------------------------
  // Selection and scoring

  function Mark(v: Value): real
  {
    if Truthy(v) then 1.0 else 0.0
  }

  lemma Sum4(s: seq<real>)
    requires |s| == 4
    ensures Sum(s) == s[0] + s[1] + s[2] + s[3]
  {
    var t1 := s[1..];
    var t2 := t1[1..];
    var t3 := t2[1..];
    assert t1[0] == s[1] && t2[0] == s[2] && t3[0] == s[3] && t3[1..] == [];
    assert Sum(t3) == s[3] + Sum(t3[1..]);
    assert Sum(t2) == s[2] + Sum(t3);
    assert Sum(t1) == s[1] + Sum(t2);
  }

  /** `_score` on the values it reads: full marks for a truthy DOI or
      arXiv entry, otherwise the share of volume, source, year and authors
      that are truthy. */
  function Grade(doi: Value, arxiv: Value, volume: Value, source: Value, year: Value, authors: Value): (s: real)
    ensures 0.0 <= s <= 1.0
    ensures s == 1.0 <==>
              Truthy(doi) || Truthy(arxiv) || (Truthy(volume) && Truthy(source) && Truthy(year) && Truthy(authors))
    ensures !(Truthy(doi) || Truthy(arxiv) || Truthy(volume) || Truthy(source) || Truthy(year) || Truthy(authors)) ==>
              s == 0.0
  {
    if Truthy(doi) || Truthy(arxiv) then 1.0
    else
      var marks := [Mark(volume), Mark(source), Mark(year), Mark(authors)];
      Sum4(marks);
      MeanWithin(marks, 0.0, 1.0);
      assert Mean(marks).value == Sum(marks) / 4.0;
      Mean(marks).value
  }

  /** `_score` of the selected values, which it reads with `.get`. */
  function Quality(result: Table<Value>): (s: real)
    ensures 0.0 <= s <= 1.0
    ensures s == 1.0 <==>
              Truthy(DictGet(result, "doi")) || Truthy(DictGet(result, "arxiv")) ||
              (Truthy(DictGet(result, "volume")) && Truthy(DictGet(result, "source")) &&
               Truthy(DictGet(result, "year")) && Truthy(DictGet(result, "authors")))
  {
    Grade(DictGet(result, "doi"), DictGet(result, "arxiv"), DictGet(result, "volume"),
          DictGet(result, "source"), DictGet(result, "year"), DictGet(result, "authors"))
  }

  /** The shortcut key is `arxiv`, which is not a `Reference` field, so on
      a result built from fields only `doi` gives full marks outright. */
  lemma QualityOfFields(result: Table<Value>)
    requires forall k :: HasKey(result, k) ==> IsReferenceField(k)
    ensures Quality(result) == 1.0 <==>
              Truthy(DictGet(result, "doi")) ||
              (Truthy(DictGet(result, "volume")) && Truthy(DictGet(result, "source")) &&
               Truthy(DictGet(result, "year")) && Truthy(DictGet(result, "authors")))
  {
    assert !IsReferenceField("arxiv");
    assert DictGet(result, "arxiv") == Null;
    assert !Truthy(Null);
  }

  /** The arXiv identifier field plays no part in the score. */
  lemma QualityIgnoresArxivId(result: Table<Value>, v: Value)
    ensures Quality(Set(result, "arxiv_id", v)) == Quality(result)
  {
    SetOther(result, "arxiv_id", v, "doi");
    SetOther(result, "arxiv_id", v, "arxiv");
    SetOther(result, "arxiv_id", v, "volume");
    SetOther(result, "arxiv_id", v, "source");
    SetOther(result, "arxiv_id", v, "year");
    SetOther(result, "arxiv_id", v, "authors");
  }

  /** `_score` reading the arXiv identifier under its field name
      `arxiv_id`: a truthy identifier gives full marks, as a DOI does. */
  function IntendedQuality(result: Table<Value>): (s: real)
    ensures 0.0 <= s <= 1.0
    ensures s == 1.0 <==>
              Truthy(DictGet(result, "doi")) || Truthy(DictGet(result, "arxiv_id")) ||
              (Truthy(DictGet(result, "volume")) && Truthy(DictGet(result, "source")) &&
               Truthy(DictGet(result, "year")) && Truthy(DictGet(result, "authors")))
  {
    Grade(DictGet(result, "doi"), DictGet(result, "arxiv_id"), DictGet(result, "volume"),
          DictGet(result, "source"), DictGet(result, "year"), DictGet(result, "authors"))
  }

  /** On a result of reference fields the two scores differ only where an
      arXiv identifier is present: without one they agree. */
  lemma IntendedQualityAgrees(result: Table<Value>)
    requires forall k :: HasKey(result, k) ==> IsReferenceField(k)
    requires !Truthy(DictGet(result, "arxiv_id"))
    ensures IntendedQuality(result) == Quality(result)
  {
    assert !IsReferenceField("arxiv");
    assert DictGet(result, "arxiv") == Null;
  }

  /** A result holding only an arXiv identifier scores 0 as written and 1
      as intended. */
  lemma ArxivIdOnly(id: string)
    requires |id| > 0
    ensures Quality([("arxiv_id", Str(id))]) == 0.0
    ensures IntendedQuality([("arxiv_id", Str(id))]) == 1.0
  {
    var result := [("arxiv_id", Str(id))];
    assert DictGet(result, "arxiv_id") == Str(id);
    assert DictGet(result, "doi") == Null && DictGet(result, "arxiv") == Null;
    assert DictGet(result, "volume") == Null && DictGet(result, "source") == Null;
    assert DictGet(result, "year") == Null && DictGet(result, "authors") == Null;
  }

  function Weights(b: Bucket): (ws: seq<real>)
    ensures |ws| == |b| && forall i :: 0 <= i < |b| ==> ws[i] == b[i].weight
  {
    seq(|b|, i requires 0 <= i < |b| => b[i].weight)
  }

  function Normalized(ws: seq<real>, total: real): (ns: seq<real>)
    requires total != 0.0
    ensures |ns| == |ws| && forall i :: 0 <= i < |ws| ==> ns[i] == ws[i] / total
  {
    seq(|ws|, i requires 0 <= i < |ws| => ws[i] / total)
  }

  lemma DivideKeepsOrder(x: real, y: real, t: real)
    requires t > 0.0
    ensures x <= y <==> x / t <= y / t
    ensures x < y <==> x / t < y / t
  {
    assert x / t * t == x && y / t * t == y;
  }

  /** `argmax(norm_prob)`: normalising by a positive total does not change
      the winner, which is the first candidate of greatest weight. */
  function Pick(b: Bucket): (k: nat)
    requires |b| > 0 && Total(b) > 0.0
    ensures k < |b|
    ensures forall j :: 0 <= j < |b| ==> b[j].weight <= b[k].weight
    ensures forall j :: 0 <= j < k ==> b[j].weight < b[k].weight
  {
    var norm := Normalized(Weights(b), Total(b));
    var k := ArgMax(norm);
    forall j | 0 <= j < |b| ensures b[j].weight <= b[k].weight && (j < k ==> b[j].weight < b[k].weight) {
      DivideKeepsOrder(b[j].weight, b[k].weight, Total(b));
    }
    k
  }

  lemma {:induction false} WeightAtMostTotal(b: Bucket, i: nat)
    requires NonNegative(b) && i < |b|
    ensures 0.0 <= b[i].weight <= Total(b)
  {
    NonNegativeTail(b);
    if i > 0 {
      assert b[i] == b[1..][i - 1];
      WeightAtMostTotal(b[1..], i - 1);
    } else if |b| > 1 {
      TotalNonNegative(b[1..]);
    }
  }

  lemma {:induction false} TotalNonNegative(b: Bucket)
    requires NonNegative(b)
    ensures Total(b) >= 0.0
  {
    if |b| > 0 {
      NonNegativeTail(b);
      TotalNonNegative(b[1..]);
    }
  }

  lemma ShareWithin(b: Bucket, k: nat)
    requires k < |b| && Total(b) > 0.0
    ensures NonNegative(b) ==> 0.0 <= b[k].weight / Total(b) <= 1.0
  {
    if NonNegative(b) {
      WeightAtMostTotal(b, k);
      RatioWithin(b[k].weight, Total(b));
    }
  }

  lemma MeanWithinIf(s: seq<real>, cond: bool)
    requires cond ==> AllWithin(s, 0.0, 1.0)
    ensures cond && Mean(s).Ok? ==> 0.0 <= Mean(s).value <= 1.0
  {
    if cond && |s| > 0 { MeanWithin(s, 0.0, 1.0); }
  }

  /** One field of `_select`: nothing when its bucket is empty or its
      weights do not sum to a positive number; otherwise the first value of
      greatest weight, cast back to the field's type (authors also pass
      through `_fix_authors`), with its share of the bucket's weight. */
  function Choose(fmt: real -> string, name: string, b: Bucket): (r: Result<Option<(Value, real)>>)
    ensures |b| == 0 || Total(b) <= 0.0 ==> r == Ok(None)
    ensures |b| > 0 && Total(b) > 0.0 && r.Ok? ==> r.value.Some? && r.value.value.1 == b[Pick(b)].weight / Total(b)
    ensures |b| > 0 && Total(b) > 0.0 && name != "authors" ==>
              r == match Cast(name, b[Pick(b)].key, b[Pick(b)].original)
                   case Ok(v) => Ok(Some((v, b[Pick(b)].weight / Total(b))))
                   case Err(e) => Err(e)
    ensures NonNegative(b) && r.Ok? && r.value.Some? ==> 0.0 <= r.value.value.1 <= 1.0
  {
    if |b| == 0 || Total(b) <= 0.0 then Ok(None)
    else
      var norm := Normalized(Weights(b), Total(b));
      var k := Pick(b);
      var top := MaxOf(norm);
      assert top == b[k].weight / Total(b) by {
        DivideKeepsOrder(b[ArgMax(norm)].weight, b[k].weight, Total(b));
      }
      ShareWithin(b, k);
      match Cast(name, b[k].key, b[k].original)
      case Err(e) => Err(e)
      case Ok(v) =>
        if name == "authors" then
          match FixAuthors(fmt, v)
          case Err(e) => Err(e)
          case Ok(w) => Ok(Some((w, top)))
        else Ok(Some((v, top)))
  }

  /** The loop of `_select` over the pooled fields, in order: the chosen
      values keyed by field, and the winning shares. The first failure
      propagates. */
  function SelectAll(fmt: real -> string, pooled: Pooled): (r: Result<(Table<Value>, seq<real>)>)
    ensures r.Ok? ==> |r.value.1| <= |pooled|
  {
    if |pooled| == 0 then Ok(([], []))
    else
      var init := pooled[..|pooled| - 1];
      var last := pooled[|pooled| - 1];
      match SelectAll(fmt, init)
      case Err(e) => Err(e)
      case Ok(sofar) =>
        match Choose(fmt, last.0, last.1)
        case Err(e) => Err(e)
        case Ok(None) => Ok(sofar)
        case Ok(Some(choice)) => Ok((Set(sofar.0, last.0, choice.0), sofar.1 + [choice.1]))
  }

  /** With non-negative weights every winning share lies in [0, 1]. */
  lemma {:induction false} SelectAllShares(fmt: real -> string, pooled: Pooled)
    requires AllNonNegative(pooled) && SelectAll(fmt, pooled).Ok?
    ensures AllWithin(SelectAll(fmt, pooled).value.1, 0.0, 1.0)
  {
    if |pooled| > 0 {
      var init := pooled[..|pooled| - 1];
      var last := pooled[|pooled| - 1];
      assert last in pooled;
      assert forall e :: e in init ==> e in pooled;
      SelectAllShares(fmt, init);
    }
  }

  /** The value a field's choice contributes to the selection. */
  function ChoiceValue(r: Result<Option<(Value, real)>>): (v: Option<Value>)
    requires r.Ok?
    ensures v.Some? <==> r.value.Some?
    ensures v.Some? ==> v.value == r.value.value.0
  {
    match r.value
    case Some(choice) => Some(choice.0)
    case None => None
  }

  /** One step of the `_select` loop: the last field's choice is added to
      what the earlier fields selected, or nothing is when it has none. */
  lemma SelectAllLast(fmt: real -> string, pooled: Pooled)
    requires |pooled| > 0 && SelectAll(fmt, pooled).Ok?
    ensures var init := pooled[..|pooled| - 1];
            var last := pooled[|pooled| - 1];
            SelectAll(fmt, init).Ok? && Choose(fmt, last.0, last.1).Ok? &&
            SelectAll(fmt, pooled).value.0 ==
              match ChoiceValue(Choose(fmt, last.0, last.1))
              case None => SelectAll(fmt, init).value.0
              case Some(v) => Set(SelectAll(fmt, init).value.0, last.0, v)
  {
  }

  /** A field is in the selection exactly when its bucket has positive
      total weight, and then it holds that field's choice. */
  lemma {:induction false} SelectAllFields(fmt: real -> string, pooled: Pooled, k: string)
    requires UniqueKeys(pooled) && SelectAll(fmt, pooled).Ok?
    ensures var result := SelectAll(fmt, pooled).value.0;
            match Get(pooled, k)
            case None => Get(result, k) == None
            case Some(b) => Choose(fmt, k, b).Ok? && Get(result, k) == ChoiceValue(Choose(fmt, k, b))
  {
    if |pooled| > 0 {
      var init := pooled[..|pooled| - 1];
      var last := pooled[|pooled| - 1];
      UniqueInit(pooled);
      GetInitLast(pooled, k);
      SelectAllLast(fmt, pooled);
      SelectAllFields(fmt, init, k);
      var sofar := SelectAll(fmt, init).value.0;
      match ChoiceValue(Choose(fmt, last.0, last.1))
      case Some(v) =>
        if k != last.0 {
          SetOther(sofar, last.0, v, k);
        }
      case None =>
        if k == last.0 {
          assert !HasKey(sofar, k);
        }
    }
  }

  /** `_select`: the reference built from the chosen values and its score,
      `_score` times the mean winning share; with no field chosen the mean
      raises. */
  function Select(env: Env, pooled: Pooled): (r: Result<(Reference, real)>)
  {
    match SelectAll(env.formatReal, pooled)
    case Err(e) => Err(e)
    case Ok(sofar) => Finish(NewReference(env, sofar.0), Quality(sofar.0), sofar.1)
  }

  /** The end of `_select`: the outcome of `Reference(**result)`, then the
      quality times the mean share. */
  function Finish(made: Result<Reference>, quality: real, shares: seq<real>): (r: Result<(Reference, real)>)
    requires 0.0 <= quality <= 1.0
    ensures made.Err? ==> r == Err(made.error)
    ensures made.Ok? && |shares| == 0 ==> r == Err(StatisticsError)
    ensures r.Ok? ==> made.Ok? && |shares| > 0
    ensures r.Ok? ==> r.value.0 == made.value
    ensures r.Ok? ==> r.value.1 == quality * Mean(shares).value
    ensures AllWithin(shares, 0.0, 1.0) && r.Ok? ==> 0.0 <= r.value.1 <= 1.0
  {
    if made.Err? then Err(made.error)
    else if |shares| == 0 then Err(StatisticsError)
    else
      var m := Mean(shares).value;
      MeanWithinIf(shares, AllWithin(shares, 0.0, 1.0));
      ProductWithinIf(quality, m);
      Ok((made.value, quality * m))
  }

  lemma ProductWithinIf(q: real, m: real)
    requires 0.0 <= q <= 1.0
    ensures 0.0 <= m <= 1.0 ==> 0.0 <= q * m <= 1.0
  {
    if 0.0 <= m <= 1.0 { ProductWithin(q, m); }
  }

  /** With non-negative weights the score lies in [0, 1]. */
  lemma SelectScoreWithin(env: Env, pooled: Pooled)
    requires AllNonNegative(pooled) && Select(env, pooled).Ok?
    ensures 0.0 <= Select(env, pooled).value.1 <= 1.0
  {
    SelectAllShares(env.formatReal, pooled);
  }

  lemma ProductWithin(q: real, m: real)
    requires 0.0 <= q <= 1.0 && 0.0 <= m <= 1.0
    ensures 0.0 <= q * m <= 1.0
  {
    assert 0.0 <= q * m by {
      if q > 0.0 && m > 0.0 { assert q * m > 0.0 * m; }
    }
    assert q * m <= 1.0 * m;
  }

  // ---------------------------------------------------------------------
  // Arbitration

  /** The default minimum similarity for two values to share a bucket. */
  const DefaultThreshold := 0.9

  /** Every `Reference` field except `score` and `identifier`. */
  const ArbitratedFields: seq<Field> :=
    [Title, Raw, ArxivId, Authors, Reftype, Doi, Volume, Issue, Pages, Source, Year, Identifiers]

  lemma ArbitratedFieldsExclude(f: Field)
    ensures f in ArbitratedFields <==> f != Score && f != IdentifierField
  {
  }

  /** The weight function `arbitrate` builds from the validity and priors
      dicts. */
  function WeightsFrom(valid: Table<Table<real>>, priors: Table<Table<real>>): WeightFn
  {
    (e: string, f: Field) => Weight(GetOr(valid, e, []), GetOr(priors, e, []), Name(f))
  }

  /** `arbitrate`: the metadata, validity and priors lists become dicts,
      validation runs, the fields are pooled with `_similarity` at the given
      threshold, and `_select` decides. */
  function Arbitrate(env: Env, metadata: seq<(string, Reference)>, valid: seq<(string, Table<real>)>,
                     priors: seq<(string, Table<real>)>, threshold: real): Result<(Reference, real)>
  {
    Decide(env, FromPairs(metadata), FromPairs(valid), FromPairs(priors), threshold)
  }

  function Decide(env: Env, m: Table<Reference>, v: Table<Table<real>>, p: Table<Table<real>>,
                  threshold: real): Result<(Reference, real)>
  {
    match Validate(Keys(m), p, m, v)
    case Err(e) => Err(e)
    case Ok(_) => Select(env, Pool(ScalarSimilarity, env.formatReal, WeightsFrom(v, p), threshold, [], m, ArbitratedFields))
  }

  /** An extractor without priors fails validation before anything is
      pooled. */
  lemma ArbitrateMissingPriors(env: Env, metadata: seq<(string, Reference)>, valid: seq<(string, Table<real>)>,
                               priors: seq<(string, Table<real>)>, threshold: real, e: string)
    requires e in Keys(FromPairs(metadata)) && !HasKey(FromPairs(priors), e)
    ensures Arbitrate(env, metadata, valid, priors, threshold) == Err(ValueError(MissingPriors))
  {
  }

  /** Validation passes and the outcome is decided by the pooled values. */
  lemma ArbitrateValidated(env: Env, metadata: seq<(string, Reference)>, valid: seq<(string, Table<real>)>,
                           priors: seq<(string, Table<real>)>, threshold: real)
    ensures var m := FromPairs(metadata);
            var v := FromPairs(valid);
            var p := FromPairs(priors);
            Arbitrate(env, metadata, valid, priors, threshold) ==
              if (forall e :: e in Keys(m) ==> HasKey(p, e)) && |m| == |v| && (forall k :: k in Keys(m) ==> HasKey(v, k))
              then Select(env, Pool(ScalarSimilarity, env.formatReal, WeightsFrom(v, p), threshold, [], m, ArbitratedFields))
              else Err(Validate(Keys(m), p, m, v).error)
  {
  }

  /** A record whose every field is None leaves the buckets as they were. */
  lemma {:induction false} PoolRecordAllNone(sim: (Value, Value) -> real, fmt: real -> string, weight: WeightFn,
                                             threshold: real, pooled: Pooled, extractor: string,
                                             record: Reference, fields: seq<Field>)
    requires forall f :: FieldValue(record, f).Null?
    ensures PoolRecord(sim, fmt, weight, threshold, pooled, extractor, record, fields) == pooled
    decreases |fields|
  {
    if |fields| > 0 {
      PoolRecordAllNone(sim, fmt, weight, threshold, pooled, extractor, record, fields[1..]);
    }
  }

  lemma {:induction false} PoolAllNone(sim: (Value, Value) -> real, fmt: real -> string, weight: WeightFn,
                                       threshold: real, pooled: Pooled, records: seq<(string, Reference)>,
                                       fields: seq<Field>)
    requires forall e, f :: e in records ==> FieldValue(e.1, f).Null?
    ensures Pool(sim, fmt, weight, threshold, pooled, records, fields) == pooled
    decreases |records|
  {
    if |records| > 0 {
      assert records[0] in records;
      PoolRecordAllNone(sim, fmt, weight, threshold, pooled, records[0].0, records[0].1, fields);
      assert forall e :: e in records[1..] ==> e in records;
      PoolAllNone(sim, fmt, weight, threshold, pooled, records[1..], fields);
    }
  }

  lemma DecideNothingKnown(env: Env, m: Table<Reference>, v: Table<Table<real>>, p: Table<Table<real>>,
                           threshold: real)
    requires forall e, f :: e in m ==> FieldValue(e.1, f).Null?
    ensures Decide(env, m, v, p, threshold) ==
              match Validate(Keys(m), p, m, v)
              case Err(e) => Err(e)
              case Ok(_) => Err(StatisticsError)
  {
    PoolAllNone(ScalarSimilarity, env.formatReal, WeightsFrom(v, p), threshold, [], m, ArbitratedFields);
    assert SelectAll(env.formatReal, []) == Ok(([], []));
    assert NewReference(env, []).Ok? by {
      assert Keyword([], Raw).Str?;
    }
  }

  /** When every extractor leaves every arbitrated field None, nothing is
      selected and the mean of no shares raises, unless validation has
      failed first. */
  lemma ArbitrateNothingKnown(env: Env, metadata: seq<(string, Reference)>, valid: seq<(string, Table<real>)>,
                              priors: seq<(string, Table<real>)>, threshold: real)
    requires forall e, f :: e in metadata ==> FieldValue(e.1, f).Null?
    ensures var m := FromPairs(metadata);
            Arbitrate(env, metadata, valid, priors, threshold) ==
              match Validate(Keys(m), FromPairs(priors), m, FromPairs(valid))
              case Err(e) => Err(e)
              case Ok(_) => Err(StatisticsError)
  {
    FromPairsEntries(metadata);
    DecideNothingKnown(env, FromPairs(metadata), FromPairs(valid), FromPairs(priors), threshold);
  }

  /** With non-negative validities and priors the score lies in [0, 1]. */
  lemma ArbitrateScoreWithin(env: Env, metadata: seq<(string, Reference)>, valid: seq<(string, Table<real>)>,
                             priors: seq<(string, Table<real>)>, threshold: real)
    requires forall e :: e in valid ==> NonNegativeTable(e.1)
    requires forall e :: e in priors ==> NonNegativeTable(e.1)
    ensures Arbitrate(env, metadata, valid, priors, threshold).Ok? ==>
              0.0 <= Arbitrate(env, metadata, valid, priors, threshold).value.1 <= 1.0
  {
    FromPairsEntries(valid);
    FromPairsEntries(priors);
    DecideScoreWithin(env, FromPairs(metadata), FromPairs(valid), FromPairs(priors), threshold);
  }

  lemma DecideScoreWithin(env: Env, m: Table<Reference>, v: Table<Table<real>>, p: Table<Table<real>>,
                          threshold: real)
    requires forall e :: e in v ==> NonNegativeTable(e.1)
    requires forall e :: e in p ==> NonNegativeTable(e.1)
    ensures Decide(env, m, v, p, threshold).Ok? ==> 0.0 <= Decide(env, m, v, p, threshold).value.1 <= 1.0
  {
    var weight := WeightsFrom(v, p);
    var pooled := Pool(ScalarSimilarity, env.formatReal, weight, threshold, [], m, ArbitratedFields);
    assert Decide(env, m, v, p, threshold).Ok? ==> Decide(env, m, v, p, threshold) == Select(env, pooled);
    if Select(env, pooled).Ok? {
      assert AllNonNegative(pooled) by {
        WeightsFromNonNegative(v, p);
        PoolNonNegative(ScalarSimilarity, env.formatReal, weight, threshold, [], m, ArbitratedFields);
      }
      SelectScoreWithin(env, pooled);
    }
  }

  /** Non-negative validities and priors give non-negative weights. */
  lemma WeightsFromNonNegative(v: Table<Table<real>>, p: Table<Table<real>>)
    requires forall e :: e in v ==> NonNegativeTable(e.1)
    requires forall e :: e in p ==> NonNegativeTable(e.1)
    ensures WeightsNonNegative(WeightsFrom(v, p))
  {
    forall e, f ensures WeightsFrom(v, p)(e, f) >= 0.0 {
      var ve := GetOr(v, e, []);
      var pe := GetOr(p, e, []);
      if HasKey(v, e) { assert (e, ve) in v; }
      if HasKey(p, e) { assert (e, pe) in p; }
      WeightNonNegative(ve, pe, Name(f));
    }
  }

  /** `arbitrate_all`: `arbitrate` over the parallel lists with the shared
      priors and the default threshold; `map` stops at the shorter list and
      the first failure propagates. */
  function ArbitrateAll(env: Env, metadata: seq<seq<(string, Reference)>>, valid: seq<seq<(string, Table<real>)>>,
                        priors: seq<(string, Table<real>)>): (r: Result<seq<(Reference, real)>>)
    ensures r.Ok? <==> forall i :: 0 <= i < MinLen(|metadata|, |valid|) ==>
                         Arbitrate(env, metadata[i], valid[i], priors, DefaultThreshold).Ok?
    ensures r.Ok? ==> |r.value| == MinLen(|metadata|, |valid|) &&
                      forall i :: 0 <= i < |r.value| ==>
                        Arbitrate(env, metadata[i], valid[i], priors, DefaultThreshold) == Ok(r.value[i])
    ensures r.Err? ==> exists i :: 0 <= i < MinLen(|metadata|, |valid|) &&
                                   Arbitrate(env, metadata[i], valid[i], priors, DefaultThreshold) == Err(r.error)
  {
    MapParallel((m, v) => Arbitrate(env, m, v, priors, DefaultThreshold), metadata, valid)
  }
}
