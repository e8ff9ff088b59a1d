/** The older `filter_records`, which works on plain dicts: only the kept
    records gain a score, each as a new dict. */
module NormalizeLegacy {
  import opened Base
  import opened Tables
  import opened Json
  import Normalize
  import Domain

  type Record = Table<Value>

  /** `dict(list(rec.items()) + [('score', Decimal(sc))])`. */
  function WithScore(record: Record, score: real): (r: Record)
  {
    FromPairs(record + [("score", Real(score))])
  }

  /** The copy carries the score and every other entry of the record. */
  lemma WithScoreGet(record: Record, score: real, k: string)
    requires UniqueKeys(record)
    ensures WithScore(record, score) == Set(record, "score", Real(score))
    ensures Get(WithScore(record, score), "score") == Some(Real(score))
    ensures k != "score" ==> Get(WithScore(record, score), k) == Get(record, k)
  {
    var pairs := record + [("score", Real(score))];
    assert pairs[..|pairs| - 1] == record;
    FromPairsOfUnique(record);
    if k != "score" {
      SetOther(record, "score", Real(score), k);
    }
  }

  /** The comprehension: the records from position `from` on that score at
      least `threshold`, each paired with its score, in order. */
  function Survivors(records: seq<(Record, real)>, threshold: real, from: nat): (r: seq<(Record, real)>)
    requires from <= |records|
  {
    KeptFrom(records, threshold, from, Copied)
  }

  /** The images under `copy` of the records from `from` on scoring at least
      `threshold`, in order. */
  function KeptFrom<A, B>(records: seq<(A, real)>, threshold: real, from: nat, copy: ((A, real)) -> B): seq<B>
    requires from <= |records|
    decreases |records| - from
  {
    if from == |records| then []
    else if records[from].1 >= threshold then
      [copy(records[from])] + KeptFrom(records, threshold, from + 1, copy)
    else KeptFrom(records, threshold, from + 1, copy)
  }

  /** A surviving record: the copy carrying its score, and the score. */
  function Copied(record: (Record, real)): (Record, real)
  {
    (WithScore(record.0, record.1), record.1)
  }

  function FirstOf(pairs: seq<(Record, real)>): (r: seq<Record>)
    ensures |r| == |pairs|
    ensures forall k :: 0 <= k < |pairs| ==> r[k] == pairs[k].0
  {
    if |pairs| == 0 then [] else [pairs[0].0] + FirstOf(pairs[1..])
  }

  function SecondOf(pairs: seq<(Record, real)>): (r: seq<real>)
    ensures |r| == |pairs|
    ensures forall k :: 0 <= k < |pairs| ==> r[k] == pairs[k].1
  {
    if |pairs| == 0 then [] else [pairs[0].1] + SecondOf(pairs[1..])
  }

  /** `filter_records`: `([], 0.0)` when nothing survives, otherwise the
      surviving copies and the mean of their scores. */
  function FilterRecords(records: seq<(Record, real)>, threshold: real): (r: (seq<Record>, real))
  {
    var kept := Survivors(records, threshold, 0);
    if |kept| == 0 then ([], 0.0)
    else (FirstOf(kept), Mean(SecondOf(kept)).value)
  }

  /** The survivors from `from` on are the retained positions, each record
      copied with its score. */
  lemma SurvivorsRetained(records: seq<(Record, real)>, threshold: real, from: nat)
    requires from <= |records|
    ensures |Survivors(records, threshold, from)| == |Normalize.RetainedFrom(records, threshold, from)|
    ensures forall k :: 0 <= k < |Survivors(records, threshold, from)| ==>
      Survivors(records, threshold, from)[k] == Copied(records[Normalize.RetainedFrom(records, threshold, from)[k]])
  {
    KeptRetained(records, threshold, from, Copied);
  }

  /** The kept images from `from` on are the images of the retained
      positions. */
  lemma {:induction false} KeptRetained<A, B>(records: seq<(A, real)>, threshold: real, from: nat, copy: ((A, real)) -> B)
    requires from <= |records|
    ensures |KeptFrom(records, threshold, from, copy)| == |Normalize.RetainedFrom(records, threshold, from)|
    ensures forall k :: 0 <= k < |KeptFrom(records, threshold, from, copy)| ==>
      KeptFrom(records, threshold, from, copy)[k] == copy(records[Normalize.RetainedFrom(records, threshold, from)[k]])
    decreases |records| - from
  {
    if from < |records| {
      KeptRetained(records, threshold, from + 1, copy);
      var rest := KeptFrom(records, threshold, from + 1, copy);
      var restIdx := Normalize.RetainedFrom(records, threshold, from + 1);
      if records[from].1 >= threshold {
        IndexedCons(copy(records[from]), rest, from, restIdx, records, copy);
      }
    }
  }

  /** Prepending an image and its position keeps a list the image of the
      positions it lists. */
  lemma IndexedCons<A, B>(head: B, rest: seq<B>, from: nat, restIdx: seq<nat>, items: seq<A>, copy: A -> B)
    requires from < |items| && head == copy(items[from])
    requires |rest| == |restIdx|
    requires forall k :: 0 <= k < |rest| ==> restIdx[k] < |items| && rest[k] == copy(items[restIdx[k]])
    ensures forall k :: 0 <= k < |rest| + 1 ==>
              ([from] + restIdx)[k] < |items| && ([head] + rest)[k] == copy(items[([from] + restIdx)[k]])
  {
    forall k | 0 <= k < |rest| + 1
      ensures ([from] + restIdx)[k] < |items| && ([head] + rest)[k] == copy(items[([from] + restIdx)[k]])
    {
      if k > 0 {
        assert ([head] + rest)[k] == rest[k - 1] && ([from] + restIdx)[k] == restIdx[k - 1];
      }
    }
  }

  /** The kept records are exactly the copies of those scoring at least
      `threshold`, in input order, and the composite is the mean of their
      scores, or 0.0 when none is kept. */
  lemma FilterRecordsKeeps(records: seq<(Record, real)>, threshold: real)
    ensures var idx := Normalize.Retained(records, threshold);
      |FilterRecords(records, threshold).0| == |idx|
      && (forall k :: 0 <= k < |idx| ==>
            FilterRecords(records, threshold).0[k] == WithScore(records[idx[k]].0, records[idx[k]].1))
    ensures |Normalize.Retained(records, threshold)| == 0 ==> FilterRecords(records, threshold) == ([], 0.0)
    ensures |Normalize.Retained(records, threshold)| > 0 ==>
      Mean(Normalize.ScoresAt(records, Normalize.Retained(records, threshold))) == Ok(FilterRecords(records, threshold).1)
  {
    SurvivorsRetained(records, threshold, 0);
    var kept := Survivors(records, threshold, 0);
    var idx := Normalize.Retained(records, threshold);
    assert SecondOf(kept) == Normalize.ScoresAt(records, idx);
  }

  /** Same scores keep the same positions, whatever the records hold. */
  lemma {:induction false} RetainedSameScores<R, S>(a: seq<(R, real)>, b: seq<(S, real)>, threshold: real, from: nat)
    requires |a| == |b| && from <= |a|
    requires forall i :: 0 <= i < |a| ==> a[i].1 == b[i].1
    ensures Normalize.RetainedFrom(a, threshold, from) == Normalize.RetainedFrom(b, threshold, from)
    decreases |a| - from
  {
    if from < |a| {
      RetainedSameScores(a, b, threshold, from + 1);
    }
  }

  /** The older and the current `filter_records` keep the same number of
      records and report the same composite for the same scores. */
  lemma AgreesWithCurrent(rs: seq<(Domain.Reference, real)>, ds: seq<(Record, real)>, threshold: real)
    requires |rs| == |ds|
    requires forall i :: 0 <= i < |rs| ==> rs[i].1 == ds[i].1
    ensures |FilterRecords(ds, threshold).0| == |Normalize.FilterRecords(rs, threshold).kept|
    ensures FilterRecords(ds, threshold).1 == Normalize.FilterRecords(rs, threshold).composite
  {
    RetainedSameScores(rs, ds, threshold, 0);
    FilterRecordsKeeps(ds, threshold);
    var idx := Normalize.Retained(rs, threshold);
    assert Normalize.ScoresAt(rs, idx) == Normalize.ScoresAt(ds, idx);
  }

  /** A kept copy carries its score and the record's other entries. */
  lemma KeptCarriesScore(records: seq<(Record, real)>, threshold: real, k: nat, key: string)
    requires k < |Normalize.Retained(records, threshold)|
    requires forall i :: 0 <= i < |records| ==> UniqueKeys(records[i].0)
    ensures var i := Normalize.Retained(records, threshold)[k];
      k < |FilterRecords(records, threshold).0|
      && Get(FilterRecords(records, threshold).0[k], "score") == Some(Real(records[i].1))
      && (key != "score" ==> Get(FilterRecords(records, threshold).0[k], key) == Get(records[i].0, key))
  {
    FilterRecordsKeeps(records, threshold);
    var i := Normalize.Retained(records, threshold)[k];
    WithScoreGet(records[i].0, records[i].1, key);
  }
}
