// The stage driver `merge_records` of references/process/merge/__init__.py.
// The alignment module it calls is not part of this model, so the aligner
// is a parameter; `str(e)` of a caught exception is the parameter
// `describe`.

module Merge {
  import opened Base
  import opened Tables
  import opened Externals
  import opened Domain
  import Normalize
  import Beliefs
  import Arbitrate

  /** Groups of (extractor, reference) pairs, as `align_records` returns them. */
  type Aligned = seq<seq<(string, Reference)>>

  /** The stages whose exceptions are wrapped, in the order they run. */
  datatype Stage = Alignment | Validation | Arbitration | Filtering

  const AllStages: seq<Stage> := [Alignment, Validation, Arbitration, Filtering]

  /** `filter_records`' default threshold. */
  const FilterThreshold: real := 0.5

  function StageName(s: Stage): string
  {
    match s
    case Alignment => "Alignment"
    case Validation => "Validation"
    case Arbitration => "Arbitration"
    case Filtering => "Filtering"
  }

  /** `RuntimeError('<Stage> failed: %s' % e)`. */
  function Failure(describe: Exception -> string, s: Stage, e: Exception): (x: Exception)
    ensures x.RuntimeError?
    ensures x.message == StageName(s) + " failed: " + describe(e)
  {
    RuntimeError(StageName(s) + " failed: " + describe(e))
  }

  /** `{k: f(v) for k, v in t.items()}` where `f` may raise: the first
      failure, in key order, propagates. */
  function TryMapValues<V, W>(f: V -> Result<W>, t: Table<V>): (r: Result<Table<W>>)
    ensures r.Ok? <==> forall i :: 0 <= i < |t| ==> f(t[i].1).Ok?
    ensures r.Ok? ==> Keys(r.value) == Keys(t)
    ensures r.Ok? ==> forall i :: 0 <= i < |t| ==> f(t[i].1) == Ok(r.value[i].1)
    ensures r.Err? ==> exists i :: 0 <= i < |t| && f(t[i].1) == Err(r.error) &&
                                   forall j :: 0 <= j < i ==> f(t[j].1).Ok?
  {
    if |t| == 0 then Ok([])
    else
      var head := f(t[0].1);
      var rest := TryMapValues(f, t[1..]);
      assert forall i :: 0 < i < |t| ==> t[i] == t[1..][i - 1];
      if head.Err? then Err(head.error)
      else if rest.Err? then
        ghost var i :| 0 <= i < |t[1..]| && f(t[1..][i].1) == Err(rest.error) &&
                       forall j :: 0 <= j < i ==> f(t[1..][j].1).Ok?;
        assert f(t[i + 1].1) == Err(rest.error);
        Err(rest.error)
      else Ok([(t[0].0, head.value)] + rest.value)
  }

  /** The error of a failing `TryMapValues` comes from an entry at or
      before any failing one. */
  lemma TryMapValuesFirstError<V, W>(f: V -> Result<W>, t: Table<V>, i: nat)
    requires i < |t| && f(t[i].1).Err?
    ensures TryMapValues(f, t).Err?
    ensures exists k :: 0 <= k <= i && f(t[k].1) == Err(TryMapValues(f, t).error)
  {
    var r := TryMapValues(f, t);
    var k :| 0 <= k < |t| && f(t[k].1) == Err(r.error) && forall j :: 0 <= j < k ==> f(t[j].1).Ok?;
    if i < k {
      assert false;
    }
  }

  /** The dict comprehension applying `normalize_records` to every
      extractor's list. */
  function NormalizeAll(env: Env, records: Table<seq<Reference>>): Result<Table<seq<Reference>>>
  {
    TryMapValues(xs => Normalize.NormalizeRecords(env, xs), records)
  }

  /** The outcome of one `merge_records` call, with the wrapped stages it
      entered, in order. */
  datatype Run<T> = Run(result: Result<T>, stages: seq<Stage>)

  /** The driver's control flow, over its stages as parameters: a failed
      normalisation escapes unwrapped, and each later stage's exception is
      wrapped in a RuntimeError naming it. `beliefs.validate` cannot raise
      (a raising belief function contributes 0), so it is total here. */
  function Pipeline<I, G, P, S, T>(normalized: Result<I>, align: I -> Result<G>, validate: G -> P,
                                   arbitrate: (G, P) -> Result<S>, filter: S -> T,
                                   describe: Exception -> string): Run<T>
  {
    if normalized.Err? then Run(Err(normalized.error), [])
    else
      var aligned := align(normalized.value);
      if aligned.Err? then Run(Err(Failure(describe, Alignment, aligned.error)), [Alignment])
      else
        var arbitrated := arbitrate(aligned.value, validate(aligned.value));
        if arbitrated.Err? then
          Run(Err(Failure(describe, Arbitration, arbitrated.error)), [Alignment, Validation, Arbitration])
        else Run(Ok(filter(arbitrated.value)), AllStages)
  }

  /** `filter_records(arbitrated)` at its default threshold. */
  function Filter(arbitrated: seq<(Reference, real)>): (seq<Reference>, real)
  {
    var f := Normalize.FilterRecords(arbitrated, FilterThreshold);
    (f.kept, f.composite)
  }

  /** `merge_records(records, extractor_priors)`. */
  function MergeRecords(env: Env, align: Table<seq<Reference>> -> Result<Aligned>, describe: Exception -> string,
                        records: Table<seq<Reference>>, priors: seq<(string, Table<real>)>): Run<(seq<Reference>, real)>
  {
    Pipeline(NormalizeAll(env, records), align, a => Beliefs.Validate(env, a),
             (a, p) => Arbitrate.ArbitrateAll(env, a, p, priors), Filter, describe)
  }

  /** The aligned groups of a run that got that far. */
  function AlignedOf(env: Env, align: Table<seq<Reference>> -> Result<Aligned>, records: Table<seq<Reference>>): Result<Aligned>
  {
    var normalized := NormalizeAll(env, records);
    if normalized.Err? then Err(normalized.error) else align(normalized.value)
  }

  // ---------------------------------------------------------------------
  // Properties

  /** The wrapped stages of any run are a prefix of the fixed order, each
      entered at most once, and all four are entered exactly when the run
      succeeds. */
  lemma PipelineStages<I, G, P, S, T>(normalized: Result<I>, align: I -> Result<G>, validate: G -> P,
                                      arbitrate: (G, P) -> Result<S>, filter: S -> T,
                                      describe: Exception -> string)
    ensures var run := Pipeline(normalized, align, validate, arbitrate, filter, describe);
      && run.stages <= AllStages
      && (forall i, j :: 0 <= i < j < |run.stages| ==> run.stages[i] != run.stages[j])
      && (run.result.Ok? <==> run.stages == AllStages)
  {
  }

  /** `merge_records` enters align, validate, arbitrate_all and
      filter_records in that order, each at most once, and all of them
      exactly once when it returns. */
  lemma StageOrder(env: Env, align: Table<seq<Reference>> -> Result<Aligned>, describe: Exception -> string,
                   records: Table<seq<Reference>>, priors: seq<(string, Table<real>)>)
    ensures var run := MergeRecords(env, align, describe, records, priors);
      && run.stages <= AllStages
      && (forall i, j :: 0 <= i < j < |run.stages| ==> run.stages[i] != run.stages[j])
      && (run.result.Ok? <==> run.stages == AllStages)
  {
    PipelineStages(NormalizeAll(env, records), align, a => Beliefs.Validate(env, a),
                   (a, p) => Arbitrate.ArbitrateAll(env, a, p, priors), Filter, describe);
  }

  /** A failed normalisation is the run's error, unwrapped, and no later
      stage is entered. */
  lemma PipelineNormalization<I, G, P, S, T>(normalized: Result<I>, align: I -> Result<G>, validate: G -> P,
                                             arbitrate: (G, P) -> Result<S>, filter: S -> T,
                                             describe: Exception -> string)
    requires normalized.Err?
    ensures Pipeline(normalized, align, validate, arbitrate, filter, describe) == Run(Err(normalized.error), [])
  {
  }

  /** A failed alignment is wrapped as "Alignment failed: ...". */
  lemma PipelineAlignment<I, G, P, S, T>(normalized: Result<I>, align: I -> Result<G>, validate: G -> P,
                                         arbitrate: (G, P) -> Result<S>, filter: S -> T,
                                         describe: Exception -> string)
    requires normalized.Ok? && align(normalized.value).Err?
    ensures Pipeline(normalized, align, validate, arbitrate, filter, describe).result ==
              Err(RuntimeError("Alignment failed: " + describe(align(normalized.value).error)))
  {
  }

  /** A failed arbitration, over the aligned groups and their validated
      beliefs, is wrapped as "Arbitration failed: ...". */
  lemma PipelineArbitration<I, G, P, S, T>(normalized: Result<I>, align: I -> Result<G>, validate: G -> P,
                                           arbitrate: (G, P) -> Result<S>, filter: S -> T,
                                           describe: Exception -> string)
    requires normalized.Ok? && align(normalized.value).Ok?
    requires var a := align(normalized.value).value; arbitrate(a, validate(a)).Err?
    ensures var a := align(normalized.value).value;
      Pipeline(normalized, align, validate, arbitrate, filter, describe).result ==
        Err(RuntimeError("Arbitration failed: " + describe(arbitrate(a, validate(a)).error)))
  {
  }

  /** A successful run is the filter applied to the arbitration of the
      aligned groups and their validated beliefs. */
  lemma PipelineSuccess<I, G, P, S, T>(normalized: Result<I>, align: I -> Result<G>, validate: G -> P,
                                       arbitrate: (G, P) -> Result<S>, filter: S -> T,
                                       describe: Exception -> string)
    requires Pipeline(normalized, align, validate, arbitrate, filter, describe).result.Ok?
    ensures normalized.Ok? && align(normalized.value).Ok?
    ensures var a := align(normalized.value).value;
      && arbitrate(a, validate(a)).Ok?
      && Pipeline(normalized, align, validate, arbitrate, filter, describe).result.value ==
           filter(arbitrate(a, validate(a)).value)
  {
  }

  /** A normalisation failure escapes unwrapped, before the aligner is
      consulted: any two aligners give the same run, and it enters no
      wrapped stage. */
  lemma NormalizationFirst(env: Env, align1: Table<seq<Reference>> -> Result<Aligned>,
                           align2: Table<seq<Reference>> -> Result<Aligned>, describe: Exception -> string,
                           records: Table<seq<Reference>>, priors: seq<(string, Table<real>)>, i: nat)
    requires i < |records| && Normalize.NormalizeRecords(env, records[i].1).Err?
    ensures MergeRecords(env, align1, describe, records, priors) == MergeRecords(env, align2, describe, records, priors)
    ensures MergeRecords(env, align1, describe, records, priors).stages == []
    ensures MergeRecords(env, align1, describe, records, priors).result.Err?
    ensures exists k :: 0 <= k <= i &&
              Normalize.NormalizeRecords(env, records[k].1) == Err(MergeRecords(env, align1, describe, records, priors).result.error)
  {
    TryMapValuesFirstError(xs => Normalize.NormalizeRecords(env, xs), records, i);
    var n := NormalizeAll(env, records);
    var v := (a: Aligned) => Beliefs.Validate(env, a);
    var arb := (a: Aligned, p: seq<seq<(string, Table<real>)>>) => Arbitrate.ArbitrateAll(env, a, p, priors);
    PipelineNormalization(n, align1, v, arb, Filter, describe);
    PipelineNormalization(n, align2, v, arb, Filter, describe);
  }

  /** The aligner sees the normalised lists, keyed as given: two aligners
      that agree on them give the same run. */
  lemma AlignerSeesNormalized(env: Env, align1: Table<seq<Reference>> -> Result<Aligned>,
                              align2: Table<seq<Reference>> -> Result<Aligned>, describe: Exception -> string,
                              records: Table<seq<Reference>>, priors: seq<(string, Table<real>)>)
    requires NormalizeAll(env, records).Ok?
    requires align1(NormalizeAll(env, records).value) == align2(NormalizeAll(env, records).value)
    ensures MergeRecords(env, align1, describe, records, priors) == MergeRecords(env, align2, describe, records, priors)
    ensures Keys(NormalizeAll(env, records).value) == Keys(records)
  {
  }

  /** An alignment failure is re-raised as "Alignment failed: ...". */
  lemma AlignmentFailure(env: Env, align: Table<seq<Reference>> -> Result<Aligned>, describe: Exception -> string,
                         records: Table<seq<Reference>>, priors: seq<(string, Table<real>)>)
    requires AlignedOf(env, align, records).Err? && NormalizeAll(env, records).Ok?
    ensures MergeRecords(env, align, describe, records, priors).result ==
              Err(RuntimeError("Alignment failed: " + describe(AlignedOf(env, align, records).error)))
  {
    PipelineAlignment(NormalizeAll(env, records), align, a => Beliefs.Validate(env, a),
                      (a, p) => Arbitrate.ArbitrateAll(env, a, p, priors), Filter, describe);
  }

  /** An arbitration failure is re-raised as "Arbitration failed: ...",
      after alignment and validation ran. */
  lemma ArbitrationFailure(env: Env, align: Table<seq<Reference>> -> Result<Aligned>, describe: Exception -> string,
                           records: Table<seq<Reference>>, priors: seq<(string, Table<real>)>)
    requires AlignedOf(env, align, records).Ok?
    requires var a := AlignedOf(env, align, records).value;
      Arbitrate.ArbitrateAll(env, a, Beliefs.Validate(env, a), priors).Err?
    ensures var a := AlignedOf(env, align, records).value;
      MergeRecords(env, align, describe, records, priors).result ==
        Err(RuntimeError("Arbitration failed: " + describe(Arbitrate.ArbitrateAll(env, a, Beliefs.Validate(env, a), priors).error)))
  {
    var n := NormalizeAll(env, records);
    assert n.Ok?;
    PipelineArbitration(n, align, a => Beliefs.Validate(env, a),
                        (a, p) => Arbitrate.ArbitrateAll(env, a, p, priors), Filter, describe);
  }

  /** On success the result is exactly `filter_records`' pair at the
      threshold 0.5, over the arbitrated records; nothing is normalised
      after arbitration. */
  lemma SuccessIsFiltered(env: Env, align: Table<seq<Reference>> -> Result<Aligned>, describe: Exception -> string,
                          records: Table<seq<Reference>>, priors: seq<(string, Table<real>)>)
    requires MergeRecords(env, align, describe, records, priors).result.Ok?
    ensures AlignedOf(env, align, records).Ok?
    ensures var a := AlignedOf(env, align, records).value;
      var arbitrated := Arbitrate.ArbitrateAll(env, a, Beliefs.Validate(env, a), priors);
      && arbitrated.Ok?
      && var f := Normalize.FilterRecords(arbitrated.value, FilterThreshold);
         MergeRecords(env, align, describe, records, priors).result.value == (f.kept, f.composite)
  {
    PipelineSuccess(NormalizeAll(env, records), align, a => Beliefs.Validate(env, a),
                    (a, p) => Arbitrate.ArbitrateAll(env, a, p, priors), Filter, describe);
  }

  /** Every belief handed to arbitration is non-negative. */
  lemma ValidatedNonNegative(env: Env, aligned: Aligned, g: nat)
    requires g < |aligned|
    ensures forall e: (string, Table<real>) :: e in Beliefs.Validate(env, aligned)[g] ==> Arbitrate.NonNegativeTable(e.1)
  {
    var valid := Beliefs.Validate(env, aligned);
    forall e: (string, Table<real>) | e in valid[g]
      ensures Arbitrate.NonNegativeTable(e.1)
    {
      var j :| 0 <= j < |valid[g]| && valid[g][j] == e;
      assert e.1 == Beliefs.CalculateBelief(env, aligned[g][j].1);
      BeliefNonNegative(env, aligned[g][j].1);
    }
  }

  lemma BeliefNonNegative(env: Env, r: Reference)
    ensures Arbitrate.NonNegativeTable(Beliefs.CalculateBelief(env, r))
  {
    var t := Beliefs.CalculateBelief(env, r);
    forall b: (string, real) | b in t
      ensures b.1 >= 0.0
    {
      var k :| 0 <= k < |t| && t[k] == b;
      Beliefs.CalculateBeliefInRange(env, r, k);
    }
  }

  /** With non-negative priors, every arbitrated score lies in [0, 1]. */
  lemma ArbitratedWithin(env: Env, aligned: Aligned, priors: seq<(string, Table<real>)>)
    requires forall e :: e in priors ==> Arbitrate.NonNegativeTable(e.1)
    requires Arbitrate.ArbitrateAll(env, aligned, Beliefs.Validate(env, aligned), priors).Ok?
    ensures var s := Arbitrate.ArbitrateAll(env, aligned, Beliefs.Validate(env, aligned), priors).value;
      forall i :: 0 <= i < |s| ==> 0.0 <= s[i].1 <= 1.0
  {
    var valid := Beliefs.Validate(env, aligned);
    var s := Arbitrate.ArbitrateAll(env, aligned, valid, priors).value;
    forall i | 0 <= i < |s|
      ensures 0.0 <= s[i].1 <= 1.0
    {
      ValidatedNonNegative(env, aligned, i);
      Arbitrate.ArbitrateScoreWithin(env, aligned[i], valid[i], priors, Arbitrate.DefaultThreshold);
    }
  }

  /** Over scores in [0, 1], the composite lies in [0, 1], and it is at
      least the threshold 0.5 when any record is kept. */
  lemma FilterWithin(arbitrated: seq<(Reference, real)>)
    requires forall i :: 0 <= i < |arbitrated| ==> 0.0 <= arbitrated[i].1 <= 1.0
    ensures 0.0 <= Filter(arbitrated).1 <= 1.0
    ensures |Filter(arbitrated).0| > 0 ==> FilterThreshold <= Filter(arbitrated).1
  {
    var f := Normalize.FilterRecords(arbitrated, FilterThreshold);
    if |f.kept| > 0 {
      Normalize.CompositeBounds(arbitrated, FilterThreshold, 0.0, 1.0);
    }
  }

  /** With non-negative priors the composite score lies in [0, 1], and it
      is at least the threshold 0.5 when any record is kept. */
  lemma CompositeWithin(env: Env, align: Table<seq<Reference>> -> Result<Aligned>, describe: Exception -> string,
                        records: Table<seq<Reference>>, priors: seq<(string, Table<real>)>)
    requires forall e :: e in priors ==> Arbitrate.NonNegativeTable(e.1)
    requires MergeRecords(env, align, describe, records, priors).result.Ok?
    ensures var out := MergeRecords(env, align, describe, records, priors).result.value;
      && 0.0 <= out.1 <= 1.0
      && (|out.0| > 0 ==> FilterThreshold <= out.1)
  {
    SuccessIsFiltered(env, align, describe, records, priors);
    var a := AlignedOf(env, align, records).value;
    ArbitratedWithin(env, a, priors);
    FilterWithin(Arbitrate.ArbitrateAll(env, a, Beliefs.Validate(env, a), priors).value);
  }
}
