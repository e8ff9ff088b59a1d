/** Arbitration as the older pipeline does it: every field any extractor
    reported is decided by the single extractor whose value has the greatest
    weight, and the reference's score is the mean of the winning weights. */
module ArbitrateLegacy {
  import opened Base
  import opened Tables
  import opened Json
  import Current = Arbitrate

  /** One extractor's metadata record: field name to value. */
  type Record = Table<Value>

  /** `acc` followed by the keys of `ks` it does not hold yet, in order. */
  function AddNew(acc: seq<string>, ks: seq<string>): (r: seq<string>)
    requires Current.Distinct(acc)
    ensures Current.Distinct(r)
    ensures forall k :: k in r <==> k in acc || k in ks
    decreases |ks|
  {
    if |ks| == 0 then acc
    else if ks[0] in acc then AddNew(acc, ks[1..])
    else
      assert forall k :: k in ks ==> k == ks[0] || k in ks[1..];
      AddNew(acc + [ks[0]], ks[1..])
  }

  /** The set of field names over all records. Python iterates that set in
      an order of its own; the model takes first occurrence. */
  function FieldUnion(records: Table<Record>): (fs: seq<string>)
    ensures Current.Distinct(fs)
    ensures forall k :: k in fs <==> exists i :: 0 <= i < |records| && HasKey(records[i].1, k)
  {
    if |records| == 0 then []
    else
      var init := records[..|records| - 1];
      assert forall i :: 0 <= i < |init| ==> init[i] == records[i];
      AddNew(FieldUnion(init), Keys(records[|records| - 1].1))
  }

  /** The row of `probs` for one field: each extractor's validity for the
      field times its prior, in extractor order. */
  function Probs(extractors: seq<string>, valid: Table<Table<real>>, priors: Table<Table<real>>,
                 field: string): (ws: seq<real>)
    ensures |ws| == |extractors|
    ensures forall i :: 0 <= i < |ws| ==>
              ws[i] == Current.Weight(GetOr(valid, extractors[i], []), GetOr(priors, extractors[i], []), field)
  {
    if |extractors| == 0 then []
    else
      [Current.Weight(GetOr(valid, extractors[0], []), GetOr(priors, extractors[0], []), field)] +
      Probs(extractors[1..], valid, priors, field)
  }

  /** The winning extractor's position for a field: the first of greatest
      weight. */
  function Winner(m: Table<Record>, valid: Table<Table<real>>, priors: Table<Table<real>>,
                  field: string): (k: nat)
    requires |m| > 0
    ensures k < |m|
    ensures var ws := Probs(Keys(m), valid, priors, field);
            (forall j :: 0 <= j < |m| ==> ws[j] <= ws[k]) && (forall j :: 0 <= j < k ==> ws[j] < ws[k])
  {
    ArgMax(Probs(Keys(m), valid, priors, field))
  }

  /** The winning weight of a field. */
  function Top(m: Table<Record>, valid: Table<Table<real>>, priors: Table<Table<real>>,
               field: string): (w: real)
    requires |m| > 0
    ensures forall j :: 0 <= j < |m| ==>
              Current.Weight(GetOr(valid, m[j].0, []), GetOr(priors, m[j].0, []), field) <= w
    ensures exists j :: 0 <= j < |m| &&
              Current.Weight(GetOr(valid, m[j].0, []), GetOr(priors, m[j].0, []), field) == w
  {
    var k := Winner(m, valid, priors, field);
    Probs(Keys(m), valid, priors, field)[k]
  }

  /** A field's outcome: the winner's value for it, if it has one, and the
      winning weight. */
  function Pick(m: Table<Record>, valid: Table<Table<real>>, priors: Table<Table<real>>,
                field: string): (Option<Value>, real)
  {
    if |m| == 0 then (None, 0.0)
    else (Get(m[Winner(m, valid, priors, field)].1, field), Top(m, valid, priors, field))
  }

  /** The dict comprehension of `arbitrate` together with the winning
      weights: each field takes the winner's value, and the first field whose
      winner's record lacks it raises KeyError. */
  function ChooseWith(pick: string -> (Option<Value>, real), fields: seq<string>): (r: Result<(Record, seq<real>)>)
    ensures r.Ok? <==> forall i :: 0 <= i < |fields| ==> pick(fields[i]).0.Some?
    ensures r.Ok? ==> Keys(r.value.0) == fields && |r.value.1| == |fields|
    ensures r.Ok? ==> forall i :: 0 <= i < |fields| ==>
              pick(fields[i]) == (Some(r.value.0[i].1), r.value.1[i])
    ensures r.Err? ==> exists i :: 0 <= i < |fields| && r.error == KeyError(fields[i]) &&
                                   pick(fields[i]).0.None? &&
                                   forall j :: 0 <= j < i ==> pick(fields[j]).0.Some?
  {
    if |fields| == 0 then Ok(([], []))
    else
      var f := fields[0];
      var rest := fields[1..];
      assert forall i :: 1 <= i < |fields| ==> rest[i - 1] == fields[i];
      match pick(f)
      case (None, _) => Err(KeyError(f))
      case (Some(value), w) =>
        match ChooseWith(pick, rest)
        case Err(e) =>
          ghost var i :| 0 <= i < |rest| && e == KeyError(rest[i]) && pick(rest[i]).0.None? &&
                         forall j :: 0 <= j < i ==> pick(rest[j]).0.Some?;
          assert fields[i + 1] == rest[i];
          Err(e)
        case Ok(tail) =>
          var record := [(f, value)] + tail.0;
          assert Keys(record) == [f] + Keys(tail.0);
          Ok((record, [w] + tail.1))
  }

  function Choose(m: Table<Record>, valid: Table<Table<real>>, priors: Table<Table<real>>,
                  fields: seq<string>): Result<(Record, seq<real>)>
  {
    ChooseWith(f => Pick(m, valid, priors, f), fields)
  }

  /** `arbitrate`: the three lists become dicts and are validated as in the
      current pipeline; every field of the union is decided by its winner,
      and the score is the mean of the winning weights, which raises when no
      extractor reported any field. */
  function Arbitrate(metadata: seq<(string, Record)>, valid: seq<(string, Table<real>)>,
                     priors: seq<(string, Table<real>)>): (r: Result<(Record, real)>)
    ensures var m := FromPairs(metadata);
            Current.Validate(Keys(m), FromPairs(priors), m, FromPairs(valid)).Err? ==>
              r == Err(Current.Validate(Keys(m), FromPairs(priors), m, FromPairs(valid)).error)
  {
    var m := FromPairs(metadata);
    var v := FromPairs(valid);
    var p := FromPairs(priors);
    match Current.Validate(Keys(m), p, m, v)
    case Err(e) => Err(e)
    case Ok(_) => Decide(m, v, p)
  }

  /** What `arbitrate` does once validation has passed. */
  function Decide(m: Table<Record>, v: Table<Table<real>>, p: Table<Table<real>>): (r: Result<(Record, real)>)
    ensures FieldUnion(m) == [] <==> r == Err(StatisticsError)
    ensures r.Ok? ==> |m| > 0 && Keys(r.value.0) == FieldUnion(m)
    ensures r.Ok? ==> Choose(m, v, p, FieldUnion(m)).Ok? &&
                      r.value == (Choose(m, v, p, FieldUnion(m)).value.0,
                                  Mean(Choose(m, v, p, FieldUnion(m)).value.1).value)
  {
    var fields := FieldUnion(m);
    if |fields| == 0 then Err(StatisticsError)
    else
      assert fields[0] in fields;
      match Choose(m, v, p, fields)
      case Err(e) => Err(e)
      case Ok(chosen) => Ok((chosen.0, Mean(chosen.1).value))
  }

  /** `arbitrate_all`: `arbitrate` over the parallel lists with the shared
      priors; `map` stops at the shorter list and the first failure
      propagates. */
  function ArbitrateAll(metadata: seq<seq<(string, Record)>>, valid: seq<seq<(string, Table<real>)>>,
                        priors: seq<(string, Table<real>)>): (r: Result<seq<(Record, real)>>)
    ensures r.Ok? <==> forall i :: 0 <= i < MinLen(|metadata|, |valid|) ==> Arbitrate(metadata[i], valid[i], priors).Ok?
    ensures r.Ok? ==> |r.value| == MinLen(|metadata|, |valid|) &&
                      forall i :: 0 <= i < |r.value| ==> Arbitrate(metadata[i], valid[i], priors) == Ok(r.value[i])
    ensures r.Err? ==> exists i :: 0 <= i < MinLen(|metadata|, |valid|) &&
                                   Arbitrate(metadata[i], valid[i], priors) == Err(r.error)
  {
    MapParallel((m, v) => Arbitrate(m, v, priors), metadata, valid)
  }

  // ---------------------------------------------------------------------
  // Properties

  /** With every validity and prior a probability, so is each winning
      weight. */
  lemma TopWithin(m: Table<Record>, valid: Table<Table<real>>, priors: Table<Table<real>>, field: string)
    requires |m| > 0
    requires forall e :: e in valid ==> Current.ProbabilityTable(e.1)
    requires forall e :: e in priors ==> Current.ProbabilityTable(e.1)
    ensures 0.0 <= Top(m, valid, priors, field) <= 1.0
  {
    var j :| 0 <= j < |m| &&
             Current.Weight(GetOr(valid, m[j].0, []), GetOr(priors, m[j].0, []), field) == Top(m, valid, priors, field);
    var ve := GetOr(valid, m[j].0, []);
    var pe := GetOr(priors, m[j].0, []);
    if HasKey(valid, m[j].0) { assert (m[j].0, ve) in valid; }
    if HasKey(priors, m[j].0) { assert (m[j].0, pe) in priors; }
    Current.WeightWithin(ve, pe, field);
  }

  /** With every validity and prior a probability, the score is one too. */
  lemma ScoreWithin(metadata: seq<(string, Record)>, valid: seq<(string, Table<real>)>,
                    priors: seq<(string, Table<real>)>)
    requires forall e :: e in valid ==> Current.ProbabilityTable(e.1)
    requires forall e :: e in priors ==> Current.ProbabilityTable(e.1)
    requires Arbitrate(metadata, valid, priors).Ok?
    ensures 0.0 <= Arbitrate(metadata, valid, priors).value.1 <= 1.0
  {
    FromPairsEntries(valid);
    FromPairsEntries(priors);
    DecideWithin(FromPairs(metadata), FromPairs(valid), FromPairs(priors));
  }

  /** The mean of winning weights that are probabilities is one. */
  lemma DecideWithin(m: Table<Record>, v: Table<Table<real>>, p: Table<Table<real>>)
    requires forall e :: e in v ==> Current.ProbabilityTable(e.1)
    requires forall e :: e in p ==> Current.ProbabilityTable(e.1)
    ensures Decide(m, v, p).Ok? ==> 0.0 <= Decide(m, v, p).value.1 <= 1.0
  {
    if Decide(m, v, p).Ok? {
      var fields := FieldUnion(m);
      var chosen := Choose(m, v, p, fields).value;
      assert AllWithin(chosen.1, 0.0, 1.0) by {
        forall f | f in fields ensures 0.0 <= Pick(m, v, p, f).1 <= 1.0 {
          TopWithin(m, v, p, f);
        }
        ChosenWithin(f => Pick(m, v, p, f), fields);
      }
      assert |chosen.1| > 0 by { assert fields[0] in fields; }
      MeanWithin(chosen.1, 0.0, 1.0);
    }
  }

  /** Weights that are each a probability are chosen as probabilities. */
  lemma ChosenWithin(pick: string -> (Option<Value>, real), fields: seq<string>)
    requires forall f :: f in fields ==> 0.0 <= pick(f).1 <= 1.0
    ensures ChooseWith(pick, fields).Ok? ==> AllWithin(ChooseWith(pick, fields).value.1, 0.0, 1.0)
  {
    if ChooseWith(pick, fields).Ok? {
      var ws := ChooseWith(pick, fields).value.1;
      forall i | 0 <= i < |ws| ensures 0.0 <= ws[i] <= 1.0 {
        assert pick(fields[i]).1 == ws[i];
        assert fields[i] in fields;
      }
    }
  }
}

/** The worked example of the older arbitration: three extractors disagree
    on title, DOI and volume, and one alone reports `foo`. */
module ArbitrateLegacyExample {
  import opened Base
  import opened Tables
  import opened Json
  import Current = Arbitrate
  import opened ArbitrateLegacy

  const Cermine: Record := [("title", Str("yep")), ("doi", Str("10.123/123.4566"))]
  const Refextract: Record := [("title", Str("asdf")), ("doi", Str("nonsense")), ("volume", Str("12"))]
  const Alt: Record := [("title", Str("nope")), ("foo", Str("bar")), ("volume", Str("baz"))]
  const Metadata: seq<(string, Record)> := [("cermine", Cermine), ("refextract", Refextract), ("alt", Alt)]

  const ValidCermine: Table<real> := [("title", 0.9), ("doi", 0.8)]
  const ValidRefextract: Table<real> := [("title", 0.6), ("doi", 0.1), ("volume", 0.8)]
  const ValidAlt: Table<real> := [("title", 0.1), ("foo", 1.0)]
  const Valid: seq<(string, Table<real>)> :=
    [("cermine", ValidCermine), ("refextract", ValidRefextract), ("alt", ValidAlt)]

  const PriorCermine: Table<real> := [("title", 0.8), ("doi", 0.9)]
  const PriorRefextract: Table<real> := [("title", 0.9), ("doi", 0.2), ("volume", 0.2)]
  const PriorAlt: Table<real> := [("title", 0.2), ("foo", 0.9)]
  const Priors: seq<(string, Table<real>)> :=
    [("cermine", PriorCermine), ("refextract", PriorRefextract), ("alt", PriorAlt)]

  /** The same priors without cermine's DOI entry. */
  const PriorCermineNoDoi: Table<real> := [("title", 0.8)]
  const PriorsNoDoi: seq<(string, Table<real>)> :=
    [("cermine", PriorCermineNoDoi), ("refextract", PriorRefextract), ("alt", PriorAlt)]

  const Extractors: seq<string> := ["cermine", "refextract", "alt"]
  const Fields: seq<string> := ["title", "doi", "volume", "foo"]

  lemma MetadataAsGiven()
    ensures FromPairs(Metadata) == Metadata && Keys(Metadata) == Extractors
  {
    TripleTable("cermine", Cermine, "refextract", Refextract, "alt", Alt);
  }

  lemma ValidAsGiven()
    ensures FromPairs(Valid) == Valid && Keys(Valid) == Extractors
    ensures GetOr(Valid, "cermine", []) == ValidCermine
    ensures GetOr(Valid, "refextract", []) == ValidRefextract
    ensures GetOr(Valid, "alt", []) == ValidAlt
  {
    TripleTable("cermine", ValidCermine, "refextract", ValidRefextract, "alt", ValidAlt);
  }

  lemma PriorsAsGiven(priors: seq<(string, Table<real>)>)
    requires priors == Priors || priors == PriorsNoDoi
    ensures FromPairs(priors) == priors && Keys(priors) == Extractors
    ensures GetOr(priors, "cermine", []) == if priors == Priors then PriorCermine else PriorCermineNoDoi
    ensures GetOr(priors, "refextract", []) == PriorRefextract
    ensures GetOr(priors, "alt", []) == PriorAlt
  {
    if priors == Priors {
      TripleTable("cermine", PriorCermine, "refextract", PriorRefextract, "alt", PriorAlt);
    } else {
      TripleTable("cermine", PriorCermineNoDoi, "refextract", PriorRefextract, "alt", PriorAlt);
    }
  }

  lemma Validated(priors: seq<(string, Table<real>)>)
    requires priors == Priors || priors == PriorsNoDoi
    ensures Current.Validate(Extractors, priors, Metadata, Valid).Ok?
  {
    MetadataAsGiven();
    ValidAsGiven();
    PriorsAsGiven(priors);
    Current.ValidateSameKeys(Extractors, priors, Metadata, Valid);
  }

  /** A key already collected is skipped. */
  lemma AddNewSkip(acc: seq<string>, k: string, ks: seq<string>)
    requires Current.Distinct(acc) && k in acc
    ensures AddNew(acc, [k] + ks) == AddNew(acc, ks)
  {
    assert ([k] + ks)[1..] == ks;
  }

  /** A new key is appended. */
  lemma AddNewTake(acc: seq<string>, k: string, ks: seq<string>)
    requires Current.Distinct(acc) && k !in acc
    ensures AddNew(acc, [k] + ks) == AddNew(acc + [k], ks)
  {
    assert ([k] + ks)[1..] == ks;
  }

  lemma AddNewFirst(t: string, d: string)
    requires t != d
    ensures AddNew([], [t, d]) == [t, d]
  {
    AddNewTake([], t, [d]);
    assert [t, d] == [t] + [d] && [] + [t] == [t];
    AddNewTake([t], d, []);
    assert [d] == [d] + [] && [t] + [d] == [t, d];
  }

  lemma AddNewSecond(t: string, d: string, v: string)
    requires t != d && t != v && d != v
    ensures AddNew([t, d], [t, d, v]) == [t, d, v]
  {
    assert [t, d, v] == [t] + [d, v] && [d, v] == [d] + [v] && [v] == [v] + [];
    AddNewSkip([t, d], t, [d, v]);
    AddNewSkip([t, d], d, [v]);
    AddNewTake([t, d], v, []);
    assert [t, d] + [v] == [t, d, v];
  }

  lemma AddNewThird(t: string, d: string, v: string, f: string)
    requires t != d && t != v && t != f && d != v && d != f && v != f
    ensures AddNew([t, d, v], [t, f, v]) == [t, d, v, f]
  {
    assert [t, f, v] == [t] + [f, v] && [f, v] == [f] + [v] && [v] == [v] + [];
    AddNewSkip([t, d, v], t, [f, v]);
    AddNewTake([t, d, v], f, [v]);
    assert [t, d, v] + [f] == [t, d, v, f];
    AddNewSkip([t, d, v, f], v, []);
  }

  lemma UnionOfFields()
    ensures FieldUnion(Metadata) == Fields
  {
    var m1 := Metadata[..1];
    var m2 := Metadata[..2];
    assert Metadata[..|Metadata| - 1] == m2;
    assert m2[..|m2| - 1] == m1;
    assert m1[..|m1| - 1] == [];
    assert Keys(Cermine) == ["title", "doi"];
    assert Keys(Refextract) == ["title", "doi", "volume"];
    assert Keys(Alt) == ["title", "foo", "volume"];
    AddNewFirst("title", "doi");
    AddNewSecond("title", "doi", "volume");
    AddNewThird("title", "doi", "volume", "foo");
    assert FieldUnion(m1) == AddNew([], ["title", "doi"]);
    assert FieldUnion(m2) == AddNew(["title", "doi"], ["title", "doi", "volume"]);
  }

  /** A weight from a validity and a prior both stated for the field. */
  lemma WeightStated(validity: Table<real>, prior: Table<real>, name: string, a: real, b: real)
    requires Get(validity, name) == Some(a) && Get(prior, name) == Some(b)
    ensures Current.Weight(validity, prior, name) == a * b
  {
    Current.WeightStated(validity, prior, name, a);
    Current.MulCongruence(a, Current.FieldPrior(prior, name), a, b);
  }

  /** A weight from stated entries whose product is known. */
  lemma WeightIs(validity: Table<real>, prior: Table<real>, name: string, a: real, b: real, w: real)
    requires Get(validity, name) == Some(a) && Get(prior, name) == Some(b) && a * b == w
    ensures Current.Weight(validity, prior, name) == w
  {
    WeightStated(validity, prior, name, a, b);
  }

  lemma CermineWeights()
    ensures Current.Weight(ValidCermine, PriorCermine, "title") == 0.72
    ensures Current.Weight(ValidCermine, PriorCermine, "doi") == 0.72
    ensures Current.Weight(ValidCermine, PriorCermine, "volume") == 0.0
    ensures Current.Weight(ValidCermine, PriorCermine, "foo") == 0.0
  {
    PairTable("title", 0.9, "doi", 0.8);
    PairTable("title", 0.8, "doi", 0.9);
    WeightIs(ValidCermine, PriorCermine, "title", 0.9, 0.8, 0.72);
    WeightIs(ValidCermine, PriorCermine, "doi", 0.8, 0.9, 0.72);
    NotInPair("title", 0.9, "doi", 0.8, "volume");
    NotInPair("title", 0.9, "doi", 0.8, "foo");
  }

  lemma CermineNoDoiWeights()
    ensures Current.Weight(ValidCermine, PriorCermineNoDoi, "title") == 0.72
    ensures Current.Weight(ValidCermine, PriorCermineNoDoi, "doi") == 0.0
    ensures Current.Weight(ValidCermine, PriorCermineNoDoi, "volume") == 0.0
    ensures Current.Weight(ValidCermine, PriorCermineNoDoi, "foo") == 0.0
  {
    PairTable("title", 0.9, "doi", 0.8);
    SingleTable("title", 0.8);
    WeightIs(ValidCermine, PriorCermineNoDoi, "title", 0.9, 0.8, 0.72);
  }

  lemma RefextractWeights()
    ensures Current.Weight(ValidRefextract, PriorRefextract, "title") == 0.54
    ensures Current.Weight(ValidRefextract, PriorRefextract, "doi") == 0.02
    ensures Current.Weight(ValidRefextract, PriorRefextract, "volume") == 0.16
    ensures Current.Weight(ValidRefextract, PriorRefextract, "foo") == 0.0
  {
    TripleTable("title", 0.6, "doi", 0.1, "volume", 0.8);
    TripleTable("title", 0.9, "doi", 0.2, "volume", 0.2);
    WeightIs(ValidRefextract, PriorRefextract, "title", 0.6, 0.9, 0.54);
    WeightIs(ValidRefextract, PriorRefextract, "doi", 0.1, 0.2, 0.02);
    WeightIs(ValidRefextract, PriorRefextract, "volume", 0.8, 0.2, 0.16);
    NotInTriple("title", 0.6, "doi", 0.1, "volume", 0.8, "foo");
  }

  lemma AltWeights()
    ensures Current.Weight(ValidAlt, PriorAlt, "title") == 0.02
    ensures Current.Weight(ValidAlt, PriorAlt, "doi") == 0.0
    ensures Current.Weight(ValidAlt, PriorAlt, "volume") == 0.0
    ensures Current.Weight(ValidAlt, PriorAlt, "foo") == 0.9
  {
    PairTable("title", 0.1, "foo", 1.0);
    PairTable("title", 0.2, "foo", 0.9);
    WeightIs(ValidAlt, PriorAlt, "title", 0.1, 0.2, 0.02);
    WeightIs(ValidAlt, PriorAlt, "foo", 1.0, 0.9, 0.9);
    NotInPair("title", 0.1, "foo", 1.0, "doi");
    NotInPair("title", 0.1, "foo", 1.0, "volume");
  }

  /** The weights of cermine under either set of priors. */
  lemma CermineWeightsUnder(priors: seq<(string, Table<real>)>)
    requires priors == Priors || priors == PriorsNoDoi
    ensures Current.Weight(ValidCermine, GetOr(priors, "cermine", []), "title") == 0.72
    ensures Current.Weight(ValidCermine, GetOr(priors, "cermine", []), "doi") ==
              if priors == Priors then 0.72 else 0.0
    ensures Current.Weight(ValidCermine, GetOr(priors, "cermine", []), "volume") == 0.0
    ensures Current.Weight(ValidCermine, GetOr(priors, "cermine", []), "foo") == 0.0
  {
    PriorsAsGiven(priors);
    if priors == Priors { CermineWeights(); } else { CermineNoDoiWeights(); }
  }

  /** The row of weights for a field, one per extractor. */
  lemma ProbsOf(priors: seq<(string, Table<real>)>, field: string, a: real, b: real, c: real)
    requires Current.Weight(ValidCermine, GetOr(priors, "cermine", []), field) == a
    requires Current.Weight(ValidRefextract, GetOr(priors, "refextract", []), field) == b
    requires Current.Weight(ValidAlt, GetOr(priors, "alt", []), field) == c
    ensures Probs(Extractors, Valid, priors, field) == [a, b, c]
  {
    ValidAsGiven();
  }

  lemma CermineFields()
    ensures Get(Metadata[0].1, "title") == Some(Str("yep"))
    ensures Get(Metadata[0].1, "doi") == Some(Str("10.123/123.4566"))
  {
    PairTable("title", Str("yep"), "doi", Str("10.123/123.4566"));
  }

  lemma RefextractFields()
    ensures Get(Metadata[1].1, "doi") == Some(Str("nonsense"))
    ensures Get(Metadata[1].1, "volume") == Some(Str("12"))
  {
    TripleTable("title", Str("asdf"), "doi", Str("nonsense"), "volume", Str("12"));
  }

  lemma AltFields()
    ensures Get(Metadata[2].1, "foo") == Some(Str("bar"))
  {
    TripleTable("title", Str("nope"), "foo", Str("bar"), "volume", Str("baz"));
  }

  /** The winner and its weight when the weights are `ws`. */
  lemma PickOf(m: Table<Record>, valid: Table<Table<real>>, priors: Table<Table<real>>, field: string,
               ws: seq<real>, k: nat, v: Value)
    requires k < |m|
    requires Probs(Keys(m), valid, priors, field) == ws
    requires forall j :: 0 <= j < |m| ==> ws[j] <= ws[k]
    requires forall j :: 0 <= j < k ==> ws[j] < ws[k]
    requires Get(m[k].1, field) == Some(v)
    ensures Pick(m, valid, priors, field) == (Some(v), ws[k])
  {
    var w := Winner(m, valid, priors, field);
    assert ws[k] <= ws[w] && ws[w] <= ws[k];
    assert w == k;
  }

  /** Which of three weights is the first greatest. */
  lemma FirstOfThree(a: real, b: real, c: real)
    requires b <= a && c <= a
    ensures forall j :: 0 <= j < 3 ==> [a, b, c][j] <= [a, b, c][0]
  {
    forall j | 0 <= j < 3 ensures [a, b, c][j] <= [a, b, c][0] { }
  }

  lemma SecondOfThree(a: real, b: real, c: real)
    requires a < b && c <= b
    ensures forall j :: 0 <= j < 3 ==> [a, b, c][j] <= [a, b, c][1]
    ensures forall j :: 0 <= j < 1 ==> [a, b, c][j] < [a, b, c][1]
  {
    forall j | 0 <= j < 3 ensures [a, b, c][j] <= [a, b, c][1] { }
  }

  lemma ThirdOfThree(a: real, b: real, c: real)
    requires a < c && b < c
    ensures forall j :: 0 <= j < 3 ==> [a, b, c][j] <= [a, b, c][2]
    ensures forall j :: 0 <= j < 2 ==> [a, b, c][j] < [a, b, c][2]
  {
    forall j | 0 <= j < 3 ensures [a, b, c][j] <= [a, b, c][2] { }
    forall j | 0 <= j < 2 ensures [a, b, c][j] < [a, b, c][2] { }
  }

  /** The first of three extractors wins a field whose weight no other
      extractor exceeds. */
  lemma PickFirst(m: Table<Record>, valid: Table<Table<real>>, priors: Table<Table<real>>, field: string,
                  a: real, b: real, c: real, v: Value)
    requires Probs(Keys(m), valid, priors, field) == [a, b, c]
    requires b <= a && c <= a
    requires Get(m[0].1, field) == Some(v)
    ensures Pick(m, valid, priors, field) == (Some(v), a)
  {
    FirstOfThree(a, b, c);
    PickOf(m, valid, priors, field, [a, b, c], 0, v);
  }

  /** The second of three wins a field it weighs strictly more than the
      first and no less than the third. */
  lemma PickSecond(m: Table<Record>, valid: Table<Table<real>>, priors: Table<Table<real>>, field: string,
                   a: real, b: real, c: real, v: Value)
    requires Probs(Keys(m), valid, priors, field) == [a, b, c]
    requires a < b && c <= b
    requires Get(m[1].1, field) == Some(v)
    ensures Pick(m, valid, priors, field) == (Some(v), b)
  {
    SecondOfThree(a, b, c);
    PickOf(m, valid, priors, field, [a, b, c], 1, v);
  }

  /** The third of three wins a field it weighs strictly more than the
      others. */
  lemma PickThird(m: Table<Record>, valid: Table<Table<real>>, priors: Table<Table<real>>, field: string,
                  a: real, b: real, c: real, v: Value)
    requires Probs(Keys(m), valid, priors, field) == [a, b, c]
    requires a < c && b < c
    requires Get(m[2].1, field) == Some(v)
    ensures Pick(m, valid, priors, field) == (Some(v), c)
  {
    ThirdOfThree(a, b, c);
    PickOf(m, valid, priors, field, [a, b, c], 2, v);
  }

  lemma TitleRow(priors: seq<(string, Table<real>)>)
    requires priors == Priors || priors == PriorsNoDoi
    ensures Probs(Extractors, Valid, priors, "title") == [0.72, 0.54, 0.02]
  {
    PriorsAsGiven(priors);
    CermineWeightsUnder(priors);
    RefextractWeights();
    AltWeights();
    ProbsOf(priors, "title", 0.72, 0.54, 0.02);
  }

  lemma TitleWins(priors: seq<(string, Table<real>)>)
    requires Probs(Extractors, Valid, priors, "title") == [0.72, 0.54, 0.02]
    ensures Pick(Metadata, Valid, priors, "title") == (Some(Str("yep")), 0.72)
  {
    CermineFields();
    MetadataAsGiven();
    PickFirst(Metadata, Valid, priors, "title", 0.72, 0.54, 0.02, Str("yep"));
  }

  lemma DoiRow()
    ensures Probs(Extractors, Valid, Priors, "doi") == [0.72, 0.02, 0.0]
  {
    PriorsAsGiven(Priors);
    CermineWeightsUnder(Priors);
    RefextractWeights();
    AltWeights();
    ProbsOf(Priors, "doi", 0.72, 0.02, 0.0);
  }

  lemma DoiWins()
    requires Probs(Extractors, Valid, Priors, "doi") == [0.72, 0.02, 0.0]
    ensures Pick(Metadata, Valid, Priors, "doi") == (Some(Str("10.123/123.4566")), 0.72)
  {
    CermineFields();
    MetadataAsGiven();
    PickFirst(Metadata, Valid, Priors, "doi", 0.72, 0.02, 0.0, Str("10.123/123.4566"));
  }

  lemma DoiWithoutPriorRow()
    ensures Probs(Extractors, Valid, PriorsNoDoi, "doi") == [0.0, 0.02, 0.0]
  {
    PriorsAsGiven(PriorsNoDoi);
    CermineWeightsUnder(PriorsNoDoi);
    RefextractWeights();
    AltWeights();
    ProbsOf(PriorsNoDoi, "doi", 0.0, 0.02, 0.0);
  }

  lemma DoiWinsWithoutPrior()
    requires Probs(Extractors, Valid, PriorsNoDoi, "doi") == [0.0, 0.02, 0.0]
    ensures Pick(Metadata, Valid, PriorsNoDoi, "doi") == (Some(Str("nonsense")), 0.02)
  {
    RefextractFields();
    MetadataAsGiven();
    PickSecond(Metadata, Valid, PriorsNoDoi, "doi", 0.0, 0.02, 0.0, Str("nonsense"));
  }

  lemma VolumeRow(priors: seq<(string, Table<real>)>)
    requires priors == Priors || priors == PriorsNoDoi
    ensures Probs(Extractors, Valid, priors, "volume") == [0.0, 0.16, 0.0]
  {
    PriorsAsGiven(priors);
    CermineWeightsUnder(priors);
    RefextractWeights();
    AltWeights();
    ProbsOf(priors, "volume", 0.0, 0.16, 0.0);
  }

  lemma VolumeWins(priors: seq<(string, Table<real>)>)
    requires Probs(Extractors, Valid, priors, "volume") == [0.0, 0.16, 0.0]
    ensures Pick(Metadata, Valid, priors, "volume") == (Some(Str("12")), 0.16)
  {
    RefextractFields();
    MetadataAsGiven();
    PickSecond(Metadata, Valid, priors, "volume", 0.0, 0.16, 0.0, Str("12"));
  }

  lemma FooRow(priors: seq<(string, Table<real>)>)
    requires priors == Priors || priors == PriorsNoDoi
    ensures Probs(Extractors, Valid, priors, "foo") == [0.0, 0.0, 0.9]
  {
    PriorsAsGiven(priors);
    CermineWeightsUnder(priors);
    RefextractWeights();
    AltWeights();
    ProbsOf(priors, "foo", 0.0, 0.0, 0.9);
  }

  lemma FooWins(priors: seq<(string, Table<real>)>)
    requires Probs(Extractors, Valid, priors, "foo") == [0.0, 0.0, 0.9]
    ensures Pick(Metadata, Valid, priors, "foo") == (Some(Str("bar")), 0.9)
  {
    AltFields();
    MetadataAsGiven();
    PickThird(Metadata, Valid, priors, "foo", 0.0, 0.0, 0.9, Str("bar"));
  }

  lemma Outcomes(priors: seq<(string, Table<real>)>)
    requires priors == Priors || priors == PriorsNoDoi
    ensures Pick(Metadata, Valid, priors, "title") == (Some(Str("yep")), 0.72)
    ensures Pick(Metadata, Valid, priors, "volume") == (Some(Str("12")), 0.16)
    ensures Pick(Metadata, Valid, priors, "foo") == (Some(Str("bar")), 0.9)
  {
    TitleRow(priors);
    TitleWins(priors);
    VolumeRow(priors);
    VolumeWins(priors);
    FooRow(priors);
    FooWins(priors);
  }

  lemma MeanOfExample()
    ensures Mean([0.72, 0.72, 0.16, 0.9]) == Ok(0.625)
  {
    Current.Sum4([0.72, 0.72, 0.16, 0.9]);
  }

  /** One field in front of others whose outcome is known. */
  lemma ChooseStep(pick: string -> (Option<Value>, real), f: string, v: Value, w: real,
                   rest: seq<string>, r: Record, ws: seq<real>)
    requires pick(f) == (Some(v), w)
    requires ChooseWith(pick, rest) == Ok((r, ws))
    ensures ChooseWith(pick, [f] + rest) == Ok(([(f, v)] + r, [w] + ws))
  {
    assert ([f] + rest)[0] == f && ([f] + rest)[1..] == rest;
  }

  /** The comprehension over the four fields once each field's outcome is
      known. */
  lemma ChooseFour(pick: string -> (Option<Value>, real), a: Value, b: Value, c: Value, d: Value,
                   wa: real, wb: real, wc: real, wd: real)
    requires pick("title") == (Some(a), wa) && pick("doi") == (Some(b), wb)
    requires pick("volume") == (Some(c), wc) && pick("foo") == (Some(d), wd)
    ensures ChooseWith(pick, Fields) == Ok(([("title", a), ("doi", b), ("volume", c), ("foo", d)], [wa, wb, wc, wd]))
  {
    ChooseStep(pick, "foo", d, wd, [], [], []);
    assert [("foo", d)] + [] == [("foo", d)] && [wd] + [] == [wd];
    ChooseStep(pick, "volume", c, wc, ["foo"], [("foo", d)], [wd]);
    assert ["volume"] + ["foo"] == ["volume", "foo"];
    assert [("volume", c)] + [("foo", d)] == [("volume", c), ("foo", d)] && [wc] + [wd] == [wc, wd];
    ChooseStep(pick, "doi", b, wb, ["volume", "foo"], [("volume", c), ("foo", d)], [wc, wd]);
    assert ["doi"] + ["volume", "foo"] == ["doi", "volume", "foo"];
    assert [("doi", b)] + [("volume", c), ("foo", d)] == [("doi", b), ("volume", c), ("foo", d)];
    assert [wb] + [wc, wd] == [wb, wc, wd];
    ChooseStep(pick, "title", a, wa, ["doi", "volume", "foo"], [("doi", b), ("volume", c), ("foo", d)], [wb, wc, wd]);
    assert [("title", a)] + [("doi", b), ("volume", c), ("foo", d)] == [("title", a), ("doi", b), ("volume", c), ("foo", d)];
    assert [wa] + [wb, wc, wd] == [wa, wb, wc, wd];
    assert Fields == ["title"] + ["doi", "volume", "foo"];
  }

  /** `arbitrate` on the example, once the fields and their outcomes are
      known. */
  lemma ArbitrateExample(priors: seq<(string, Table<real>)>, a: Value, b: Value, c: Value, d: Value,
                         wa: real, wb: real, wc: real, wd: real)
    requires priors == Priors || priors == PriorsNoDoi
    requires Pick(Metadata, Valid, priors, "title") == (Some(a), wa)
    requires Pick(Metadata, Valid, priors, "doi") == (Some(b), wb)
    requires Pick(Metadata, Valid, priors, "volume") == (Some(c), wc)
    requires Pick(Metadata, Valid, priors, "foo") == (Some(d), wd)
    ensures Arbitrate(Metadata, Valid, priors) ==
              Ok(([("title", a), ("doi", b), ("volume", c), ("foo", d)], Mean([wa, wb, wc, wd]).value))
  {
    MetadataAsGiven();
    ValidAsGiven();
    PriorsAsGiven(priors);
    Validated(priors);
    UnionOfFields();
    ChooseFour(f => Pick(Metadata, Valid, priors, f), a, b, c, d, wa, wb, wc, wd);
  }

  /** The arbitration of the example: title 'yep', DOI '10.123/123.4566',
      volume '12', foo 'bar', and score (0.72 + 0.72 + 0.16 + 0.9) / 4. */
  lemma Example()
    ensures Arbitrate(Metadata, Valid, Priors) ==
              Ok(([("title", Str("yep")), ("doi", Str("10.123/123.4566")), ("volume", Str("12")), ("foo", Str("bar"))],
                  0.625))
  {
    Outcomes(Priors);
    DoiRow();
    DoiWins();
    ArbitrateExample(Priors, Str("yep"), Str("10.123/123.4566"), Str("12"), Str("bar"), 0.72, 0.72, 0.16, 0.9);
    MeanOfExample();
  }

  /** Without cermine's DOI prior its DOI weighs nothing, and refextract's
      'nonsense' wins the field. */
  lemma ExampleWithoutDoiPrior()
    ensures Arbitrate(Metadata, Valid, PriorsNoDoi).Ok?
    ensures Get(Arbitrate(Metadata, Valid, PriorsNoDoi).value.0, "doi") == Some(Str("nonsense"))
  {
    Outcomes(PriorsNoDoi);
    DoiWithoutPriorRow();
    DoiWinsWithoutPrior();
    ArbitrateExample(PriorsNoDoi, Str("yep"), Str("nonsense"), Str("12"), Str("bar"), 0.72, 0.02, 0.16, 0.9);
    NonsenseChosen();
  }

  lemma NonsenseChosen()
    ensures Get([("title", Str("yep")), ("doi", Str("nonsense")), ("volume", Str("12")), ("foo", Str("bar"))], "doi") ==
            Some(Str("nonsense"))
  {
    var r: Record := [("title", Str("yep")), ("doi", Str("nonsense")), ("volume", Str("12")), ("foo", Str("bar"))];
    assert Keys(r) == Fields;
    GetAt(r, 1);
  }

  const Two: seq<(string, Record)> := [("foo", []), ("bar", [])]
  const FooBar: seq<(string, Table<real>)> := [("foo", []), ("bar", [])]
  const FooBaz: seq<(string, Table<real>)> := [("foo", []), ("baz", [])]

  lemma TwoAsGiven()
    ensures FromPairs(Two) == Two && FromPairs(FooBar) == FooBar && FromPairs(FooBaz) == FooBaz
    ensures Keys(Two) == ["foo", "bar"] && Keys(FooBar) == ["foo", "bar"] && Keys(FooBaz) == ["foo", "baz"]
  {
    PairTable<Record>("foo", [], "bar", []);
    PairTable<Table<real>>("foo", [], "bar", []);
    PairTable<Table<real>>("foo", [], "baz", []);
  }

  /** Validity dicts naming another extractor fail the shape check. */
  lemma MisalignedValidity()
    ensures Arbitrate(Two, FooBaz, FooBar) == Err(ValueError(Current.ShapeMismatch))
  {
    TwoAsGiven();
    NotInPair<Table<real>>("foo", [], "baz", [], "bar");
    Current.ValidateMissingKey(Keys(Two), FooBar, Two, FooBaz, "bar");
  }

  /** Priors naming another extractor fail the priors check. */
  lemma MisalignedPriors()
    ensures Arbitrate(Two, FooBar, FooBaz) == Err(ValueError(Current.MissingPriors))
  {
    TwoAsGiven();
    NotInPair<Table<real>>("foo", [], "baz", [], "bar");
    Current.ValidateMissingPrior(Keys(Two), FooBaz, Two, FooBar, "bar");
  }
}
