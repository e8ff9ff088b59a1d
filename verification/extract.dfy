/** The extraction stage: run every configured extractor on a PDF, keep the
    output of each one that returns, and estimate the quality of one
    extractor's output. The extractors themselves (remote services) are
    parameters. */
module Extract {
  import opened Base
  import opened Tables
  import opened Json

  /** A named extractor; `run(pdf_path, document_id)` returns the reference
      metadata it found, or the exception it raised. */
  datatype Extractor = Extractor(name: string, run: (string, string) -> Result<seq<Value>>)

  function Names(extractors: seq<Extractor>): (r: seq<string>)
    ensures |r| == |extractors| && forall i :: 0 <= i < |r| ==> r[i] == extractors[i].name
  {
    seq(|extractors|, i requires 0 <= i < |extractors| => extractors[i].name)
  }

  /** `EXTRACTORS`, the list `getDefaultExtractors` returns, given the four
      services' calls. */
  function DefaultExtractors(
    cermine: (string, string) -> Result<seq<Value>>, grobid: (string, string) -> Result<seq<Value>>,
    refextract: (string, string) -> Result<seq<Value>>, scienceparse: (string, string) -> Result<seq<Value>>)
    : (r: seq<Extractor>)
    ensures Names(r) == ["cermine", "grobid", "refextract", "scienceparse"]
    ensures r[0].run == cermine && r[1].run == grobid && r[2].run == refextract && r[3].run == scienceparse
  {
    [Extractor("cermine", cermine), Extractor("grobid", grobid),
     Extractor("refextract", refextract), Extractor("scienceparse", scienceparse)]
  }

  /** The extractions dict after the loop has seen `extractors`: each one
      that returns stores its output under its name. */
  function Collected(extractors: seq<Extractor>, pdfPath: string, documentId: string): Table<seq<Value>>
    decreases |extractors|
  {
    if |extractors| == 0 then []
    else
      var init := extractors[..|extractors| - 1];
      var last := extractors[|extractors| - 1];
      var acc := Collected(init, pdfPath, documentId);
      match last.run(pdfPath, documentId)
      case Ok(refs) => Set(acc, last.name, refs)
      case Err(_) => acc
  }

  /** Some extractor in the list carries this name and returns. */
  predicate Succeeds(extractors: seq<Extractor>, pdfPath: string, documentId: string, k: string)
  {
    exists i :: 0 <= i < |extractors| && extractors[i].name == k && extractors[i].run(pdfPath, documentId).Ok?
  }

  /** The extractions hold exactly the names of the extractors that
      returned; a failing extractor leaves no trace. */
  lemma {:induction false} CollectedKeys(extractors: seq<Extractor>, pdfPath: string, documentId: string, k: string)
    ensures HasKey(Collected(extractors, pdfPath, documentId), k) <==> Succeeds(extractors, pdfPath, documentId, k)
    decreases |extractors|
  {
    if |extractors| > 0 {
      var n := |extractors| - 1;
      var init := extractors[..n];
      var last := extractors[n];
      var acc := Collected(init, pdfPath, documentId);
      CollectedKeys(init, pdfPath, documentId, k);
      var out := last.run(pdfPath, documentId);
      if Succeeds(extractors, pdfPath, documentId, k) && !(last.name == k && out.Ok?) {
        var i :| 0 <= i < |extractors| && extractors[i].name == k && extractors[i].run(pdfPath, documentId).Ok?;
        assert i < n && init[i] == extractors[i];
      }
      if Succeeds(init, pdfPath, documentId, k) {
        var i :| 0 <= i < n && init[i].name == k && init[i].run(pdfPath, documentId).Ok?;
        assert init[i] == extractors[i];
      }
      if out.Ok? {
        if last.name != k {
          SetOther(acc, last.name, out.value, k);
        }
      }
    }
  }

  /** No two extractors share a name. */
  predicate UniqueNames(extractors: seq<Extractor>)
  {
    forall i, j :: 0 <= i < j < |extractors| ==> extractors[i].name != extractors[j].name
  }

  /** With distinct names, each extractor's entry is its own output when it
      returned and absent when it raised. */
  lemma {:induction false} CollectedGet(extractors: seq<Extractor>, pdfPath: string, documentId: string, i: nat)
    requires UniqueNames(extractors) && i < |extractors|
    ensures Get(Collected(extractors, pdfPath, documentId), extractors[i].name)
         == match extractors[i].run(pdfPath, documentId)
            case Ok(refs) => Some(refs)
            case Err(_) => None
    decreases |extractors|
  {
    var n := |extractors| - 1;
    var init := extractors[..n];
    var last := extractors[n];
    var acc := Collected(init, pdfPath, documentId);
    var k := extractors[i].name;
    var out := last.run(pdfPath, documentId);
    if i == n {
      CollectedKeys(init, pdfPath, documentId, k);
      assert !Succeeds(init, pdfPath, documentId, k) by {
        forall j | 0 <= j < n ensures init[j].name != k {
          assert init[j] == extractors[j];
        }
      }
    } else {
      assert UniqueNames(init) by {
        forall a, b | 0 <= a < b < |init| ensures init[a].name != init[b].name {
          assert init[a] == extractors[a] && init[b] == extractors[b];
        }
      }
      CollectedGet(init, pdfPath, documentId, i);
      assert init[i] == extractors[i];
      if out.Ok? {
        SetOther(acc, last.name, out.value, k);
      }
    }
  }

  /** `extract`: each extractor is called once, in list order, with the PDF
      path and the document id; it returns the extractions and the names of
      the extractors called. The extractions hold exactly the names of the
      extractors that returned. */
  method ExtractAll(pdfPath: string, documentId: string, extractors: seq<Extractor>)
    returns (extractions: Table<seq<Value>>, called: seq<string>)
    ensures called == Names(extractors)
    ensures extractions == Collected(extractors, pdfPath, documentId)
    ensures forall k :: HasKey(extractions, k) <==> Succeeds(extractors, pdfPath, documentId, k)
  {
    extractions := [];
    called := [];
    var n := 0;
    while n < |extractors|
      invariant n <= |extractors|
      invariant called == Names(extractors[..n])
      invariant extractions == Collected(extractors[..n], pdfPath, documentId)
    {
      var ex := extractors[n];
      called := called + [ex.name];
      match ex.run(pdfPath, documentId) {
        case Ok(refs) => extractions := Set(extractions, ex.name, refs);
        case Err(_) =>
      }
      assert extractors[..n + 1][..n] == extractors[..n];
      n := n + 1;
    }
    assert extractors[..n] == extractors;
    forall k
      ensures HasKey(extractions, k) <==> Succeeds(extractors, pdfPath, documentId, k)
    {
      CollectedKeys(extractors, pdfPath, documentId, k);
    }
  }

  /** The entries of a metadata dict whose values are truthy. */
  function TruthyEntries(metadatum: Table<Value>): (r: Table<Value>)
    ensures |r| <= |metadatum|
    ensures forall e :: e in r <==> e in metadatum && Truthy(e.1)
  {
    if |metadatum| == 0 then []
    else
      var rest := TruthyEntries(metadatum[1..]);
      assert forall e :: e in metadatum <==> e == metadatum[0] || e in metadatum[1..];
      if Truthy(metadatum[0].1) then [metadatum[0]] + rest else rest
  }

  /** One record's score: a tenth of its truthy fields. */
  function Score(metadatum: Table<Value>): real
  {
    |TruthyEntries(metadatum)| as real / 10.0
  }

  function Scores(metadata: seq<Table<Value>>): (r: seq<real>)
    ensures |r| == |metadata| && forall i :: 0 <= i < |r| ==> r[i] == Score(metadata[i])
  {
    seq(|metadata|, i requires 0 <= i < |metadata| => Score(metadata[i]))
  }

  /** `estimate_quality`: the mean over the records of a tenth of each
      record's truthy fields. An empty list has no mean and raises
      StatisticsError; otherwise the estimate is never negative. */
  function EstimateQuality(metadata: seq<Table<Value>>): (r: Result<real>)
    ensures r.Err? <==> |metadata| == 0
    ensures r.Err? ==> r.error == StatisticsError
    ensures r.Ok? ==> 0.0 <= r.value
  {
    var scores := Scores(metadata);
    if |metadata| == 0 then Mean(scores)
    else
      assert AllWithin(scores, 0.0, MaxScore(metadata));
      MeanWithin(scores, 0.0, MaxScore(metadata));
      Mean(scores)
  }

  /** The largest score in the list. */
  function MaxScore(metadata: seq<Table<Value>>): (m: real)
    ensures 0.0 <= m
    ensures forall i :: 0 <= i < |metadata| ==> Score(metadata[i]) <= m
  {
    if |metadata| == 0 then 0.0 else Max(Score(metadata[0]), MaxScore(metadata[1..]))
  }

  /** Records of at most ten fields give an estimate between 0 and 1, and
      records that all have the same number of truthy fields give a tenth of
      that number. */
  lemma QualityBounds(metadata: seq<Table<Value>>, c: nat)
    requires |metadata| > 0
    ensures (forall i :: 0 <= i < |metadata| ==> |metadata[i]| <= 10) ==>
      EstimateQuality(metadata).Ok? && EstimateQuality(metadata).value <= 1.0
    ensures (forall i :: 0 <= i < |metadata| ==> |TruthyEntries(metadata[i])| == c) ==>
      EstimateQuality(metadata) == Ok(c as real / 10.0)
  {
    var scores := Scores(metadata);
    if forall i :: 0 <= i < |metadata| ==> |metadata[i]| <= 10 {
      MeanWithin(scores, 0.0, 1.0);
    }
    if forall i :: 0 <= i < |metadata| ==> |TruthyEntries(metadata[i])| == c {
      MeanWithin(scores, c as real / 10.0, c as real / 10.0);
    }
  }
}
