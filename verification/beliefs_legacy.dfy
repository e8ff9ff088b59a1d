/** The older generation of the belief step: a bare list of checks per
    field, applied to every value (empty ones included), with nothing to
    stop a check that raises from failing the whole record. */
module BeliefsLegacy {
  import opened Base
  import opened Text
  import opened Tables
  import opened Json
  import opened Externals
  import opened Patterns
  import Beliefs

  // ---------------------------------------------------------------------
  // Word filters

  /** `bloom_match`: the fraction of the cleaned words the filter knows.
      It divides by the word count, so text without words raises. */
  function LegacyBloomMatch(env: Env, accepts: string -> bool, text: string): (r: Result<real>)
    ensures r.Err? <==> |Split(env.cleanText(text, false))| == 0
    ensures r.Err? ==> r.error == ZeroDivisionError
    ensures r.Ok? ==> 0.0 <= r.value <= 1.0
  {
    var words := Split(env.cleanText(text, false));
    if |words| == 0 then Err(ZeroDivisionError)
    else
      var n := Beliefs.CountAccepted(words, accepts);
      RatioWithin(n as real, |words| as real);
      Ok(n as real / |words| as real)
  }

  /** Where the current generation scores text without words 0.0, the
      older one raises. */
  lemma BloomMatchOnNoWords(env: Env, accepts: string -> bool, text: string)
    requires |Split(env.cleanText(text, true))| == 0 && |Split(env.cleanText(text, false))| == 0
    ensures Beliefs.BloomMatch(env, accepts, text) == 0.0
    ensures LegacyBloomMatch(env, accepts, text) == Err(ZeroDivisionError)
  {
  }

  /** `words_title`/`words_auth`: `unity` without filters; otherwise
      `clean_text` needs a string. */
  function LegacyWords(env: Env, title: bool, v: Value): (r: Result<real>)
    ensures env.filters.None? ==> r == Ok(1.0)
    ensures env.filters.Some? && !v.Str? ==> r == Err(AttributeError)
    ensures r.Ok? ==> 0.0 <= r.value <= 1.0
  {
    match env.filters
    case None => Ok(1.0)
    case Some(f) =>
      if v.Str? then LegacyBloomMatch(env, if title then f.title else f.auth, v.s)
      else Err(AttributeError)
  }

  // ---------------------------------------------------------------------
  // Integer- and year-like values

  /** `any([...])` over a list built eagerly: the first element that raises
      decides the outcome; otherwise the result is whether some score is
      non-zero. */
  function AnyNonZero(rs: seq<Result<real>>): (r: Result<bool>)
    ensures r.Ok? <==> forall i :: 0 <= i < |rs| ==> rs[i].Ok?
    ensures r.Ok? ==> (r.value <==> exists i :: 0 <= i < |rs| && rs[i].value != 0.0)
    ensures r.Err? ==> exists i :: 0 <= i < |rs| && rs[i] == Err(r.error)
  {
    if |rs| == 0 then Ok(false)
    else if rs[0].Err? then Err(rs[0].error)
    else
      var rest := AnyNonZero(rs[1..]);
      assert forall i :: 0 < i < |rs| ==> rs[i] == rs[1..][i - 1];
      if rest.Err? then Err(rest.error)
      else Ok(rs[0].value != 0.0 || rest.value)
  }

  /** `is_integer` of each number. */
  function IntegerResults(numbers: seq<string>): (rs: seq<Result<real>>)
    ensures |rs| == |numbers|
    ensures forall i :: 0 <= i < |numbers| ==> rs[i] == Beliefs.IsIntegerCheck(Str(numbers[i]))
  {
    if |numbers| == 0 then []
    else [Beliefs.IsIntegerCheck(Str(numbers[0]))] + IntegerResults(numbers[1..])
  }

  /** `is_year` of each number. */
  function YearResults(numbers: seq<string>): (rs: seq<Result<real>>)
    ensures |rs| == |numbers|
    ensures forall i :: 0 <= i < |numbers| ==> rs[i] == Beliefs.IsYearCheck(Str(numbers[i]))
  {
    if |numbers| == 0 then []
    else [Beliefs.IsYearCheck(Str(numbers[0]))] + YearResults(numbers[1..])
  }

  /** Over digit runs, `is_year` never raises and scores 1.0 exactly for
      the runs in the year range. */
  lemma YearResultsOfRuns(numbers: seq<string>)
    requires forall i :: 0 <= i < |numbers| ==> |numbers[i]| > 0 && AllDigits(numbers[i])
    ensures forall i :: 0 <= i < |numbers| ==>
      YearResults(numbers)[i] == Ok(if Beliefs.YearRange(DigitsValue(numbers[i])) then 1.0 else 0.0)
  {
    forall i | 0 <= i < |numbers|
      ensures YearResults(numbers)[i] == Ok(if Beliefs.YearRange(DigitsValue(numbers[i])) then 1.0 else 0.0)
    {
      DigitChecks(numbers[i]);
    }
  }

  /** A run of digits is an integer, and a year when it is in range. */
  lemma DigitChecks(n: string)
    requires |n| > 0 && AllDigits(n)
    ensures Beliefs.IsIntegerCheck(Str(n)) == Ok(1.0)
    ensures Beliefs.IsYearCheck(Str(n)) == Ok(if Beliefs.YearRange(DigitsValue(n)) then 1.0 else 0.0)
  {
    IntOfDigits(n);
  }

  /** `is_integer_like`: 1.0 when some match of the older integer pattern
      is an integer; `re.findall` raises on a value that is not a string. */
  function LegacyIsIntegerLike(v: Value): (r: Result<real>)
    ensures !v.Str? ==> r == Err(TypeError)
    ensures v.Str? ==> r == Ok(if |FindLooseIntegers(v.s)| > 0 then 1.0 else 0.0)
  {
    match v
    case Str(s) =>
      var numbers := FindLooseIntegers(s);
      var rs := IntegerResults(numbers);
      assert forall i :: 0 <= i < |numbers| ==> rs[i] == Ok(1.0) by {
        forall i | 0 <= i < |numbers| ensures rs[i] == Ok(1.0) {
          DigitChecks(numbers[i]);
        }
      }
      assert |numbers| > 0 ==> rs[0].value != 0.0;
      (match AnyNonZero(rs)
       case Ok(b) => Ok(if b then 1.0 else 0.0)
       case Err(e) => Err(e))
    case _ => Err(TypeError)
  }

  /** So a string scores 1.0 exactly when it holds a digit, and 0.0
      otherwise. */
  lemma LegacyIntegerLikeIffDigit(s: string)
    ensures LegacyIsIntegerLike(Str(s)) == Ok(1.0) <==> exists k :: 0 <= k < |s| && IsDigit(s[k])
    ensures LegacyIsIntegerLike(Str(s)) == Ok(1.0) || LegacyIsIntegerLike(Str(s)) == Ok(0.0)
  {
    LooseScanNonEmptyIff(s, 0);
  }

  /** `is_year_like`: 1.0 when some match of the older integer pattern is
      in the year range. */
  function LegacyIsYearLike(v: Value): (r: Result<real>)
    ensures !v.Str? ==> r == Err(TypeError)
    ensures v.Str? ==> r.Ok? && (r.value == 0.0 || r.value == 1.0)
    ensures v.Str? ==> (r == Ok(1.0) <==>
      exists i :: 0 <= i < |FindLooseIntegers(v.s)| && Beliefs.YearRange(DigitsValue(FindLooseIntegers(v.s)[i])))
  {
    match v
    case Str(s) =>
      var numbers := FindLooseIntegers(s);
      var rs := YearResults(numbers);
      YearResultsOfRuns(numbers);
      (match AnyNonZero(rs)
       case Ok(b) => Ok(if b then 1.0 else 0.0)
       case Err(e) => Err(e))
    case _ => Err(TypeError)
  }

  /** The numbers the older pattern finds are the maximal digit runs. */
  lemma LooseIntegersAreRuns(s: string, i: nat)
    requires i < |FindLooseIntegers(s)|
    ensures i < |DigitRuns(s, 0)|
    ensures var (a, b) := DigitRuns(s, 0)[i];
      a < b <= |s| && FindLooseIntegers(s)[i] == s[a..b]
  {
    LooseScanIsDigitRuns(s, 0);
    DigitRunsMaximal(s, 0);
    var ms := LooseScan(s, 0);
    SpanAt(ms, i);
  }

  /** Every maximal digit run is one of the numbers the older pattern
      finds. */
  lemma RunsAreLooseIntegers(s: string, i: nat)
    requires i < |DigitRuns(s, 0)|
    ensures i < |FindLooseIntegers(s)|
    ensures var (a, b) := DigitRuns(s, 0)[i];
      a < b <= |s| && FindLooseIntegers(s)[i] == s[a..b]
  {
    LooseScanIsDigitRuns(s, 0);
    LooseIntegersAreRuns(s, i);
  }

  /** The span `s[a..b]` is a run of digits whose value lies strictly
      between 1600 and 2100. */
  predicate YearSpan(s: string, span: (nat, nat))
  {
    span.0 < span.1 <= |s| && AllDigits(s[span.0..span.1])
    && Beliefs.YearRange(DigitsValue(s[span.0..span.1]))
  }

  /** A string is year-like exactly when one of its maximal digit runs
      lies strictly between 1600 and 2100. */
  lemma LegacyYearLikeIffRun(s: string)
    ensures LegacyIsYearLike(Str(s)) == Ok(1.0) <==>
      exists i :: 0 <= i < |DigitRuns(s, 0)| && YearSpan(s, DigitRuns(s, 0)[i])
  {
    var numbers := FindLooseIntegers(s);
    var runs := DigitRuns(s, 0);
    if LegacyIsYearLike(Str(s)) == Ok(1.0) {
      var i :| 0 <= i < |numbers| && Beliefs.YearRange(DigitsValue(numbers[i]));
      LooseIntegersAreRuns(s, i);
      assert YearSpan(s, runs[i]);
    }
    if exists i :: 0 <= i < |runs| && YearSpan(s, runs[i]) {
      var i :| 0 <= i < |runs| && YearSpan(s, runs[i]);
      RunsAreLooseIntegers(s, i);
      assert Beliefs.YearRange(DigitsValue(numbers[i]));
    }
  }

  // ---------------------------------------------------------------------
  // Identifiers

  /** One entry's contribution: a valid strict arXiv id or a valid
      ISBN-10/13 counts once. The grammars need a string. */
  function GoodIdentifier(env: Env, entries: Table<Value>): (r: Result<nat>)
    ensures r.Ok? ==> r.value <= 1
    ensures GetOr(entries, "identifier_type", Str("")) != Str("arxiv") ==>
      r == Beliefs.IsbnIdentifier(env, entries)
  {
    var idtype := GetOr(entries, "identifier_type", Str(""));
    var idvalue := GetOr(entries, "identifier", Str(""));
    if idtype == Str("arxiv") then
      if !idvalue.Str? then Err(TypeError)
      else Ok(if env.validArxivStrict(idvalue.s) then 1 else 0)
    else if idtype == Str("isbn") then
      if !idvalue.Str? then Err(TypeError)
      else Ok(if env.validIsbn10(idvalue.s) || env.validIsbn13(idvalue.s) then 1 else 0)
    else Ok(0)
  }

  /** The number of good identifiers; each entry is read with `.get`, so
      it must be a dict. */
  function CountGood(env: Env, ids: seq<Value>): (r: Result<nat>)
    ensures r.Ok? ==> r.value <= |ids|
  {
    if |ids| == 0 then Ok(0)
    else
      var here: Result<nat> := if ids[0].Dict? then GoodIdentifier(env, ids[0].entries) else Err(AttributeError);
      Beliefs.AddCount(here, CountGood(env, ids[1..]))
  }

  /** `valid_identifier`: the fraction of good identifiers. An empty value
      divides by zero; a string or dict yields strings, which have no
      `get`; other values have no length. */
  function LegacyValidIdentifier(env: Env, v: Value): (r: Result<real>)
    ensures r.Ok? ==> 0.0 <= r.value <= 1.0
    ensures v == List([]) ==> r == Err(ZeroDivisionError)
    ensures v.List? && |v.items| > 0 ==> (r.Ok? <==> CountGood(env, v.items).Ok?)
  {
    match v
    case List(ids) =>
      if |ids| == 0 then Err(ZeroDivisionError)
      else
        (match CountGood(env, ids)
         case Ok(n) =>
           RatioWithin(n as real, |ids| as real);
           Ok(n as real / |ids| as real)
         case Err(e) => Err(e))
    case Str(s) => if |s| == 0 then Err(ZeroDivisionError) else Err(AttributeError)
    case Dict(e) => if |e| == 0 then Err(ZeroDivisionError) else Err(AttributeError)
    case _ => Err(TypeError)
  }

  /** No entry of type `arxiv`. */
  predicate NoArxivEntries(ids: seq<Value>)
  {
    forall i :: 0 <= i < |ids| && ids[i].Dict? ==>
      GetOr(ids[i].entries, "identifier_type", Str("")) != Str("arxiv")
  }

  /** Without arXiv entries the two generations count alike: the current
      one only dropped the arXiv branch. */
  lemma {:induction false} CountGoodWithoutArxiv(env: Env, ids: seq<Value>)
    requires NoArxivEntries(ids)
    ensures CountGood(env, ids) == Beliefs.CountIsbns(env, ids)
  {
    if |ids| > 0 {
      var rest := ids[1..];
      assert NoArxivEntries(rest) by {
        forall i | 0 <= i < |rest| ensures rest[i] == ids[i + 1] { }
      }
      CountGoodWithoutArxiv(env, rest);
      var good: Result<nat> := if ids[0].Dict? then GoodIdentifier(env, ids[0].entries) else Err(AttributeError);
      var isbn: Result<nat> := if ids[0].Dict? then Beliefs.IsbnIdentifier(env, ids[0].entries) else Err(AttributeError);
      assert good == isbn;
    }
  }

  lemma ValidIdentifierWithoutArxiv(env: Env, ids: seq<Value>)
    requires NoArxivEntries(ids)
    ensures LegacyValidIdentifier(env, List(ids)) == Beliefs.ValidIdentifierCheck(env, List(ids))
  {
    CountGoodWithoutArxiv(env, ids);
  }

  // ---------------------------------------------------------------------
  // The table

  datatype Check =
    | WordsTitle
    | WordsAuth
    | ValidDoi
    | IsIntegerLike
    | IsPages
    | IsInteger
    | IsYear
    | IsYearLike
    | ValidIdentifier
    | Unity

  /** A table entry: a list of checks, or (for volume, issue and source) a
      bare function where a list was meant. */
  datatype Entry = Listed(checks: seq<Check>) | Bare(check: Check)

  function Apply(env: Env, c: Check, v: Value): (r: Result<real>)
    ensures r.Ok? ==> 0.0 <= r.value <= 1.0
  {
    match c
    case WordsTitle => LegacyWords(env, true, v)
    case WordsAuth => LegacyWords(env, false, v)
    case ValidDoi => Beliefs.GrammarCheck(env.validDoi, v)
    case IsIntegerLike => LegacyIsIntegerLike(v)
    case IsPages => Beliefs.IsPagesCheck(v)
    case IsInteger => Beliefs.IsIntegerCheck(v)
    case IsYear => Beliefs.IsYearCheck(v)
    case IsYearLike => LegacyIsYearLike(v)
    case ValidIdentifier => LegacyValidIdentifier(env, v)
    case Unity => Ok(1.0)
  }

  /** `BELIEF_FUNCTIONS.get(key, [unity])`. */
  function BeliefFunctions(key: string): (e: Entry)
    ensures e.Listed? ==> |e.checks| > 0
    ensures e.Bare? <==> key in {"volume", "issue", "source"}
  {
    match key
    case "title" => Listed([WordsTitle])
    case "raw" => Listed([WordsAuth, WordsTitle])
    case "authors" => Listed([WordsAuth])
    case "doi" => Listed([ValidDoi])
    case "volume" => Bare(Unity)
    case "issue" => Bare(Unity)
    case "pages" => Listed([IsIntegerLike, IsPages])
    case "source" => Bare(Unity)
    case "year" => Listed([IsInteger, IsIntegerLike, IsYear, IsYearLike])
    case "identifiers" => Listed([ValidIdentifier])
    case _ => Listed([Unity])
  }

  /** `sum([func(value) for func in funcs])`: the first check that raises
      fails the sum. */
  function SumChecks(env: Env, fs: seq<Check>, v: Value): (r: Result<real>)
    ensures r.Ok? <==> forall i :: 0 <= i < |fs| ==> Apply(env, fs[i], v).Ok?
    ensures r.Ok? ==> 0.0 <= r.value <= |fs| as real
  {
    if |fs| == 0 then Ok(0.0)
    else
      var head := Apply(env, fs[0], v);
      var rest := SumChecks(env, fs[1..], v);
      assert forall i :: 0 < i < |fs| ==> fs[i] == fs[1..][i - 1];
      if head.Err? then head
      else if rest.Err? then rest
      else Ok(head.value + rest.value)
  }

  /** The belief in one field value: the mean of its checks. A bare entry
      is not iterable and raises TypeError, whatever the value. */
  function FieldBelief(env: Env, key: string, v: Value): (r: Result<real>)
    ensures BeliefFunctions(key).Bare? ==> r == Err(TypeError)
    ensures BeliefFunctions(key).Listed? ==>
      (r.Ok? <==> forall i :: 0 <= i < |BeliefFunctions(key).checks| ==>
                    Apply(env, BeliefFunctions(key).checks[i], v).Ok?)
    ensures r.Ok? ==> 0.0 <= r.value <= 1.0
  {
    match BeliefFunctions(key)
    case Bare(_) => Err(TypeError)
    case Listed(fs) =>
      var total := SumChecks(env, fs, v);
      if total.Err? then Err(total.error)
      else
        RatioWithin(total.value, |fs| as real);
        Ok(total.value / |fs| as real)
  }

  /** `calculate_belief` on a reference dict: one belief per key, in the
      same order; the first field whose belief raises fails the record. */
  function CalculateBelief(env: Env, d: Table<Value>): (r: Result<Table<real>>)
    ensures r.Ok? <==> forall i :: 0 <= i < |d| ==> FieldBelief(env, d[i].0, d[i].1).Ok?
    ensures r.Ok? ==> Keys(r.value) == Keys(d)
    ensures r.Ok? ==> forall i :: 0 <= i < |d| ==> r.value[i].1 == FieldBelief(env, d[i].0, d[i].1).value
  {
    if |d| == 0 then Ok([])
    else
      var head := FieldBelief(env, d[0].0, d[0].1);
      var rest := CalculateBelief(env, d[1..]);
      assert forall i :: 0 < i < |d| ==> d[i] == d[1..][i - 1];
      if head.Err? then Err(head.error)
      else if rest.Err? then rest
      else
        var out := [(d[0].0, head.value)] + rest.value;
        assert Keys(out) == [d[0].0] + Keys(rest.value);
        Ok(out)
  }

  /** A record with a volume, issue or source field never gets beliefs. */
  lemma BareFieldFailsRecord(env: Env, d: Table<Value>, i: nat)
    requires i < |d| && d[i].0 in {"volume", "issue", "source"}
    ensures CalculateBelief(env, d).Err?
  {
    assert FieldBelief(env, d[i].0, d[i].1).Err?;
  }

  /** There is no shortcut for empty values: an empty year scores 0.0,
      where the current generation gives every falsy value 1.0. */
  lemma EmptyYearScoresZero(env: Env)
    ensures FieldBelief(env, "year", Str("")) == Ok(0.0)
    ensures Beliefs.FieldBelief(env, "year", Str("")) == 1.0
  {
    LegacyEmptyYear(env);
    CurrentEmptyYear(env);
  }

  lemma CurrentEmptyYear(env: Env)
    ensures Beliefs.FieldBelief(env, "year", Str("")) == 1.0
  {
  }

  lemma LegacyEmptyYear(env: Env)
    ensures FieldBelief(env, "year", Str("")) == Ok(0.0)
  {
    var fs := [IsInteger, IsIntegerLike, IsYear, IsYearLike];
    assert BeliefFunctions("year") == Listed(fs);
    EmptyYearApplies(env);
    SumChecksZero(env, fs, Str(""));
    FieldBeliefZero(env, "year", fs, Str(""));
  }

  lemma EmptyYearApplies(env: Env)
    ensures var fs := [IsInteger, IsIntegerLike, IsYear, IsYearLike];
      forall i :: 0 <= i < |fs| ==> Apply(env, fs[i], Str("")) == Ok(0.0)
  {
    EmptyYearChecks();
  }

  /** A field whose checks sum to 0.0 has belief 0.0. */
  lemma FieldBeliefZero(env: Env, key: string, fs: seq<Check>, v: Value)
    requires BeliefFunctions(key) == Listed(fs)
    requires SumChecks(env, fs, v) == Ok(0.0)
    ensures FieldBelief(env, key, v) == Ok(0.0)
  {
    assert 0.0 / (|fs| as real) == 0.0;
  }

  /** Checks that all score 0.0 sum to 0.0. */
  lemma {:induction false} SumChecksZero(env: Env, fs: seq<Check>, v: Value)
    requires forall i :: 0 <= i < |fs| ==> Apply(env, fs[i], v) == Ok(0.0)
    ensures SumChecks(env, fs, v) == Ok(0.0)
  {
    if |fs| > 0 {
      var rest := fs[1..];
      forall i | 0 <= i < |rest|
        ensures Apply(env, rest[i], v) == Ok(0.0)
      {
        assert rest[i] == fs[i + 1];
      }
      SumChecksZero(env, rest, v);
      assert Apply(env, fs[0], v) == Ok(0.0);
    }
  }

  lemma EmptyYearChecks()
    ensures Beliefs.IsYearCheck(Str("")) == Ok(0.0)
    ensures Beliefs.IsIntegerCheck(Str("")) == Ok(0.0)
    ensures LegacyIsIntegerLike(Str("")) == Ok(0.0)
    ensures LegacyIsYearLike(Str("")) == Ok(0.0)
  {
    assert LooseScan("", 0) == [];
  }
}
