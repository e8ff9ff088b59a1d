/** How plausible each field value of an extracted reference is: a table of
    field checks, each giving a probability in [0, 1], averaged per field.
    This is the current generation of the merge step. */
module Beliefs {
  import opened Base
  import opened Text
  import opened Tables
  import opened Json
  import opened Externals
  import opened Patterns
  import opened Domain

  // ---------------------------------------------------------------------
  // Word filters

  /** The number of words the filter accepts. */
  function CountAccepted(words: seq<string>, accepts: string -> bool): (n: nat)
    ensures n <= |words|
  {
    if |words| == 0 then 0
    else (if accepts(words[0]) then 1 else 0) + CountAccepted(words[1..], accepts)
  }

  /** `bloom_match`: the fraction of the cleaned words the filter knows;
      0.0 when the cleaned text has no words. */
  function BloomMatch(env: Env, accepts: string -> bool, text: string): (p: real)
    ensures 0.0 <= p <= 1.0
    ensures |Split(env.cleanText(text, true))| == 0 ==> p == 0.0
  {
    var words := Split(env.cleanText(text, true));
    if |words| == 0 then 0.0
    else
      RatioWithin(CountAccepted(words, accepts) as real, |words| as real);
      CountAccepted(words, accepts) as real / |words| as real
  }

  /** `words_title`/`words_auth` applied to a value: `unity` when the
      filters are not loaded; `clean_text` calls `lower` on its argument, so
      a value that is not a string raises AttributeError. */
  function WordsCheck(env: Env, title: bool, v: Value): (r: Result<real>)
    ensures env.filters.None? ==> r == Ok(1.0)
    ensures env.filters.Some? && !v.Str? ==> r.Err?
    ensures r.Ok? ==> 0.0 <= r.value <= 1.0
  {
    match env.filters
    case None => Ok(1.0)
    case Some(f) =>
      if v.Str? then Ok(BloomMatch(env, if title then f.title else f.auth, v.s))
      else Err(AttributeError)
  }

  // ---------------------------------------------------------------------
  // Checks

  /** The checks the belief table refers to. `Likely` clamps another
      check's result. */
  datatype Check =
    | WordsTitle
    | WordsAuth
    | MinimumLength(length: int)
    | WordsAuthorStructure
    | ValidDoi
    | ContainsText(substring: string, falseProb: real, trueProb: real)
    | EndsWithText(suffix: string, falseProb: real, trueProb: real)
    | Likely(inner: Check, minProb: real, maxProb: real)
    | IsIntegerLike
    | IsPages
    | DoesNotContainArxiv
    | IsInteger
    | IsYearLike
    | IsYear
    | ValidIdentifier
    | ValidArxivId
    | Unity

  /** `doesnt_end_with`: `ends_with` with the two probabilities swapped. */
  function DoesntEndWith(suffix: string, falseProb: real, trueProb: real): (c: Check)
    ensures c.EndsWithText? && c.suffix == suffix
  {
    EndsWithText(suffix, trueProb, falseProb)
  }

  /** Every probability a check can return lies in [0, 1]. */
  predicate WellFormed(c: Check)
  {
    match c
    case ContainsText(_, f, t) => 0.0 <= f <= 1.0 && 0.0 <= t <= 1.0
    case EndsWithText(_, f, t) => 0.0 <= f <= 1.0 && 0.0 <= t <= 1.0
    case Likely(inner, lo, hi) => WellFormed(inner) && 0.0 <= lo <= hi <= 1.0
    case _ => true
  }

  /** `len(value)`: strings, lists and dicts have one. */
  function Length(v: Value): (r: Result<nat>)
    ensures r.Ok? <==> v.Str? || v.List? || v.Dict?
  {
    match v
    case Str(s) => Ok(|s|)
    case List(items) => Ok(|items|)
    case Dict(entries) => Ok(|entries|)
    case _ => Err(TypeError)
  }

  /** `minimum_length(n)`: only a non-empty value shorter than `n` is
      penalised. */
  function MinimumLengthCheck(n: int, v: Value): (r: Result<real>)
    ensures r.Ok? <==> Length(v).Ok?
    ensures r.Ok? ==> (r.value == 0.0 <==> 0 < Length(v).value < n)
    ensures r.Ok? ==> r.value == 0.0 || r.value == 1.0
  {
    match Length(v)
    case Ok(len) => Ok(if n > len > 0 then 0.0 else 1.0)
    case Err(e) => Err(e)
  }

  /** `int(value)` succeeded or raised ValueError; any other exception
      passes through. */
  function IsIntegerCheck(v: Value): (r: Result<real>)
    ensures r == Ok(1.0) <==> IntOf(v).Ok?
    ensures r.Ok? ==> r.value == 0.0 || r.value == 1.0
    ensures r.Err? <==> IntOf(v).Err? && !IntOf(v).error.ValueError?
  {
    match IntOf(v)
    case Ok(_) => Ok(1.0)
    case Err(ValueError(_)) => Ok(0.0)
    case Err(e) => Err(e)
  }

  predicate YearRange(y: int) { 1600 < y < 2100 }

  /** `is_year`: 1.0 exactly when `int(value)` lies strictly between 1600
      and 2100. */
  function IsYearCheck(v: Value): (r: Result<real>)
    ensures r == Ok(1.0) <==> IntOf(v).Ok? && YearRange(IntOf(v).value)
    ensures r.Ok? ==> r.value == 0.0 || r.value == 1.0
    ensures r.Err? <==> IntOf(v).Err? && !IntOf(v).error.ValueError?
  {
    match IntOf(v)
    case Ok(y) => Ok(if YearRange(y) then 1.0 else 0.0)
    case Err(ValueError(_)) => Ok(0.0)
    case Err(e) => Err(e)
  }

  /** The sum of `is_integer` over the matched numbers; none of them can
      fail, since each is a run of digits. */
  function IntegerScores(numbers: seq<string>): (r: Result<real>)
  {
    if |numbers| == 0 then Ok(0.0)
    else
      var head := IsIntegerCheck(Str(numbers[0]));
      var rest := IntegerScores(numbers[1..]);
      if head.Err? then head
      else if rest.Err? then rest
      else Ok(head.value + rest.value)
  }

  lemma {:induction false} IntegerScoresOfDigits(numbers: seq<string>)
    requires forall i :: 0 <= i < |numbers| ==> |numbers[i]| > 0 && AllDigits(numbers[i])
    ensures IntegerScores(numbers) == Ok(|numbers| as real)
  {
    if |numbers| > 0 {
      var head, tail := numbers[0], numbers[1..];
      IntOfDigits(head);
      assert IsIntegerCheck(Str(head)) == Ok(1.0);
      forall i | 0 <= i < |tail| ensures |tail[i]| > 0 && AllDigits(tail[i]) {
        assert tail[i] == numbers[i + 1];
      }
      IntegerScoresOfDigits(tail);
      assert IntegerScores(numbers) == Ok(1.0 + |tail| as real);
    }
  }

  /** The fraction of the characters of `s` that the RE_INTEGER matches
      consume. */
  function ConsumedFraction(s: string): (f: real)
    requires |s| > 0
    ensures 0.0 <= f <= 1.0
  {
    var leftover := IntegerLeftoverLength(s);
    RatioWithin((|s| - leftover) as real, |s| as real);
    (|s| - leftover) as real / |s| as real
  }

  /** A mean of `n` ones scales a fraction by one. */
  lemma UnitMean(total: real, n: real, x: real)
    requires n > 0.0 && total == n
    ensures total / n * x == x
  {
    DivSelf(n);
  }

  /** The string case of `is_integer_like`: the mean `is_integer` of the
      RE_INTEGER matches times the fraction of the characters those matches
      consume, and 0 when nothing matches. Every match is a run of digits,
      so the mean is 1 and the score is the consumed fraction. */
  function IntegerLikeScore(s: string): (r: real)
    requires |s| > 0
    ensures |FindIntegers(s)| == 0 ==> r == 0.0
    ensures |FindIntegers(s)| > 0 ==> r == ConsumedFraction(s)
    ensures 0.0 <= r <= 1.0
  {
    var numbers := FindIntegers(s);
    if |numbers| == 0 then 0.0 else MeanTimesFraction(numbers, ConsumedFraction(s))
  }

  /** The mean `is_integer` of runs of digits, which is 1, times a
      fraction. */
  function MeanTimesFraction(numbers: seq<string>, fraction: real): (r: real)
    requires |numbers| > 0
    requires forall i :: 0 <= i < |numbers| ==> |numbers[i]| > 0 && AllDigits(numbers[i])
    ensures r == fraction
  {
    var n := |numbers| as real;
    assert IntegerScores(numbers) == Ok(n) by { IntegerScoresOfDigits(numbers); }
    UnitMean(IntegerScores(numbers).value, n, fraction);
    IntegerScores(numbers).value / n * fraction
  }

  /** `is_integer_like`: None, an empty value and non-strings score 0, an
      int (bool included) scores 1, a non-empty string scores
      `IntegerLikeScore`. */
  function IsIntegerLikeCheck(v: Value): (r: Result<real>)
    ensures r.Ok? && 0.0 <= r.value <= 1.0
    ensures v.Null? || (v.Str? && |FindIntegers(v.s)| == 0) ==> r == Ok(0.0)
    ensures v.Int? || v.Bool? ==> r == Ok(1.0)
    ensures !v.Str? && !v.Int? && !v.Bool? ==> r == Ok(0.0)
    ensures v.Str? && |FindIntegers(v.s)| > 0 ==> r == Ok(ConsumedFraction(v.s))
  {
    match v
    case Null => Ok(0.0)
    case Int(_) => Ok(1.0)
    case Bool(_) => Ok(1.0)
    case Str(s) => if |s| == 0 then Ok(0.0) else Ok(IntegerLikeScore(s))
    case _ => Ok(0.0)
  }

  /** The sum of `is_year` over the matched numbers. */
  function YearScores(numbers: seq<string>): (r: Result<real>)
  {
    if |numbers| == 0 then Ok(0.0)
    else
      var head := IsYearCheck(Str(numbers[0]));
      var rest := YearScores(numbers[1..]);
      if head.Err? then head
      else if rest.Err? then rest
      else Ok(head.value + rest.value)
  }

  /** The number of matched numbers in the year range. */
  function CountYears(numbers: seq<string>): (n: nat)
    requires forall i :: 0 <= i < |numbers| ==> AllDigits(numbers[i])
    ensures n <= |numbers|
  {
    if |numbers| == 0 then 0
    else (if YearRange(DigitsValue(numbers[0])) then 1 else 0) + CountYears(numbers[1..])
  }

  lemma {:induction false} YearScoresCons(numbers: seq<string>, x: real, y: real)
    requires |numbers| > 0 && IsYearCheck(Str(numbers[0])) == Ok(x) && YearScores(numbers[1..]) == Ok(y)
    ensures YearScores(numbers) == Ok(x + y)
  {
  }

  lemma CastSum(b: bool, c: nat)
    ensures ((if b then 1 else 0) + c) as real == (if b then 1.0 else 0.0) + c as real
  {
  }

  lemma {:induction false} YearScoresCount(numbers: seq<string>)
    requires forall i :: 0 <= i < |numbers| ==> |numbers[i]| > 0 && AllDigits(numbers[i])
    ensures YearScores(numbers) == Ok(CountYears(numbers) as real)
  {
    if |numbers| > 0 {
      var head, tail := numbers[0], numbers[1..];
      var x := if YearRange(DigitsValue(head)) then 1.0 else 0.0;
      assert IsYearCheck(Str(head)) == Ok(x) by { IntOfDigits(head); }
      forall i | 0 <= i < |tail| ensures |tail[i]| > 0 && AllDigits(tail[i]) {
        assert tail[i] == numbers[i + 1];
      }
      YearScoresCount(tail);
      var c := CountYears(tail);
      YearScoresCons(numbers, x, c as real);
      assert CountYears(numbers) == (if YearRange(DigitsValue(head)) then 1 else 0) + c;
      CastSum(YearRange(DigitsValue(head)), c);
    }
  }

  /** The string case of `is_year_like`: the mean `is_year` of the
      RE_INTEGER matches, which is the share of them in the year range. */
  function YearLikeScore(s: string): (r: real)
    requires |FindIntegers(s)| > 0
    ensures r == CountYears(FindIntegers(s)) as real / |FindIntegers(s)| as real
    ensures 0.0 <= r <= 1.0
  {
    var numbers := FindIntegers(s);
    var n := |numbers| as real;
    var count := CountYears(numbers) as real;
    assert YearScores(numbers) == Ok(count) by { YearScoresCount(numbers); }
    RatioWithin(count, n);
    YearScores(numbers).value / n
  }

  /** `is_year_like`: the mean `is_year` of the RE_INTEGER matches; 0.0
      when there are none, and 0.0 when anything raises (a value that is
      not a string makes `re.findall` raise). */
  function IsYearLikeCheck(v: Value): (r: Result<real>)
    ensures r.Ok? && 0.0 <= r.value <= 1.0
    ensures !v.Str? ==> r == Ok(0.0)
    ensures v.Str? && |FindIntegers(v.s)| == 0 ==> r == Ok(0.0)
    ensures v.Str? && |FindIntegers(v.s)| > 0 ==>
      r == Ok(CountYears(FindIntegers(v.s)) as real / |FindIntegers(v.s)| as real)
  {
    match v
    case Str(s) => if |FindIntegers(s)| == 0 then Ok(0.0) else Ok(YearLikeScore(s))
    case _ => Ok(0.0)
  }

  /** `is_pages`: a leading number, a separator run and a second number
      score 1.0 when the first is smaller, 0.5 otherwise; no such prefix
      scores 0.0; `re.match` raises on a value that is not a string. */
  function IsPagesCheck(v: Value): (r: Result<real>)
    ensures r.Ok? <==> v.Str?
    ensures v.Str? && PagesMatch(v.s).None? ==> r == Ok(0.0)
    ensures v.Str? && PagesMatch(v.s).Some? ==>
      var (a, b) := PagesMatch(v.s).value;
      r == Ok(if DigitsValue(a) < DigitsValue(b) then 1.0 else 0.5)
  {
    match v
    case Str(s) =>
      (match PagesMatch(s)
       case None => Ok(0.0)
       case Some((a, b)) =>
         ParseDigits(a);
         ParseDigits(b);
         var start := IntOf(Str(a)).value;
         var end := IntOf(Str(b)).value;
         Ok(if start < end then 1.0 else 0.5))
    case _ => Err(TypeError)
  }

  /** `valid_doi`, `valid_arxiv_id`: the grammar decides; `re.match`
      raises on a value that is not a string. */
  function GrammarCheck(grammar: string -> bool, v: Value): (r: Result<real>)
    ensures r.Ok? <==> v.Str?
    ensures v.Str? ==> r == Ok(if grammar(v.s) then 1.0 else 0.0)
  {
    if v.Str? then Ok(if grammar(v.s) then 1.0 else 0.0) else Err(TypeError)
  }

  /** One entry's contribution: 1 for an ISBN of valid form; the
      grammars need a string. */
  function IsbnIdentifier(env: Env, entries: Table<Value>): (r: Result<nat>)
    ensures r.Ok? ==> r.value <= 1
    ensures GetOr(entries, "identifier_type", Str("")) != Str("isbn") ==> r == Ok(0)
  {
    var idtype := GetOr(entries, "identifier_type", Str(""));
    var idvalue := GetOr(entries, "identifier", Str(""));
    if idtype != Str("isbn") then Ok(0)
    else if !idvalue.Str? then Err(TypeError)
    else Ok(if env.validIsbn10(idvalue.s) || env.validIsbn13(idvalue.s) then 1 else 0)
  }

  /** The number of entries of an identifier list that are ISBNs of valid
      form; entries are read with `.get`, so each must be a dict. */
  function CountIsbns(env: Env, ids: seq<Value>): (r: Result<nat>)
    ensures r.Ok? ==> r.value <= |ids|
  {
    if |ids| == 0 then Ok(0)
    else
      var here: Result<nat> := if ids[0].Dict? then IsbnIdentifier(env, ids[0].entries) else Err(AttributeError);
      AddCount(here, CountIsbns(env, ids[1..]))
  }

  /** One entry's count in front of the count of the rest: the first
      failure propagates. */
  function AddCount(here: Result<nat>, rest: Result<nat>): (r: Result<nat>)
    ensures r.Ok? <==> here.Ok? && rest.Ok?
    ensures r.Ok? ==> r.value == here.value + rest.value
    ensures r.Err? ==> r.error == if here.Err? then here.error else rest.error
  {
    if here.Err? then Err(here.error)
    else if rest.Err? then rest
    else Ok(here.value + rest.value)
  }

  /** `valid_identifier`: the fraction of identifiers that are valid ISBNs;
      an empty list divides by zero. */
  function ValidIdentifierCheck(env: Env, v: Value): (r: Result<real>)
    ensures r.Ok? ==> 0.0 <= r.value <= 1.0
    ensures v == List([]) ==> r == Err(ZeroDivisionError)
  {
    match v
    case List(ids) =>
      if |ids| == 0 then Err(ZeroDivisionError)
      else
        (match CountIsbns(env, ids)
         case Ok(n) =>
           RatioWithin(n as real, |ids| as real);
           Ok(n as real / |ids| as real)
         case Err(e) => Err(e))
    case Str(s) => if |s| == 0 then Err(ZeroDivisionError) else Err(AttributeError)
    case Dict(e) => if |e| == 0 then Err(ZeroDivisionError) else Err(AttributeError)
    case _ => Err(TypeError)
  }

  /** `asdict` spells the identifier type `identifer_type`, so the lookup
      of `identifier_type` in a serialised Identifier always misses and
      no identifier of a reference ever counts. */
  lemma {:induction false} SerialisedIdentifiersNeverCount(env: Env, ids: seq<Identifier>)
    ensures CountIsbns(env, IdentifierDicts(ids)) == Ok(0)
  {
    if |ids| > 0 {
      var d := IdentifierDicts(ids);
      assert d[1..] == IdentifierDicts(ids[1..]);
      var entries := AsDictEntries(IdentifierValue(ids[0]).attrs);
      assert !HasKey(entries, "identifier_type") by {
        assert Keys(entries) == IdentifierFields;
      }
      SerialisedIdentifiersNeverCount(env, ids[1..]);
    }
  }

  /** The identifiers list as `to_dict` renders it. */
  function IdentifierDicts(ids: seq<Identifier>): (r: seq<Value>)
    ensures |r| == |ids|
    ensures forall i :: 0 <= i < |ids| ==> r[i] == AsDict(IdentifierValue(ids[i]))
  {
    if |ids| == 0 then [] else [AsDict(IdentifierValue(ids[0]))] + IdentifierDicts(ids[1..])
  }

  /** So `valid_identifier` scores a reference's non-empty identifier list
      0.0. */
  lemma ValidIdentifierOfReference(env: Env, ids: seq<Identifier>)
    requires |ids| > 0
    ensures ValidIdentifierCheck(env, List(IdentifierDicts(ids))) == Ok(0.0)
  {
    var d := IdentifierDicts(ids);
    SerialisedIdentifiersNeverCount(env, ids);
    NoIsbnsScoresZero(env, d);
  }

  lemma NoIsbnsScoresZero(env: Env, ids: seq<Value>)
    requires |ids| > 0 && CountIsbns(env, ids) == Ok(0)
    ensures ValidIdentifierCheck(env, List(ids)) == Ok(0.0)
  {
    assert (0 as real) / (|ids| as real) == 0.0;
  }

  /** The values of a dict if all are strings: `' '.join(d.values())`
      raises TypeError otherwise. */
  function StrValues(entries: Table<Value>): (r: Option<seq<string>>)
    ensures r.Some? ==> |r.value| == |entries|
  {
    if |entries| == 0 then Some([])
    else
      match (entries[0].1, StrValues(entries[1..]))
      case (Str(s), Some(rest)) => Some([s] + rest)
      case _ => None
  }

  /** One author's contribution: the author-word filter's score of the
      cleaned full name, divided by the number of surname words. */
  function AuthorScore(env: Env, auth: Value): (r: Result<real>)
    ensures r.Ok? ==> 0.0 <= r.value <= 1.0
  {
    match auth
    case Dict(entries) =>
      (match StrValues(entries)
       case None => Err(TypeError)
       case Some(parts) =>
         var name := env.cleanText(Join(" ", parts), false);
         var mod := WordsCheck(env, false, Str(name)).value;
         var surname := DictGet(entries, "surname");
         if !Truthy(surname) then Ok(mod)
         else if !surname.Str? then Err(AttributeError)
         else
           var n := |Split(surname.s)|;
           if n == 0 then Err(ZeroDivisionError)
           else
             assert 1.0 / n as real <= 1.0;
             assert 0.0 <= mod * (1.0 / n as real) <= mod;
             Ok(mod * (1.0 / n as real)))
    case _ => Err(AttributeError)
  }

  function AuthorScores(env: Env, authors: seq<Value>): (r: Result<real>)
    ensures r.Ok? ==> 0.0 <= r.value <= |authors| as real
  {
    if |authors| == 0 then Ok(0.0)
    else
      match (AuthorScore(env, authors[0]), AuthorScores(env, authors[1..]))
      case (Ok(x), Ok(rest)) => Ok(x + rest)
      case (Err(e), _) => Err(e)
      case (_, Err(e)) => Err(e)
  }

  /** `words_author_structure`: the mean author score, 0.0 with no authors;
      iterating a non-empty string or dict yields strings, which have no
      `values`; other values are not iterable. */
  function WordsAuthorStructureCheck(env: Env, v: Value): (r: Result<real>)
    ensures r.Ok? ==> 0.0 <= r.value <= 1.0
    ensures v == List([]) ==> r == Ok(0.0)
  {
    match v
    case List(authors) =>
      if |authors| == 0 then Ok(0.0)
      else
        (match AuthorScores(env, authors)
         case Ok(total) =>
           RatioWithin(total, |authors| as real);
           Ok(total / |authors| as real)
         case Err(e) => Err(e))
    case Str(s) => if |s| == 0 then Ok(0.0) else Err(AttributeError)
    case Dict(e) => if |e| == 0 then Ok(0.0) else Err(AttributeError)
    case _ => Err(TypeError)
  }

  function Clamp(x: real, lo: real, hi: real): (p: real)
    ensures lo <= hi ==> lo <= p <= hi
    ensures lo <= x <= hi ==> p == x
  {
    Max(Min(x, hi), lo)
  }

  /** Running one check on a value. */
  function Apply(env: Env, c: Check, v: Value): (r: Result<real>)
    ensures WellFormed(c) && r.Ok? ==> 0.0 <= r.value <= 1.0
    ensures c.Likely? && r.Ok? ==> c.minProb <= c.maxProb ==> c.minProb <= r.value <= c.maxProb
    decreases c
  {
    match c
    case WordsTitle => WordsCheck(env, true, v)
    case WordsAuth => WordsCheck(env, false, v)
    case MinimumLength(n) => MinimumLengthCheck(n, v)
    case WordsAuthorStructure => WordsAuthorStructureCheck(env, v)
    case ValidDoi => GrammarCheck(env.validDoi, v)
    case ContainsText(sub, f, t) =>
      Ok(if !v.Str? then 0.0 else if Contains(v.s, sub) then t else f)
    case EndsWithText(suffix, f, t) =>
      Ok(if !v.Str? then 0.0 else if EndsWith(v.s, suffix) then t else f)
    case Likely(inner, lo, hi) =>
      (match Apply(env, inner, v)
       case Ok(x) => Ok(Clamp(x, lo, hi))
       case Err(e) => Err(e))
    case IsIntegerLike => IsIntegerLikeCheck(v)
    case IsPages => IsPagesCheck(v)
    case DoesNotContainArxiv =>
      Ok(if !v.Str? then 0.0 else if Contains(v.s, "arxiv") then 0.0 else 1.0)
    case IsInteger => IsIntegerCheck(v)
    case IsYearLike => IsYearLikeCheck(v)
    case IsYear => IsYearCheck(v)
    case ValidIdentifier => ValidIdentifierCheck(env, v)
    case ValidArxivId => GrammarCheck(env.validArxivStrict, v)
    case Unity => Ok(1.0)
  }

  /** `contains` and `ends_with` give 0.0 for a value that is not a
      string, and otherwise one of their two probabilities. */
  lemma SubstringChecks(env: Env, sub: string, f: real, t: real, v: Value)
    ensures Apply(env, ContainsText(sub, f, t), v) ==
      Ok(if !v.Str? then 0.0 else if Contains(v.s, sub) then t else f)
    ensures Apply(env, EndsWithText(sub, f, t), v) ==
      Ok(if !v.Str? then 0.0 else if EndsWith(v.s, sub) then t else f)
  {
  }

  /** On a string, `doesnt_end_with` with the default probabilities is the
      complement of `ends_with`. */
  lemma DoesntEndWithComplement(env: Env, suffix: string, s: string)
    ensures Apply(env, DoesntEndWith(suffix, 0.0, 1.0), Str(s)).value
          + Apply(env, EndsWithText(suffix, 0.0, 1.0), Str(s)).value == 1.0
  {
  }

  /** `BELIEF_FUNCTIONS.get(key, [unity])`. The table's `arxiv` entry is
      keyed by a name no field has. */
  function BeliefFunctions(key: string): (fs: seq<Check>)
    ensures |fs| > 0
    ensures forall i :: 0 <= i < |fs| ==> WellFormed(fs[i])
  {
    match key
    case "title" => [WordsTitle, MinimumLength(5)]
    case "raw" => [WordsTitle, WordsAuth]
    case "authors" => [WordsAuthorStructure]
    case "doi" => [ValidDoi, ContainsText(".", 0.0, 1.0), ContainsText("/", 0.0, 1.0),
                   DoesntEndWith("-", 0.0, 1.0)]
    case "volume" => [Likely(IsIntegerLike, 0.8, 1.0)]
    case "pages" => [IsIntegerLike, IsPages]
    case "source" => [DoesNotContainArxiv]
    case "year" => [IsIntegerLike, IsInteger, IsYearLike, IsYear]
    case "identifiers" => [ValidIdentifier]
    case "arxiv" => [ValidArxivId]
    case _ => [Unity]
  }

  /** A failing check contributes nothing to the sum. */
  function Contribution(r: Result<real>): real
  {
    match r
    case Ok(x) => x
    case Err(_) => 0.0
  }

  function Contributions(env: Env, fs: seq<Check>, v: Value): (cs: seq<real>)
    ensures |cs| == |fs|
    ensures forall i :: 0 <= i < |fs| ==> cs[i] == Contribution(Apply(env, fs[i], v))
  {
    if |fs| == 0 then [] else [Contribution(Apply(env, fs[0], v))] + Contributions(env, fs[1..], v)
  }

  /** The belief in one field value: 1.0 for a falsy value, else the sum of
      the checks' results over the number of checks, failed checks
      counting in the divisor. */
  function FieldBelief(env: Env, key: string, v: Value): (p: real)
    ensures !Truthy(v) ==> p == 1.0
    ensures Truthy(v) ==>
      p == Sum(Contributions(env, BeliefFunctions(key), v)) / |BeliefFunctions(key)| as real
  {
    if !Truthy(v) then 1.0
    else
      var fs := BeliefFunctions(key);
      Sum(Contributions(env, fs, v)) / |fs| as real
  }

  lemma FieldBeliefInRange(env: Env, key: string, v: Value)
    ensures 0.0 <= FieldBelief(env, key, v) <= 1.0
  {
    if Truthy(v) {
      var fs := BeliefFunctions(key);
      var cs := Contributions(env, fs, v);
      assert AllWithin(cs, 0.0, 1.0);
      MeanWithin(cs, 0.0, 1.0);
    }
  }

  /** `calculate_belief`: one belief per key of `to_dict`, in the same
      order. */
  function CalculateBelief(env: Env, r: Reference): (b: Table<real>)
    ensures Keys(b) == Keys(ToDict(r))
    ensures forall i :: 0 <= i < |b| ==> b[i].1 == FieldBelief(env, b[i].0, ToDict(r)[i].1)
  {
    var d := ToDict(r);
    MapEntries(env, d)
  }

  function MapEntries(env: Env, d: Table<Value>): (b: Table<real>)
    ensures Keys(b) == Keys(d)
    ensures forall i :: 0 <= i < |b| ==> b[i].1 == FieldBelief(env, d[i].0, d[i].1)
  {
    if |d| == 0 then [] else [(d[0].0, FieldBelief(env, d[0].0, d[0].1))] + MapEntries(env, d[1..])
  }

  /** Every belief lies in [0, 1]. */
  lemma CalculateBeliefInRange(env: Env, r: Reference, i: nat)
    requires i < |CalculateBelief(env, r)|
    ensures 0.0 <= CalculateBelief(env, r)[i].1 <= 1.0
  {
    var b := CalculateBelief(env, r);
    FieldBeliefInRange(env, b[i].0, ToDict(r)[i].1);
  }

  /** A year given as the int 2011 scores 0.75, because `re.findall` raises
      on an int inside `is_year_like`, which then scores 0.0. */
  lemma YearBeliefs(env: Env)
    ensures FieldBelief(env, "year", Int(2011)) == 0.75
  {
    var fs := BeliefFunctions("year");
    assert fs == [IsIntegerLike, IsInteger, IsYearLike, IsYear];
    var v := Int(2011);
    assert Apply(env, IsIntegerLike, v) == Ok(1.0);
    assert Apply(env, IsInteger, v) == Ok(1.0);
    assert Apply(env, IsYearLike, v) == Ok(0.0);
    assert Apply(env, IsYear, v) == Ok(1.0);
    var cs := Contributions(env, fs, v);
    assert cs == [1.0, 1.0, 0.0, 1.0];
    assert cs[1..][1..][1..][1..] == [];
    assert Sum(cs[1..][1..][1..]) == 1.0;
    assert Sum(cs[1..]) == 2.0;
    assert Sum(cs) == 3.0;
  }

  /** `validate`: beliefs with the shape of the aligned groups. */
  function Validate(env: Env, aligned: seq<seq<(string, Reference)>>): (out: seq<seq<(string, Table<real>)>>)
    ensures |out| == |aligned|
    ensures forall g :: 0 <= g < |aligned| ==> |out[g]| == |aligned[g]|
    ensures forall g, j :: 0 <= g < |aligned| && 0 <= j < |aligned[g]| ==>
      out[g][j] == (aligned[g][j].0, CalculateBelief(env, aligned[g][j].1))
  {
    if |aligned| == 0 then [] else [ValidateGroup(env, aligned[0])] + Validate(env, aligned[1..])
  }

  function ValidateGroup(env: Env, group: seq<(string, Reference)>): (out: seq<(string, Table<real>)>)
    ensures |out| == |group|
    ensures forall j :: 0 <= j < |group| ==> out[j] == (group[j].0, CalculateBelief(env, group[j].1))
  {
    if |group| == 0 then [] else [(group[0].0, CalculateBelief(env, group[0].1))] + ValidateGroup(env, group[1..])
  }
}
