/** Clean-up of extracted references before they are aligned: dots in
    names and venues, stray punctuation around titles, arXiv identifiers
    missing the hyphen of their archive; and, after arbitration, the
    filtering of low-scoring records with a composite score. */
module Normalize {
  import opened Base
  import opened Text
  import opened Tables
  import opened Json
  import opened Externals
  import opened Domain

  // ---------------------------------------------------------------------
  // _remove_dots

  /** `re.sub(r"\.\s*", " ", s)`: every dot, with the whitespace after it,
      becomes one space. */
  function DotsReplaced(s: string): (r: string)
    ensures forall i :: 0 <= i < |r| ==> r[i] != '.'
    decreases |s|
  {
    if |s| == 0 then ""
    else if s[0] == '.' then " " + DotsReplaced(s[SkipSpaces(s, 1)..])
    else [s[0]] + DotsReplaced(s[1..])
  }

  predicate NoDot(s: string) { forall i :: 0 <= i < |s| ==> s[i] != '.' }

  lemma {:induction false} DotsReplacedNoDot(s: string)
    requires NoDot(s)
    ensures DotsReplaced(s) == s
    decreases |s|
  {
    if |s| > 0 {
      DotsReplacedNoDot(s[1..]);
      assert s == [s[0]] + s[1..];
    }
  }

  /** `_remove_dots`. */
  function RemoveDots(s: string): (r: string)
    ensures NoDot(r)
  {
    var t := DotsReplaced(s);
    var i := SkipSpaces(t, 0);
    assert Strip(t) == t[i..SkipSpacesBack(t, i, |t|)];
    Strip(t)
  }

  /** Removing dots a second time changes nothing. */
  lemma RemoveDotsIdempotent(s: string)
    ensures RemoveDots(RemoveDots(s)) == RemoveDots(s)
  {
    var r := RemoveDots(s);
    DotsReplacedNoDot(r);
    StripIdempotent(DotsReplaced(s));
  }

  /** `_remove_dots(s).title()`, applied to venues and author names. */
  function DotlessTitle(s: string): (r: string)
    ensures NoDot(r)
  {
    var t := RemoveDots(s);
    assert forall i :: 0 <= i < |t| ==> !IsCased(t[i]) ==> Text.Title(t)[i] == t[i];
    assert forall i :: 0 <= i < |t| ==> IsCased(t[i]) ==> Text.Title(t)[i] != '.';
    Text.Title(t)
  }

  // ---------------------------------------------------------------------
  // _remove_leading_trailing_nonalpha

  /** The first position at or after `i` holding an ASCII letter or digit. */
  function SkipNonAlnum(s: string, i: nat): (j: nat)
    requires i <= |s|
    ensures i <= j <= |s|
    ensures forall k :: i <= k < j ==> !IsAlnum(s[k])
    ensures j == |s| || IsAlnum(s[j])
    decreases |s| - i
  {
    if i < |s| && !IsAlnum(s[i]) then SkipNonAlnum(s, i + 1) else i
  }

  /** The end of `s[lo..j]` once its trailing run of other characters is
      dropped. */
  function SkipNonAlnumBack(s: string, lo: nat, j: nat): (i: nat)
    requires lo <= j <= |s|
    ensures lo <= i <= j
    ensures forall k :: i <= k < j ==> !IsAlnum(s[k])
    ensures i == lo || IsAlnum(s[i - 1])
    decreases j
  {
    if j > lo && !IsAlnum(s[j - 1]) then SkipNonAlnumBack(s, lo, j - 1) else j
  }

  predicate AlnumBounded(s: string)
  {
    |s| == 0 || (IsAlnum(s[0]) && IsAlnum(s[|s| - 1]))
  }

  /** `_remove_leading_trailing_nonalpha`: drop the maximal leading run and
      then the maximal trailing run of characters outside `[0-9a-zA-Z]`.
      `^` anchors at the start only, and a `$` before a final newline
      changes nothing, since the newline belongs to the run. */
  function TrimNonAlnum(s: string): (r: string)
    ensures |r| <= |s|
    ensures AlnumBounded(r)
  {
    var i := SkipNonAlnum(s, 0);
    s[i..SkipNonAlnumBack(s, i, |s|)]
  }

  /** The result is the one slice of `s` that is empty or starts and ends
      with a letter or digit and leaves only other characters outside it:
      the interior is kept as it is. */
  lemma TrimNonAlnumCharacterised(s: string, a: nat, b: nat)
    requires a <= b <= |s|
    requires forall k :: 0 <= k < a ==> !IsAlnum(s[k])
    requires forall k :: b <= k < |s| ==> !IsAlnum(s[k])
    requires AlnumBounded(s[a..b])
    ensures TrimNonAlnum(s) == s[a..b]
  {
    var i := SkipNonAlnum(s, 0);
    var j := SkipNonAlnumBack(s, i, |s|);
    if a < b {
      assert IsAlnum(s[a]) && IsAlnum(s[b - 1]);
      assert i == a;
      assert j == b;
    }
  }

  lemma TrimNonAlnumIdempotent(s: string)
    ensures TrimNonAlnum(TrimNonAlnum(s)) == TrimNonAlnum(s)
  {
    var r := TrimNonAlnum(s);
    TrimNonAlnumCharacterised(r, 0, |r|);
  }

  // ---------------------------------------------------------------------
  // _fix_arxiv_id

  /** The first archive whose spelling without hyphens occurs in `s`. */
  function FirstArchive(archives: seq<string>, s: string): (r: Option<nat>)
    ensures r.Some? ==> r.value < |archives| && Contains(s, RemoveHyphens(archives[r.value]))
    ensures r.Some? ==> forall j :: 0 <= j < r.value ==> !Contains(s, RemoveHyphens(archives[j]))
    ensures r.None? ==> forall j :: 0 <= j < |archives| ==> !Contains(s, RemoveHyphens(archives[j]))
  {
    if |archives| == 0 then None
    else if Contains(s, RemoveHyphens(archives[0])) then Some(0)
    else
      match FirstArchive(archives[1..], s)
      case None => None
      case Some(i) => Some(i + 1)
  }

  /** `_fix_arxiv_id` on a string: every occurrence of the first matching
      archive's hyphen-less spelling gets its hyphen back, and the search
      stops there. */
  function FixArxivId(archives: seq<string>, s: string): (r: string)
    ensures FirstArchive(archives, s).None? ==> r == s
    ensures FirstArchive(archives, s).Some? ==>
      var a := archives[FirstArchive(archives, s).value];
      r == Replace(s, RemoveHyphens(a), a)
  {
    match FirstArchive(archives, s)
    case None => s
    case Some(i) => Replace(s, RemoveHyphens(archives[i]), archives[i])
  }

  lemma {:induction false} RemoveHyphensNoHyphen(s: string)
    requires forall i :: 0 <= i < |s| ==> s[i] != '-'
    ensures RemoveHyphens(s) == s
  {
    if |s| > 0 {
      RemoveHyphensNoHyphen(s[1..]);
      assert s == [s[0]] + s[1..];
    }
  }

  lemma {:induction false} RemoveHyphensAppend(a: string, b: string)
    ensures RemoveHyphens(a + b) == RemoveHyphens(a) + RemoveHyphens(b)
    decreases |a|
  {
    if |a| > 0 {
      RemoveHyphensAppend(a[1..], b);
      assert (a + b)[0] == a[0] && (a + b)[1..] == a[1..] + b;
    } else {
      assert a + b == b;
    }
  }

  /** An archive without a hyphen that occurs first matches itself, ends
      the search and leaves the value as it was. */
  lemma HyphenlessArchiveStops(archives: seq<string>, s: string, i: nat)
    requires i < |archives| && forall k :: 0 <= k < |archives[i]| ==> archives[i][k] != '-'
    requires Contains(s, archives[i])
    requires forall j :: 0 <= j < i ==> !Contains(s, RemoveHyphens(archives[j]))
    ensures FixArxivId(archives, s) == s
  {
    RemoveHyphensNoHyphen(archives[i]);
    var f := FirstArchive(archives, s);
    assert f == Some(i);
    ReplaceSelf(s, archives[i]);
  }

  lemma HyphenatedSpellings()
    ensures RemoveHyphens("a-b") == "ab" && RemoveHyphens("c-d") == "cd"
  {
    assert "a-b"[1..] == "-b" && "-b"[1..] == "b" && "b"[1..] == "";
    assert "c-d"[1..] == "-d" && "-d"[1..] == "d" && "d"[1..] == "";
  }

  /** First pass over "ab cd": archive "a-b" is found and restored. */
  lemma FixFirstPass()
    ensures FixArxivId(["a-b", "c-d"], "ab cd") == "a-b cd"
  {
    HyphenatedSpellings();
    var s := "ab cd";
    ContainsAt(s, "ab", 0);
    assert FirstArchive(["a-b", "c-d"], s) == Some(0);
    assert StartsWith(s, "ab");
    assert s[2..] == " cd";
    AbsentFirstChar(" cd", "ab");
    ReplaceAbsent(" cd", "ab", "a-b");
  }

  /** Second pass over "a-b cd": "ab" is gone, so archive "c-d" is found. */
  lemma FixSecondPass()
    ensures FixArxivId(["a-b", "c-d"], "a-b cd") == "a-b c-d"
  {
    HyphenatedSpellings();
    var s := "a-b cd";
    assert s[..2][1] == '-';
    assert !StartsWith(s, "ab");
    AbsentFirstChar(s[1..], "ab");
    assert !Contains(s, "ab");
    assert s[4..6] == "cd";
    ContainsAt(s, "cd", 4);
    var archives := ["a-b", "c-d"];
    assert archives[1..] == ["c-d"];
    assert FirstArchive(archives[1..], s) == Some(0);
    assert FirstArchive(archives, s) == Some(1);
    ReplaceSkip(s, "cd", "c-d", 4);
    assert s[4..] == "cd" && StartsWith("cd", "cd") && "cd"[2..] == "";
    assert Replace("cd", "cd", "c-d") == "c-d";
    assert s[..4] + "c-d" == "a-b c-d";
  }

  /** The search stops at the first archive, so a value holding two
      hyphen-less archives needs two passes: the fix is not idempotent. */
  lemma FixArxivIdNotIdempotent()
    ensures var archives := ["a-b", "c-d"];
      FixArxivId(archives, "ab cd") == "a-b cd"
      && FixArxivId(archives, FixArxivId(archives, "ab cd")) == "a-b c-d"
  {
    FixFirstPass();
    FixSecondPass();
  }

  // ---------------------------------------------------------------------
  // _fix_arxiv_id as evidently intended

  /** The first archive that has a hyphen and whose spelling without it
      occurs in `s`: only these spellings are typos. */
  function FirstTypo(archives: seq<string>, s: string): (r: Option<nat>)
    ensures r.Some? ==> r.value < |archives| && '-' in archives[r.value]
                        && Contains(s, RemoveHyphens(archives[r.value]))
    ensures r.Some? ==> forall j :: 0 <= j < r.value ==> !('-' in archives[j] && Contains(s, RemoveHyphens(archives[j])))
    ensures r.None? ==> forall j :: 0 <= j < |archives| ==> !('-' in archives[j] && Contains(s, RemoveHyphens(archives[j])))
  {
    if |archives| == 0 then None
    else if '-' in archives[0] && Contains(s, RemoveHyphens(archives[0])) then Some(0)
    else
      match FirstTypo(archives[1..], s)
      case None => None
      case Some(i) => Some(i + 1)
  }

  /** The arXiv fix restoring the hyphen of the first hyphenated archive
      whose typo occurs; an archive without a hyphen is no typo of itself
      and does not end the search. */
  function FixArxivTypo(archives: seq<string>, s: string): (r: string)
    ensures (forall j :: 0 <= j < |archives| ==> !('-' in archives[j] && Contains(s, RemoveHyphens(archives[j])))) ==> r == s
    ensures FirstTypo(archives, s).Some? ==>
      var a := archives[FirstTypo(archives, s).value];
      '-' in a && r == Replace(s, RemoveHyphens(a), a)
  {
    match FirstTypo(archives, s)
    case None => s
    case Some(i) => Replace(s, RemoveHyphens(archives[i]), archives[i])
  }

  /** Where the first archive found has a hyphen, or none is found, the
      intended fix is the one written. */
  lemma FixArxivTypoAgrees(archives: seq<string>, s: string)
    requires FirstArchive(archives, s).Some? ==> '-' in archives[FirstArchive(archives, s).value]
    ensures FixArxivTypo(archives, s) == FixArxivId(archives, s)
  {
    match FirstArchive(archives, s)
    case None =>
      assert FirstTypo(archives, s).None?;
    case Some(i) =>
      assert FirstTypo(archives, s) == Some(i);
  }

  lemma MathPhSpellings()
    ensures RemoveHyphens("math") == "math" && RemoveHyphens("math-ph") == "mathph"
  {
    RemoveHyphensNoHyphen("math");
    RemoveHyphensNoHyphen("ph");
    assert RemoveHyphens("-") == "" by {
      assert "-"[0] == '-' && "-"[1..] == "";
    }
    assert "math-ph" == "math" + "-" + "ph";
    RemoveHyphensAppend("math" + "-", "ph");
    RemoveHyphensAppend("math", "-");
    assert "math" + "" + "ph" == "mathph";
  }

  /** With `math` listed before `math-ph`, the written fix stops at `math`
      and leaves the typo `mathph/01` alone; the intended one restores it. */
  lemma MathPhTypo()
    ensures FixArxivId(["math", "math-ph"], "mathph/01") == "mathph/01"
    ensures FixArxivTypo(["math", "math-ph"], "mathph/01") == "math-ph/01"
  {
    MathPhSpellings();
    var s := "mathph/01";
    var archives := ["math", "math-ph"];
    assert s[0..4] == "math";
    ContainsAt(s, "math", 0);
    HyphenlessArchiveStops(archives, s, 0);
    assert s[0..6] == "mathph";
    ContainsAt(s, "mathph", 0);
    assert archives[0][1] == 'a';
    assert archives[1][4] == '-';
    assert FirstTypo(archives[1..], s) == Some(0);
    assert FirstTypo(archives, s) == Some(1);
    assert StartsWith(s, "mathph");
    assert s[6..] == "/01";
    AbsentFirstChar("/01", "mathph");
    ReplaceAbsent("/01", "mathph", "math-ph");
  }

  /** `_fix_arxiv_id` on any value: strings are fixed, lists element by
      element. A dict is searched by key and has no `replace`; other values
      do not support `in`. */
  function FixArxivValue(archives: seq<string>, v: Value): (r: Result<Value>)
    ensures v.Str? ==> r == Ok(Str(FixArxivId(archives, v.s)))
    ensures v.List? && r.Ok? ==> r.value.List? && |r.value.items| == |v.items|
    ensures |archives| == 0 ==> r.Ok?
    decreases v
  {
    match v
    case Str(s) => Ok(Str(FixArxivId(archives, s)))
    case List(items) =>
      (match FixArxivItems(archives, items)
       case Ok(fixed) => Ok(List(fixed))
       case Err(e) => Err(e))
    case Dict(entries) =>
      if exists j :: 0 <= j < |archives| && HasKey(entries, RemoveHyphens(archives[j]))
      then Err(AttributeError) else Ok(v)
    case _ => if |archives| == 0 then Ok(v) else Err(TypeError)
  }

  function FixArxivItems(archives: seq<string>, items: seq<Value>): (r: Result<seq<Value>>)
    ensures r.Ok? ==> |r.value| == |items|
    ensures |archives| == 0 ==> r.Ok?
    decreases items
  {
    if |items| == 0 then Ok([])
    else
      var head := FixArxivValue(archives, items[0]);
      var rest := FixArxivItems(archives, items[1..]);
      if head.Err? then Err(head.error)
      else if rest.Err? then rest
      else Ok([head.value] + rest.value)
  }

  // ---------------------------------------------------------------------
  // The normalisers

  /** A name part of an author dict: untouched when absent or None,
      otherwise dot-free and title-cased; `re.sub` needs a string. */
  function NormalizeNamePart(entries: Table<Value>, key: string): (r: Result<Table<Value>>)
    ensures DictGet(entries, key).Null? ==> r == Ok(entries)
    ensures DictGet(entries, key).Str? ==>
      r == Ok(Set(entries, key, Str(DotlessTitle(DictGet(entries, key).s))))
    ensures r.Ok? ==> Keys(r.value) == Keys(entries)
  {
    match DictGet(entries, key)
    case Null => Ok(entries)
    case Str(s) => Ok(Set(entries, key, Str(DotlessTitle(s))))
    case _ => Err(TypeError)
  }

  /** `_remove_dots_from_author_names`: givennames, then fullname. An
      `Author` instance, like any value other than a dict, has no `get`. */
  function NormalizeAuthor(v: Value): (r: Result<Value>)
    ensures !v.Dict? ==> r == Err(AttributeError)
    ensures r.Ok? ==> r.value.Dict? && Keys(r.value.entries) == Keys(v.entries)
  {
    match v
    case Dict(entries) =>
      (match NormalizeNamePart(entries, "givennames")
       case Err(e) => Err(e)
       case Ok(e1) =>
         (match NormalizeNamePart(e1, "fullname")
          case Err(e) => Err(e)
          case Ok(e2) => Ok(Dict(e2))))
    case _ => Err(AttributeError)
  }

  /** The normaliser of one object of a field; `re.sub` needs a string. */
  function Normalizer(env: Env, f: Field, v: Value): (r: Result<Value>)
    requires f in NormalizedFields
    ensures f == Title && v.Str? ==> r == Ok(Str(TrimNonAlnum(v.s)))
    ensures f == Source && v.Str? ==> r == Ok(Str(DotlessTitle(v.s)))
    ensures (f == Title || f == Source) && !v.Str? ==> r == Err(TypeError)
    ensures f == Authors ==> r == NormalizeAuthor(v)
    ensures f == ArxivId ==> r == FixArxivValue(env.archives, v)
  {
    match f
    case Authors => NormalizeAuthor(v)
    case Title => if v.Str? then Ok(Str(TrimNonAlnum(v.s))) else Err(TypeError)
    case Source => if v.Str? then Ok(Str(DotlessTitle(v.s))) else Err(TypeError)
    case ArxivId => FixArxivValue(env.archives, v)
  }

  /** `NORMALIZERS`, in order. */
  const NormalizedFields: seq<Field> := [Authors, Title, Source, ArxivId]

  function NormalizeEach(env: Env, f: Field, items: seq<Value>): (r: Result<seq<Value>>)
    requires f in NormalizedFields
    ensures r.Ok? <==> forall i :: 0 <= i < |items| ==> Normalizer(env, f, items[i]).Ok?
    ensures r.Ok? ==> |r.value| == |items|
    ensures r.Ok? ==> forall i :: 0 <= i < |items| ==> r.value[i] == Normalizer(env, f, items[i]).value
  {
    if |items| == 0 then Ok([])
    else
      var head := Normalizer(env, f, items[0]);
      var rest := NormalizeEach(env, f, items[1..]);
      assert forall i :: 0 < i < |items| ==> items[i] == items[1..][i - 1];
      if head.Err? then Err(head.error)
      else if rest.Err? then rest
      else Ok([head.value] + rest.value)
  }

  /** One field of `normalize_record`: None is skipped, a list is
      normalised element by element, anything else as a whole. */
  function NormalizeField(env: Env, f: Field, v: Value): (r: Result<Value>)
    requires f in NormalizedFields
    ensures v.Null? ==> r == Ok(Null)
    ensures v.List? ==> (r.Ok? <==> NormalizeEach(env, f, v.items).Ok?)
    ensures v.List? && r.Ok? ==> r.value == List(NormalizeEach(env, f, v.items).value)
    ensures !v.Null? && !v.List? ==> r == Normalizer(env, f, v)
  {
    match v
    case Null => Ok(Null)
    case List(items) =>
      (match NormalizeEach(env, f, items)
       case Ok(out) => Ok(List(out))
       case Err(e) => Err(e))
    case _ => Normalizer(env, f, v)
  }

  /** Normalising the fields `fields`, in order; the first that raises
      stops the record. */
  function NormalizeFields(env: Env, r: Reference, fields: seq<Field>): (out: Result<Reference>)
    requires forall i :: 0 <= i < |fields| ==> fields[i] in NormalizedFields
    ensures out.Ok? ==> forall g :: g !in fields ==> FieldValue(out.value, g) == FieldValue(r, g)
    decreases |fields|
  {
    if |fields| == 0 then Ok(r)
    else
      var f := fields[0];
      match NormalizeField(env, f, FieldValue(r, f))
      case Err(e) => Err(e)
      case Ok(v) => NormalizeFields(env, WithField(r, f, v), fields[1..])
  }

  /** `normalize_record`: authors, title, source and arXiv id are
      normalised; every other field is untouched. */
  function NormalizeRecord(env: Env, r: Reference): (out: Result<Reference>)
    ensures out.Ok? ==> forall g :: g !in NormalizedFields ==> FieldValue(out.value, g) == FieldValue(r, g)
  {
    NormalizeFields(env, r, NormalizedFields)
  }

  /** `normalize_record` field by field: the first of authors, title,
      source and arXiv id whose normaliser raises decides the error. */
  lemma NormalizeRecordSteps(env: Env, r: Reference)
    ensures var a := NormalizeField(env, Authors, r.authors);
            var t := NormalizeField(env, Title, r.title);
            var s := NormalizeField(env, Source, r.source);
            var x := NormalizeField(env, ArxivId, r.arxivId);
            NormalizeRecord(env, r) ==
              if a.Err? then Err(a.error)
              else if t.Err? then Err(t.error)
              else if s.Err? then Err(s.error)
              else if x.Err? then Err(x.error)
              else Ok(r.(authors := a.value, title := t.value, source := s.value, arxivId := x.value))
  {
    assert NormalizedFields[1..] == [Title, Source, ArxivId];
    var a := NormalizeField(env, Authors, r.authors);
    if a.Ok? {
      TitleOnwards(env, r.(authors := a.value));
    }
  }

  lemma TitleOnwards(env: Env, r: Reference)
    ensures var t := NormalizeField(env, Title, r.title);
            var s := NormalizeField(env, Source, r.source);
            var x := NormalizeField(env, ArxivId, r.arxivId);
            NormalizeFields(env, r, [Title, Source, ArxivId]) ==
              if t.Err? then Err(t.error)
              else if s.Err? then Err(s.error)
              else if x.Err? then Err(x.error)
              else Ok(r.(title := t.value, source := s.value, arxivId := x.value))
  {
    assert [Title, Source, ArxivId][1..] == [Source, ArxivId];
    var t := NormalizeField(env, Title, r.title);
    if t.Ok? {
      SourceOnwards(env, r.(title := t.value));
    }
  }

  lemma SourceOnwards(env: Env, r: Reference)
    ensures var s := NormalizeField(env, Source, r.source);
            var x := NormalizeField(env, ArxivId, r.arxivId);
            NormalizeFields(env, r, [Source, ArxivId]) ==
              if s.Err? then Err(s.error)
              else if x.Err? then Err(x.error)
              else Ok(r.(source := s.value, arxivId := x.value))
  {
    assert [Source, ArxivId][1..] == [ArxivId];
    var s := NormalizeField(env, Source, r.source);
    if s.Ok? {
      assert WithField(r, Source, s.value) == r.(source := s.value);
      ArxivOnwards(env, r.(source := s.value));
    }
  }

  lemma ArxivOnwards(env: Env, r: Reference)
    ensures var x := NormalizeField(env, ArxivId, r.arxivId);
            NormalizeFields(env, r, [ArxivId]) ==
              if x.Err? then Err(x.error) else Ok(r.(arxivId := x.value))
  {
    assert [ArxivId][1..] == [];
  }

  /** Each normalised field holds its normaliser's result, and a record
      fails exactly when one of its four fields does. */
  lemma NormalizeRecordFields(env: Env, r: Reference)
    ensures NormalizeRecord(env, r).Ok? <==>
              NormalizeField(env, Authors, r.authors).Ok? && NormalizeField(env, Title, r.title).Ok? &&
              NormalizeField(env, Source, r.source).Ok? && NormalizeField(env, ArxivId, r.arxivId).Ok?
    ensures NormalizeRecord(env, r).Ok? ==>
              var out := NormalizeRecord(env, r).value;
              out.authors == NormalizeField(env, Authors, r.authors).value &&
              out.title == NormalizeField(env, Title, r.title).value &&
              out.source == NormalizeField(env, Source, r.source).value &&
              out.arxivId == NormalizeField(env, ArxivId, r.arxivId).value
  {
    NormalizeRecordSteps(env, r);
    FourOutcomes(r, NormalizeRecord(env, r), NormalizeField(env, Authors, r.authors),
                 NormalizeField(env, Title, r.title), NormalizeField(env, Source, r.source),
                 NormalizeField(env, ArxivId, r.arxivId));
  }

  /** Four field outcomes applied in turn: all must succeed, and then the
      record holds their values. */
  lemma FourOutcomes(r: Reference, out: Result<Reference>, a: Result<Value>, t: Result<Value>,
                     s: Result<Value>, x: Result<Value>)
    requires out == if a.Err? then Err(a.error)
                    else if t.Err? then Err(t.error)
                    else if s.Err? then Err(s.error)
                    else if x.Err? then Err(x.error)
                    else Ok(r.(authors := a.value, title := t.value, source := s.value, arxivId := x.value))
    ensures out.Ok? <==> a.Ok? && t.Ok? && s.Ok? && x.Ok?
    ensures out.Ok? ==> out.value.authors == a.value && out.value.title == t.value &&
                        out.value.source == s.value && out.value.arxivId == x.value
  {
  }

  /** `normalize_records`: every record, in order; the first that raises
      stops the list. */
  function NormalizeRecords(env: Env, records: seq<Reference>): (r: Result<seq<Reference>>)
    ensures r.Ok? <==> forall i :: 0 <= i < |records| ==> NormalizeRecord(env, records[i]).Ok?
    ensures r.Ok? ==> |r.value| == |records|
    ensures r.Ok? ==> forall i :: 0 <= i < |records| ==> r.value[i] == NormalizeRecord(env, records[i]).value
  {
    TryMap(r => NormalizeRecord(env, r), records)
  }

  // ---------------------------------------------------------------------
  // filter_records

  /** The positions at or after `from` of the records scoring at least
      `threshold`, in increasing order. */
  function RetainedFrom<R>(records: seq<(R, real)>, threshold: real, from: nat): (idx: seq<nat>)
    requires from <= |records|
    ensures forall k :: 0 <= k < |idx| ==> from <= idx[k] < |records| && records[idx[k]].1 >= threshold
    ensures forall k, l :: 0 <= k < l < |idx| ==> idx[k] < idx[l]
    ensures forall i :: from <= i < |records| && records[i].1 >= threshold ==> i in idx
    decreases |records| - from
  {
    if from == |records| then []
    else
      var rest := RetainedFrom(records, threshold, from + 1);
      if records[from].1 >= threshold then [from] + rest else rest
  }

  /** The positions of the records `filter_records` keeps. */
  function Retained<R>(records: seq<(R, real)>, threshold: real): (idx: seq<nat>)
    ensures forall k :: 0 <= k < |idx| ==> idx[k] < |records| && records[idx[k]].1 >= threshold
    ensures forall k, l :: 0 <= k < l < |idx| ==> idx[k] < idx[l]
    ensures forall i :: 0 <= i < |records| && records[i].1 >= threshold ==> i in idx
  {
    RetainedFrom(records, threshold, 0)
  }

  /** The record with its score written onto it. */
  function Scored(record: (Reference, real)): (r: Reference)
    ensures r.score == Real(record.1)
    ensures forall g :: g != Score ==> FieldValue(r, g) == FieldValue(record.0, g)
  {
    WithField(record.0, Score, Real(record.1))
  }

  /** The outcome of `filter_records`: the records every input reference
      ends up as (each carries its score, whether kept or dropped), the
      kept ones, and the composite score. */
  datatype Filtered = Filtered(all: seq<Reference>, kept: seq<Reference>, composite: real)

  function ScoresAt<R>(records: seq<(R, real)>, idx: seq<nat>): (s: seq<real>)
    requires forall k :: 0 <= k < |idx| ==> idx[k] < |records|
    ensures |s| == |idx|
    ensures forall k :: 0 <= k < |idx| ==> s[k] == records[idx[k]].1
  {
    if |idx| == 0 then [] else [records[idx[0]].1] + ScoresAt(records, idx[1..])
  }

  function ScoreAll(records: seq<(Reference, real)>): (all: seq<Reference>)
    ensures |all| == |records|
    ensures forall i :: 0 <= i < |records| ==> all[i] == Scored(records[i])
  {
    if |records| == 0 then [] else [Scored(records[0])] + ScoreAll(records[1..])
  }

  function Pick(all: seq<Reference>, idx: seq<nat>): (r: seq<Reference>)
    requires forall k :: 0 <= k < |idx| ==> idx[k] < |all|
    ensures |r| == |idx|
    ensures forall k :: 0 <= k < |idx| ==> r[k] == all[idx[k]]
  {
    if |idx| == 0 then [] else [all[idx[0]]] + Pick(all, idx[1..])
  }

  /** `filter_records`: the kept records are exactly those scoring at
      least `threshold`, in input order, and the composite is the mean of
      their scores, or 0.0 when none is kept. */
  function FilterRecords(records: seq<(Reference, real)>, threshold: real): (r: Filtered)
    ensures r.all == ScoreAll(records)
    ensures r.kept == Pick(r.all, Retained(records, threshold))
    ensures |r.kept| == 0 ==> r.composite == 0.0
    ensures |r.kept| > 0 ==>
      Mean(ScoresAt(records, Retained(records, threshold))) == Ok(r.composite)
  {
    var idx := Retained(records, threshold);
    var all := ScoreAll(records);
    var kept := Pick(all, idx);
    if |kept| == 0 then Filtered(all, [], 0.0)
    else Filtered(all, kept, Mean(ScoresAt(records, idx)).value)
  }

  /** The composite lies between the least and the greatest kept score,
      so it is never below the threshold. */
  lemma CompositeBounds(records: seq<(Reference, real)>, threshold: real, lo: real, hi: real)
    requires |Retained(records, threshold)| > 0
    requires forall k :: 0 <= k < |Retained(records, threshold)| ==>
      lo <= records[Retained(records, threshold)[k]].1 <= hi
    ensures lo <= FilterRecords(records, threshold).composite <= hi
    ensures threshold <= FilterRecords(records, threshold).composite
  {
    var idx := Retained(records, threshold);
    var s := ScoresAt(records, idx);
    MeanWithin(s, lo, hi);
    MeanWithin(s, threshold, if hi >= threshold then hi else threshold);
  }

  /** Raising the threshold never keeps more records. */
  lemma {:induction false} RetainedMonotone<R>(records: seq<(R, real)>, t1: real, t2: real, from: nat)
    requires t1 <= t2 && from <= |records|
    ensures |RetainedFrom(records, t2, from)| <= |RetainedFrom(records, t1, from)|
    decreases |records| - from
  {
    if from < |records| {
      RetainedMonotone(records, t1, t2, from + 1);
    }
  }

  /** How many of three records scoring 0.1, 0.4 and 0.9 are kept. */
  lemma KeptOfThree(a: Reference, b: Reference, c: Reference, t: real)
    ensures |FilterRecords([(a, 0.1), (b, 0.4), (c, 0.9)], t).kept| ==
      (if 0.1 >= t then 1 else 0) + (if 0.4 >= t then 1 else 0) + (if 0.9 >= t then 1 else 0)
  {
    var rs: seq<(Reference, real)> := [(a, 0.1), (b, 0.4), (c, 0.9)];
    assert |RetainedFrom(rs, t, 3)| == 0;
    assert |RetainedFrom(rs, t, 2)| == (if 0.9 >= t then 1 else 0);
    assert |RetainedFrom(rs, t, 1)| == (if 0.4 >= t then 1 else 0) + (if 0.9 >= t then 1 else 0);
  }

  /** Three records scoring 0.1, 0.4 and 0.9 keep 3, 2, 2, 1, 1 and 0 of
      themselves at thresholds 0.1, 0.2, 0.4, 0.5, 0.9 and 1.0. */
  lemma FilterThresholds(a: Reference, b: Reference, c: Reference)
    ensures var rs := [(a, 0.1), (b, 0.4), (c, 0.9)];
      |FilterRecords(rs, 0.1).kept| == 3 && |FilterRecords(rs, 0.2).kept| == 2
      && |FilterRecords(rs, 0.4).kept| == 2 && |FilterRecords(rs, 0.5).kept| == 1
      && |FilterRecords(rs, 0.9).kept| == 1 && |FilterRecords(rs, 1.0).kept| == 0
  {
    KeptOfThree(a, b, c, 0.1);
    KeptOfThree(a, b, c, 0.2);
    KeptOfThree(a, b, c, 0.4);
    KeptOfThree(a, b, c, 0.5);
    KeptOfThree(a, b, c, 0.9);
    KeptOfThree(a, b, c, 1.0);
  }
}
