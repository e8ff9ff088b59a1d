/** The ScienceParse adapter: each reference of a ScienceParse response
    becomes a `Reference` with its title, venue, stringified year and the
    authors split naively into given names and surname. */
module Scienceparse {
  import opened Base
  import opened Text
  import opened Tables
  import opened Json
  import opened Externals
  import opened Domain

  // ---------------------------------------------------------------------
  // parse_auth_line

  /** `parse_auth_line`: every word but the last (joined by single spaces)
      as the given names, the last word as the surname. */
  function ParseAuthLine(text: string): (r: (string, string))
    ensures ' ' !in r.1
    ensures ' ' in text ==> r.0 + " " + r.1 == text
    ensures ' ' !in text ==> r == ("", text)
  {
    var words := SplitOn(text, ' ');
    var n := |words|;
    var first := Join(" ", words[..n - 1]);
    var last := Join(" ", words[n - 1..]);
    assert last == words[n - 1];
    SplitOnPieces(text, ' ');
    if ' ' in text then
      SplitOnSeveral(text, ' ');
      JoinInitLast(" ", words);
      JoinSplitOn(text, ' ');
      (first, last)
    else
      SplitOnNoSep(text, ' ');
      (first, last)
  }

  /** The surname is the text after the last space, the given names
      everything before it. */
  lemma ParseAuthLineLastSpace(text: string, i: nat)
    requires i < |text| && text[i] == ' ' && ' ' !in text[i + 1..]
    ensures ParseAuthLine(text) == (text[..i], text[i + 1..])
  {
    var (first, last) := ParseAuthLine(text);
    var j := |first|;
    assert first + " " + last == text;
    assert text[j] == ' ';
    assert i <= j by {
      assert forall k :: j < k < |text| ==> text[k] == last[k - j - 1];
    }
    assert j <= i by {
      assert forall k :: i < k < |text| ==> text[i + 1..][k - i - 1] == text[k];
    }
    assert text[..i] == first;
    assert text[i + 1..] == last;
  }

  // ---------------------------------------------------------------------
  // format_scienceparse_output

  /** The message of the KeyError raised for a response without references. */
  const NoReferences := "ScienceParse output does not contain references"

  /** One author string: `parse_auth_line` calls `split`, which only a
      string has. */
  function ParseAuthor(auth: Value): (r: Result<Value>)
    ensures r.Ok? <==> auth.Str?
    ensures r.Err? ==> r.error == AttributeError
    ensures auth.Str? ==> r == Ok(AuthorValue(Author(ParseAuthLine(auth.s).1, ParseAuthLine(auth.s).0, "", "", "")))
  {
    match auth
    case Str(s) =>
      var (first, last) := ParseAuthLine(s);
      Ok(AuthorValue(Author(last, first, "", "", "")))
    case _ => Err(AttributeError)
  }

  /** The author loop from position `i`: falsy entries are skipped, each
      truthy one is parsed, and the first that cannot be parsed raises. */
  function AuthorsFrom(auths: seq<Value>, i: nat): (r: Result<seq<Value>>)
    requires i <= |auths|
    decreases |auths| - i
  {
    if i == |auths| then Ok([])
    else if !Truthy(auths[i]) then AuthorsFrom(auths, i + 1)
    else
      match ParseAuthor(auths[i])
      case Err(e) => Err(e)
      case Ok(a) =>
        match AuthorsFrom(auths, i + 1)
        case Err(e) => Err(e)
        case Ok(rest) => Ok([a] + rest)
  }

  /** The truthy entries from position `i`, in order. */
  function TruthyFrom(auths: seq<Value>, i: nat): (r: seq<Value>)
    requires i <= |auths|
    decreases |auths| - i
  {
    if i == |auths| then []
    else if Truthy(auths[i]) then [auths[i]] + TruthyFrom(auths, i + 1)
    else TruthyFrom(auths, i + 1)
  }

  /** The kept entries are exactly the truthy ones. */
  lemma {:induction false} TruthyFromMembers(auths: seq<Value>, i: nat, v: Value)
    requires i <= |auths|
    ensures v in TruthyFrom(auths, i) <==> Truthy(v) && exists j :: i <= j < |auths| && auths[j] == v
    decreases |auths| - i
  {
    if i < |auths| {
      TruthyFromMembers(auths, i + 1, v);
      if v == auths[i] && Truthy(v) {
        assert v in TruthyFrom(auths, i);
      }
    }
  }

  /** When every entry is truthy nothing is skipped. */
  lemma {:induction false} TruthyFromAll(auths: seq<Value>, i: nat)
    requires i <= |auths|
    requires forall j :: i <= j < |auths| ==> Truthy(auths[j])
    ensures TruthyFrom(auths, i) == auths[i..]
    decreases |auths| - i
  {
    if i < |auths| {
      TruthyFromAll(auths, i + 1);
      assert auths[i..] == [auths[i]] + auths[i + 1..];
    }
  }

  /** The loop is "filter the truthy entries, then parse each": its result
      and its error are those of parsing the filtered list. */
  lemma {:induction false} AuthorsFromFiltered(auths: seq<Value>, i: nat)
    requires i <= |auths|
    ensures AuthorsFrom(auths, i) == TryMap(ParseAuthor, TruthyFrom(auths, i))
    decreases |auths| - i
  {
    if i < |auths| {
      AuthorsFromFiltered(auths, i + 1);
      AuthorsFromStep(auths, i);
    }
  }

  /** One step of the loop keeps it equal to the filtered parse. */
  lemma AuthorsFromStep(auths: seq<Value>, i: nat)
    requires i < |auths|
    requires AuthorsFrom(auths, i + 1) == TryMap(ParseAuthor, TruthyFrom(auths, i + 1))
    ensures AuthorsFrom(auths, i) == TryMap(ParseAuthor, TruthyFrom(auths, i))
  {
    var rest := TruthyFrom(auths, i + 1);
    if Truthy(auths[i]) {
      assert TruthyFrom(auths, i) == [auths[i]] + rest;
      TryMapCons(ParseAuthor, auths[i], rest);
    }
  }

  /** The author loop succeeds exactly when every truthy entry is a string,
      and then yields one author per truthy entry, in order. */
  lemma AuthorsOutcome(auths: seq<Value>)
    ensures AuthorsFrom(auths, 0).Ok? <==> forall v :: v in auths && Truthy(v) ==> v.Str?
    ensures AuthorsFrom(auths, 0).Ok? ==>
              var kept := TruthyFrom(auths, 0);
              |AuthorsFrom(auths, 0).value| == |kept| &&
              forall k :: 0 <= k < |kept| ==> ParseAuthor(kept[k]) == Ok(AuthorsFrom(auths, 0).value[k])
  {
    AuthorsFromFiltered(auths, 0);
    var kept := TruthyFrom(auths, 0);
    forall v | v in auths && Truthy(v)
      ensures v in kept
    {
      TruthyFromMembers(auths, 0, v);
    }
    forall k | 0 <= k < |kept|
      ensures Truthy(kept[k]) && kept[k] in auths
    {
      TruthyFromMembers(auths, 0, kept[k]);
    }
  }

  /** An author list of empty strings (or other falsy entries) gives no
      authors at all. */
  lemma {:induction false} AuthorsAllFalsy(auths: seq<Value>, i: nat)
    requires i <= |auths|
    requires forall j :: i <= j < |auths| ==> !Truthy(auths[j])
    ensures AuthorsFrom(auths, i) == Ok([])
    decreases |auths| - i
  {
    if i < |auths| {
      AuthorsAllFalsy(auths, i + 1);
    }
  }

  /** The keyword arguments of the `Reference(...)` call. */
  function RefKeywords(entries: Table<Value>, authors: seq<Value>, fmt: real -> string): (kw: Table<Value>)
  {
    Four(DictGet(entries, "title"), Str(Show(DictGet(entries, "year"), fmt)),
         DictGet(entries, "venue"), List(authors))
  }

  /** `title=…, year=…, source=…, authors=…`. */
  function Four(title: Value, year: Value, source: Value, authors: Value): (kw: Table<Value>)
  {
    [(Name(Title), title)] + [(Name(Year), year), (Name(Source), source), (Name(Authors), authors)]
  }

  /** Distinct fields have distinct keyword names. */
  lemma NamesDiffer(f: Field, g: Field)
    requires f != g
    ensures Name(f) != Name(g)
  {
    FieldNamedName(f);
    FieldNamedName(g);
  }

  /** Each of the four keywords finds its value and no other field is
      passed. */
  lemma FourGet(title: Value, year: Value, source: Value, authors: Value, f: Field)
    ensures f == Title ==> Get(Four(title, year, source, authors), Name(f)) == Some(title)
    ensures f == Year ==> Get(Four(title, year, source, authors), Name(f)) == Some(year)
    ensures f == Source ==> Get(Four(title, year, source, authors), Name(f)) == Some(source)
    ensures f == Authors ==> Get(Four(title, year, source, authors), Name(f)) == Some(authors)
    ensures f !in {Title, Year, Source, Authors} ==> Get(Four(title, year, source, authors), Name(f)) == None
  {
    NamesDiffer(Year, Source);
    NamesDiffer(Year, Authors);
    NamesDiffer(Source, Authors);
    if f != Title { NamesDiffer(f, Title); }
    if f != Year { NamesDiffer(f, Year); }
    if f != Source { NamesDiffer(f, Source); }
    if f != Authors { NamesDiffer(f, Authors); }
    QuadGet(Name(Title), title, Name(Year), year, Name(Source), source, Name(Authors), authors, Name(f));
  }

  /** One reference: `ref.get` needs a dict, `ref.get('authors', [])` must
      be iterable, and the author loop must not raise. `fmt` renders a
      float year as `str` does. */
  function FormatOne(env: Env, ref: Value, fmt: real -> string): (r: Result<Reference>)
  {
    match ref
    case Dict(entries) =>
      (match Iterate(GetOr(entries, "authors", List([])))
       case Err(e) => Err(e)
       case Ok(auths) =>
         match AuthorsFrom(auths, 0)
         case Err(e) => Err(e)
         case Ok(authors) => NewReference(env, RefKeywords(entries, authors, fmt)))
    case _ => Err(AttributeError)
  }

  /** The four keywords, in the order the call passes them. */
  lemma FourKeys(title: Value, year: Value, source: Value, authors: Value)
    ensures Keys(Four(title, year, source, authors)) == [Name(Title), Name(Year), Name(Source), Name(Authors)]
  {
  }

  /** All four keywords name reference fields. */
  lemma FourAreFields()
    ensures FieldKeys([Name(Title), Name(Year), Name(Source), Name(Authors)])
  {
    var ks := [Name(Title), Name(Year), Name(Source), Name(Authors)];
    FieldNamedName(Title);
    FieldNamedName(Year);
    FieldNamedName(Source);
    FieldNamedName(Authors);
    assert ks[1..][1..][1..][1..] == [];
  }

  /** The `Reference(...)` call never fails: its four keywords are fields
      and `raw` keeps its string default. */
  lemma FourBuild(env: Env, title: Value, year: Value, source: Value, authors: Value)
    ensures NewReference(env, Four(title, year, source, authors)).Ok?
  {
    FourKeys(title, year, source, authors);
    FourAreFields();
    FourGet(title, year, source, authors, Raw);
  }

  /** A keyword the call passes is the field's value. */
  lemma FourPassed(env: Env, title: Value, year: Value, source: Value, authors: Value, f: Field, v: Value)
    requires f in {Title, Year, Source, Authors}
    requires Get(Four(title, year, source, authors), Name(f)) == Some(v)
    ensures NewReference(env, Four(title, year, source, authors)).Ok?
    ensures FieldValue(NewReference(env, Four(title, year, source, authors)).value, f) == v
  {
    FourBuild(env, title, year, source, authors);
    NewReferenceField(env, Four(title, year, source, authors), f, Some(v));
  }

  lemma FourTitle(env: Env, title: Value, year: Value, source: Value, authors: Value)
    ensures NewReference(env, Four(title, year, source, authors)).Ok?
    ensures NewReference(env, Four(title, year, source, authors)).value.title == title
  {
    FourGet(title, year, source, authors, Title);
    FourPassed(env, title, year, source, authors, Title, title);
  }

  lemma FourYear(env: Env, title: Value, year: Value, source: Value, authors: Value)
    ensures NewReference(env, Four(title, year, source, authors)).Ok?
    ensures NewReference(env, Four(title, year, source, authors)).value.year == year
  {
    FourGet(title, year, source, authors, Year);
    FourPassed(env, title, year, source, authors, Year, year);
  }

  lemma FourSource(env: Env, title: Value, year: Value, source: Value, authors: Value)
    ensures NewReference(env, Four(title, year, source, authors)).Ok?
    ensures NewReference(env, Four(title, year, source, authors)).value.source == source
  {
    FourGet(title, year, source, authors, Source);
    FourPassed(env, title, year, source, authors, Source, source);
  }

  lemma FourAuthors(env: Env, title: Value, year: Value, source: Value, authors: Value)
    ensures NewReference(env, Four(title, year, source, authors)).Ok?
    ensures NewReference(env, Four(title, year, source, authors)).value.authors == authors
  {
    FourGet(title, year, source, authors, Authors);
    FourPassed(env, title, year, source, authors, Authors, authors);
  }

  /** `raw` keeps its empty default, and the identifier is that of the
      empty text. */
  lemma FourRaw(env: Env, title: Value, year: Value, source: Value, authors: Value)
    ensures NewReference(env, Four(title, year, source, authors)).Ok?
    ensures var r := NewReference(env, Four(title, year, source, authors)).value;
            r.raw == "" && r.identifier == IdentifierFor(env, "")
  {
    FourDefault(env, title, year, source, authors, Raw);
  }

  /** `reftype` keeps its default, `article`. */
  lemma FourReftype(env: Env, title: Value, year: Value, source: Value, authors: Value)
    ensures NewReference(env, Four(title, year, source, authors)).Ok?
    ensures NewReference(env, Four(title, year, source, authors)).value.reftype == DefaultFor(Reftype)
  {
    FourBuild(env, title, year, source, authors);
    FourGet(title, year, source, authors, Reftype);
    NewReferenceField(env, Four(title, year, source, authors), Reftype, None);
  }

  /** What a reference is made of: the four values passed, an empty `raw`
      and its identifier. */
  lemma FourFields(env: Env, title: Value, year: Value, source: Value, authors: Value)
    ensures NewReference(env, Four(title, year, source, authors)).Ok?
    ensures var r := NewReference(env, Four(title, year, source, authors)).value;
            r.raw == "" && r.identifier == IdentifierFor(env, "") &&
            r.title == title && r.year == year && r.source == source && r.authors == authors &&
            r.reftype == DefaultFor(Reftype)
  {
    FourTitle(env, title, year, source, authors);
    FourYear(env, title, year, source, authors);
    FourSource(env, title, year, source, authors);
    FourAuthors(env, title, year, source, authors);
    FourRaw(env, title, year, source, authors);
    FourReftype(env, title, year, source, authors);
  }

  /** Every field the call does not pass keeps its default. */
  lemma FourDefault(env: Env, title: Value, year: Value, source: Value, authors: Value, f: Field)
    requires f !in {Title, Year, Source, Authors, IdentifierField}
    ensures NewReference(env, Four(title, year, source, authors)).Ok?
    ensures FieldValue(NewReference(env, Four(title, year, source, authors)).value, f) == DefaultFor(f)
  {
    FourBuild(env, title, year, source, authors);
    FourGet(title, year, source, authors, f);
    NewReferenceField(env, Four(title, year, source, authors), f, None);
  }

  /** When one reference converts: it was a dict, its author list was
      iterable, and its truthy authors were all strings. */
  lemma FormatOneSucceeds(env: Env, ref: Value, fmt: real -> string)
    ensures FormatOne(env, ref, fmt).Ok? <==>
              ref.Dict? && Iterate(GetOr(ref.entries, "authors", List([]))).Ok? &&
              forall v :: v in Iterate(GetOr(ref.entries, "authors", List([]))).value && Truthy(v) ==> v.Str?
  {
    if ref.Dict? {
      var it := Iterate(GetOr(ref.entries, "authors", List([])));
      if it.Ok? {
        AuthorsOutcome(it.value);
        if AuthorsFrom(it.value, 0).Ok? {
          var e := ref.entries;
          FourBuild(env, DictGet(e, "title"), Str(Show(DictGet(e, "year"), fmt)),
                    DictGet(e, "venue"), List(AuthorsFrom(it.value, 0).value));
        }
      }
    }
  }

  /** A reference that converts was a dict whose author loop succeeded,
      and it is the `Reference(...)` of its keywords. */
  lemma FormatOneBuilds(env: Env, ref: Value, fmt: real -> string)
    requires FormatOne(env, ref, fmt).Ok?
    ensures ref.Dict? && Iterate(GetOr(ref.entries, "authors", List([]))).Ok?
    ensures var auths := Iterate(GetOr(ref.entries, "authors", List([]))).value;
            AuthorsFrom(auths, 0).Ok? &&
            FormatOne(env, ref, fmt) == NewReference(env, RefKeywords(ref.entries, AuthorsFrom(auths, 0).value, fmt))
  {
  }

  /** A converted reference holds the title, `str` of the year (so "None"
      when there is no year), the venue as its source, an empty `raw`, and
      one author per truthy author string, in order. */
  lemma FormatOneFields(env: Env, ref: Value, fmt: real -> string)
    requires FormatOne(env, ref, fmt).Ok?
    ensures var r := FormatOne(env, ref, fmt).value;
            ref.Dict? &&
            r.title == DictGet(ref.entries, "title") &&
            r.year == Str(Show(DictGet(ref.entries, "year"), fmt)) &&
            (!HasKey(ref.entries, "year") ==> r.year == Str("None")) &&
            r.source == DictGet(ref.entries, "venue") &&
            r.raw == "" &&
            r.authors.List? &&
            var kept := TruthyFrom(Iterate(GetOr(ref.entries, "authors", List([]))).value, 0);
            |r.authors.items| == |kept| &&
            forall k :: 0 <= k < |kept| ==> ParseAuthor(kept[k]) == Ok(r.authors.items[k])
  {
    FormatOneBuilds(env, ref, fmt);
    var entries := ref.entries;
    var auths := Iterate(GetOr(entries, "authors", List([]))).value;
    AuthorsOutcome(auths);
    var authors := AuthorsFrom(auths, 0).value;
    FourFields(env, DictGet(entries, "title"), Str(Show(DictGet(entries, "year"), fmt)),
               DictGet(entries, "venue"), List(authors));
  }

  /** Every converted reference has the default type (`article`). */
  lemma FormatOneReftype(env: Env, ref: Value, fmt: real -> string)
    requires FormatOne(env, ref, fmt).Ok?
    ensures FormatOne(env, ref, fmt).value.reftype == DefaultFor(Reftype)
  {
    FormatOneBuilds(env, ref, fmt);
    var entries := ref.entries;
    var authors := AuthorsFrom(Iterate(GetOr(entries, "authors", List([]))).value, 0).value;
    FourReftype(env, DictGet(entries, "title"), Str(Show(DictGet(entries, "year"), fmt)),
                DictGet(entries, "venue"), List(authors));
  }

  /** `format_scienceparse_output`: a response without `references` raises
      KeyError; otherwise there is one reference out per reference in, in
      order, each converted on its own, and the first that fails ends the
      call with its exception. */
  function FormatScienceParseOutput(env: Env, output: Table<Value>, fmt: real -> string): (r: Result<seq<Reference>>)
    ensures !HasKey(output, "references") ==> r == Err(KeyError(NoReferences))
    ensures r.Ok? ==> HasKey(output, "references") && Iterate(Get(output, "references").value).Ok?
    ensures HasKey(output, "references") && Iterate(Get(output, "references").value).Ok? ==>
              var items := Iterate(Get(output, "references").value).value;
              (r.Ok? <==> forall i :: 0 <= i < |items| ==> FormatOne(env, items[i], fmt).Ok?) &&
              (r.Ok? ==> |r.value| == |items| &&
                         forall i :: 0 <= i < |items| ==> FormatOne(env, items[i], fmt) == Ok(r.value[i])) &&
              (r.Err? ==> exists i :: 0 <= i < |items| && FormatOne(env, items[i], fmt) == Err(r.error) &&
                                      forall j :: 0 <= j < i ==> FormatOne(env, items[j], fmt).Ok?)
  {
    match Get(output, "references")
    case None => Err(KeyError(NoReferences))
    case Some(refs) =>
      match Iterate(refs)
      case Err(e) => Err(e)
      case Ok(items) => TryMap((ref: Value) => FormatOne(env, ref, fmt), items)
  }
}
