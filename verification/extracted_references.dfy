// The reference-metadata controller of
// references/controllers/extracted_references.py: the Google Scholar query,
// the identifiers a reference offers, the redirect priority, and the lookup
// of one reference in a loaded reference set. The data store is a parameter
// (what `data_store.load` returned).

module ExtractedReferences {
  import opened Base
  import opened Text
  import opened Tables
  import opened Json
  import opened Externals
  import opened Domain

  const StatusOk: int := 200
  const StatusSeeOther: int := 303
  const StatusNotFound: int := 404
  const StatusServerError: int := 500

  /** A controller response: content and status (the headers are always
      empty). */
  datatype Response = Response(content: Table<Value>, status: int)

  // ---------------------------------------------------------------------
  // _gs_query

  /** The `as_sauthors` term of one author: `"forename surname"` in double
      quotes when both are set, the surname alone, or else the full name;
      nothing when neither surname nor full name is set. Only dicts have
      `.get`. */
  function AuthorTerm(env: Env, author: Value): (r: Result<Option<string>>)
    ensures r.Ok? <==> author.Dict?
    ensures !author.Dict? ==> r == Err(AttributeError)
    ensures r.Ok? ==> (r.value.None? <==>
                       !Truthy(DictGet(author.entries, "surname")) && !Truthy(DictGet(author.entries, "fullname")))
    ensures r.Ok? && Truthy(DictGet(author.entries, "surname")) ==>
              var surname := Show(DictGet(author.entries, "surname"), env.formatReal);
              if Truthy(DictGet(author.entries, "forename")) then
                r.value == Some("\"" + Show(DictGet(author.entries, "forename"), env.formatReal) + " " + surname + "\"")
              else r.value == Some(surname)
    ensures r.Ok? && !Truthy(DictGet(author.entries, "surname")) && Truthy(DictGet(author.entries, "fullname")) ==>
              r.value == Some(Show(DictGet(author.entries, "fullname"), env.formatReal))
  {
    match author
    case Dict(entries) =>
      var forename := DictGet(entries, "forename");
      var surname := DictGet(entries, "surname");
      var fullname := DictGet(entries, "fullname");
      if Truthy(surname) then
        if Truthy(forename) then
          Ok(Some("\"" + Show(forename, env.formatReal) + " " + Show(surname, env.formatReal) + "\""))
        else Ok(Some(Show(surname, env.formatReal)))
      else if Truthy(fullname) then Ok(Some(Show(fullname, env.formatReal)))
      else Ok(None)
    case _ => Err(AttributeError)
  }

  /** The number of authors that contribute a term. */
  function Contributing(env: Env, authors: seq<Value>): nat
  {
    if |authors| == 0 then 0
    else (if AuthorTerm(env, authors[0]) == Ok(None) then 0 else 1) + Contributing(env, authors[1..])
  }

  /** The `as_sauthors` parts of a list of authors, in order. */
  function AuthorParts(env: Env, authors: seq<Value>): (r: Result<seq<(string, string)>>)
    ensures r.Ok? <==> forall i :: 0 <= i < |authors| ==> authors[i].Dict?
    ensures r.Err? ==> r.error == AttributeError
    ensures r.Ok? ==> |r.value| == Contributing(env, authors) <= |authors|
    ensures r.Ok? ==> forall i :: 0 <= i < |r.value| ==> r.value[i].0 == "as_sauthors"
  {
    if |authors| == 0 then Ok([])
    else
      var rest := AuthorParts(env, authors[1..]);
      assert forall i :: 0 < i < |authors| ==> authors[i] == authors[1..][i - 1];
      match AuthorTerm(env, authors[0])
      case Err(e) => Err(e)
      case Ok(term) =>
        if rest.Err? then rest
        else if term.None? then rest
        else Ok([("as_sauthors", term.value)] + rest.value)
  }

  /** The parts the `authors` entry contributes: none when it is falsy; a
      truthy string or dict iterates into strings, which have no `.get`; any
      other truthy non-list is not iterable. */
  function AuthorsParts(env: Env, authors: Value): (r: Result<seq<(string, string)>>)
    ensures !Truthy(authors) ==> r == Ok([])
    ensures Truthy(authors) && authors.List? ==> r == AuthorParts(env, authors.items)
    ensures Truthy(authors) && (authors.Str? || authors.Dict?) ==> r == Err(AttributeError)
    ensures Truthy(authors) && !(authors.List? || authors.Str? || authors.Dict?) ==> r == Err(TypeError)
  {
    if !Truthy(authors) then Ok([])
    else
      match authors
      case List(items) => AuthorParts(env, items)
      case Str(_) => Err(AttributeError)
      case Dict(_) => Err(AttributeError)
      case _ => Err(TypeError)
  }

  /** One `(key, str(v))` part when `v` is truthy, none otherwise. */
  function Part(key: string, v: Value, fmt: real -> string): (p: seq<(string, string)>)
    ensures Truthy(v) ==> p == [(key, Show(v, fmt))]
    ensures !Truthy(v) ==> p == []
  {
    if Truthy(v) then [(key, Show(v, fmt))] else []
  }

  /** The query parts of `_gs_query`, before URL encoding: the title as
      `as_q`, the author terms, the source as `as_publication`, and the year
      as both `as_ylo` and `as_yhi`, each present only when its value is
      truthy. */
  function QueryParts(env: Env, reference: Table<Value>): (r: Result<seq<(string, string)>>)
    ensures r.Ok? <==> AuthorsParts(env, DictGet(reference, "authors")).Ok?
    ensures r.Err? ==> r == AuthorsParts(env, DictGet(reference, "authors"))
  {
    var title := DictGet(reference, "title");
    var year := DictGet(reference, "year");
    var source := DictGet(reference, "source");
    match AuthorsParts(env, DictGet(reference, "authors"))
    case Err(e) => Err(e)
    case Ok(authorParts) =>
      Ok(Part("as_q", title, env.formatReal) + authorParts + Part("as_publication", source, env.formatReal)
         + Part("as_ylo", year, env.formatReal) + Part("as_yhi", year, env.formatReal))
  }

  /** How often `key` occurs among the parts. */
  function Count(parts: seq<(string, string)>, key: string): nat
  {
    if |parts| == 0 then 0 else (if parts[0].0 == key then 1 else 0) + Count(parts[1..], key)
  }

  lemma {:induction false} CountAppend(a: seq<(string, string)>, b: seq<(string, string)>, key: string)
    ensures Count(a + b, key) == Count(a, key) + Count(b, key)
  {
    if |a| > 0 {
      var ab := a + b;
      assert ab[0] == a[0];
      assert ab[1..] == a[1..] + b;
      assert Count(ab, key) == (if a[0].0 == key then 1 else 0) + Count(a[1..] + b, key);
      CountAppend(a[1..], b, key);
    } else {
      assert a + b == b;
    }
  }

  lemma CountFive(p1: seq<(string, string)>, p2: seq<(string, string)>, p3: seq<(string, string)>,
                  p4: seq<(string, string)>, p5: seq<(string, string)>, key: string)
    ensures Count(p1 + p2 + p3 + p4 + p5, key) ==
              Count(p1, key) + Count(p2, key) + Count(p3, key) + Count(p4, key) + Count(p5, key)
  {
    CountAppend(p1 + p2 + p3 + p4, p5, key);
    CountAppend(p1 + p2 + p3, p4, key);
    CountAppend(p1 + p2, p3, key);
    CountAppend(p1, p2, key);
  }

  lemma {:induction false} CountAllSame(parts: seq<(string, string)>, key: string, other: string)
    requires forall i :: 0 <= i < |parts| ==> parts[i].0 == key
    requires other != key
    ensures Count(parts, other) == 0
  {
    if |parts| > 0 {
      CountAllSame(parts[1..], key, other);
    }
  }

  lemma CountPart(key: string, v: Value, fmt: real -> string, other: string)
    ensures Count(Part(key, v, fmt), other) == if key == other && Truthy(v) then 1 else 0
  {
  }

  /** The author parts of a reference are all `as_sauthors`. */
  lemma AuthorsPartsKeys(env: Env, authors: Value)
    requires AuthorsParts(env, authors).Ok?
    ensures forall i :: 0 <= i < |AuthorsParts(env, authors).value| ==> AuthorsParts(env, authors).value[i].0 == "as_sauthors"
  {
  }

  lemma QueryPartsOf(env: Env, data: Table<Value>, ap: seq<(string, string)>)
    requires AuthorsParts(env, DictGet(data, "authors")) == Ok(ap)
    ensures QueryParts(env, data) ==
              Ok(Part("as_q", DictGet(data, "title"), env.formatReal) + ap
                 + Part("as_publication", DictGet(data, "source"), env.formatReal)
                 + Part("as_ylo", DictGet(data, "year"), env.formatReal) + Part("as_yhi", DictGet(data, "year"), env.formatReal))
  {
  }

  /** Each of `as_q`, `as_publication`, `as_ylo` and `as_yhi` occurs once
      when its field is truthy and never otherwise; the title comes first
      and the year last, with the same text for both year bounds. */
  lemma QueryPartsShape(env: Env, reference: Table<Value>)
    requires QueryParts(env, reference).Ok?
    ensures var parts := QueryParts(env, reference).value;
      var title := DictGet(reference, "title");
      var source := DictGet(reference, "source");
      var year := DictGet(reference, "year");
      && Count(parts, "as_q") == (if Truthy(title) then 1 else 0)
      && Count(parts, "as_publication") == (if Truthy(source) then 1 else 0)
      && Count(parts, "as_ylo") == (if Truthy(year) then 1 else 0)
      && Count(parts, "as_yhi") == (if Truthy(year) then 1 else 0)
      && (Truthy(title) ==> parts[0] == ("as_q", Show(title, env.formatReal)))
      && (Truthy(year) ==> |parts| >= 2 && parts[|parts| - 2] == ("as_ylo", Show(year, env.formatReal))
                                        && parts[|parts| - 1] == ("as_yhi", Show(year, env.formatReal)))
  {
    var fmt := env.formatReal;
    var title := DictGet(reference, "title");
    var source := DictGet(reference, "source");
    var year := DictGet(reference, "year");
    var a := AuthorsParts(env, DictGet(reference, "authors")).value;
    AuthorsPartsKeys(env, DictGet(reference, "authors"));
    var p1, p3, p4, p5 := Part("as_q", title, fmt), Part("as_publication", source, fmt),
                          Part("as_ylo", year, fmt), Part("as_yhi", year, fmt);
    QueryPartsOf(env, reference, a);
    QueryKeyCount(p1, a, p3, p4, p5, "as_q", title, source, year, fmt);
    QueryKeyCount(p1, a, p3, p4, p5, "as_publication", title, source, year, fmt);
    QueryKeyCount(p1, a, p3, p4, p5, "as_ylo", title, source, year, fmt);
    QueryKeyCount(p1, a, p3, p4, p5, "as_yhi", title, source, year, fmt);
    FiveEnds(p1, a, p3, p4, p5);
  }

  /** The first element of five joined sequences when the first is a
      singleton, and the last two when the last two are. */
  lemma FiveEnds<T>(p1: seq<T>, p2: seq<T>, p3: seq<T>, p4: seq<T>, p5: seq<T>)
    ensures var s := p1 + p2 + p3 + p4 + p5;
      && (|p1| == 1 ==> s[0] == p1[0])
      && (|p4| == 1 && |p5| == 1 ==> |s| >= 2 && s[|s| - 2] == p4[0] && s[|s| - 1] == p5[0])
  {
  }

  lemma QueryKeyCount(p1: seq<(string, string)>, a: seq<(string, string)>, p3: seq<(string, string)>,
                      p4: seq<(string, string)>, p5: seq<(string, string)>, key: string,
                      title: Value, source: Value, year: Value, fmt: real -> string)
    requires key != "as_sauthors"
    requires forall i :: 0 <= i < |a| ==> a[i].0 == "as_sauthors"
    requires p1 == Part("as_q", title, fmt) && p3 == Part("as_publication", source, fmt)
    requires p4 == Part("as_ylo", year, fmt) && p5 == Part("as_yhi", year, fmt)
    ensures Count(p1 + a + p3 + p4 + p5, key) ==
              (if key == "as_q" && Truthy(title) then 1 else 0) + (if key == "as_publication" && Truthy(source) then 1 else 0)
              + (if key == "as_ylo" && Truthy(year) then 1 else 0) + (if key == "as_yhi" && Truthy(year) then 1 else 0)
  {
    CountFive(p1, a, p3, p4, p5, key);
    CountAllSame(a, "as_sauthors", key);
    CountPart("as_q", title, fmt, key);
    CountPart("as_publication", source, fmt, key);
    CountPart("as_ylo", year, fmt, key);
    CountPart("as_yhi", year, fmt, key);
  }

  /** `_gs_query`: the URL-encoded query parts. */
  function GsQuery(env: Env, reference: Table<Value>): (r: Result<string>)
    ensures r.Ok? <==> QueryParts(env, reference).Ok?
    ensures r.Ok? ==> r.value == env.urlencode(QueryParts(env, reference).value)
  {
    match QueryParts(env, reference)
    case Err(e) => Err(e)
    case Ok(parts) => Ok(env.urlencode(parts))
  }

  // ---------------------------------------------------------------------
  // _get_identifiers

  /** The key `_get_identifiers` reads an entry's type under. */
  const ReadTypeKey := "identifier_type"

  /** The key `to_dict` stores an `Identifier`'s type under, after the
      dataclass field's spelling. */
  const StoredTypeKey := "identifer_type"

  /** The assignment `identifiers[ident[typeKey]] = ident['identifier']`
      makes, where the source reads the type under `ReadTypeKey`: the
      right-hand side is read first, so a missing `identifier` is reported
      before a missing type. Non-dicts are
      not subscriptable by a string, and list, dict and dataclass keys are
      unhashable (TypeError). A type that is hashable but not a string
      files the value under a key no lookup here uses, so it is modelled as
      no assignment. */
  function Assignment(typeKey: string, ident: Value): (r: Result<Option<(string, Value)>>)
    ensures !ident.Dict? ==> r == Err(TypeError)
    ensures ident.Dict? && !HasKey(ident.entries, "identifier") ==> r == Err(KeyError("identifier"))
    ensures ident.Dict? && HasKey(ident.entries, "identifier") && !HasKey(ident.entries, typeKey) ==>
              r == Err(KeyError(typeKey))
    ensures r.Ok? && r.value.Some? ==> ident.Dict? && DictGet(ident.entries, typeKey) == Str(r.value.value.0)
                                       && r.value.value.1 == DictGet(ident.entries, "identifier")
  {
    match ident
    case Dict(entries) =>
      if !HasKey(entries, "identifier") then Err(KeyError("identifier"))
      else if !HasKey(entries, typeKey) then Err(KeyError(typeKey))
      else
        (match DictGet(entries, typeKey)
         case Str(t) => Ok(Some((t, DictGet(entries, "identifier"))))
         case List(_) => Err(TypeError)
         case Dict(_) => Err(TypeError)
         case Obj(_, _) => Err(TypeError)
         case _ => Ok(None))
    case _ => Err(TypeError)
  }

  /** The loop over `identifiers_raw`, in order. */
  function Absorb(typeKey: string, ids: Table<Value>, items: seq<Value>): (r: Result<Table<Value>>)
    decreases |items|
    ensures r.Ok? <==> forall i :: 0 <= i < |items| ==> Assignment(typeKey, items[i]).Ok?
  {
    if |items| == 0 then Ok(ids)
    else
      var rest := items[1..];
      assert forall i :: 0 < i < |items| ==> items[i] == rest[i - 1];
      match Assignment(typeKey, items[0])
      case Err(e) => Err(e)
      case Ok(a) => Absorb(typeKey, if a.Some? then Set(ids, a.value.0, a.value.1) else ids, rest)
  }

  /** A failing loop raises what the first failing entry raises. */
  lemma {:induction false} AbsorbFirstFailure(typeKey: string, ids: Table<Value>, items: seq<Value>)
    requires Absorb(typeKey, ids, items).Err?
    ensures exists i :: 0 <= i < |items| && Assignment(typeKey, items[i]) == Err(Absorb(typeKey, ids, items).error) &&
                        forall j :: 0 <= j < i ==> Assignment(typeKey, items[j]).Ok?
    decreases |items|
  {
    var rest := items[1..];
    if Assignment(typeKey, items[0]).Ok? {
      var a := Assignment(typeKey, items[0]).value;
      var next := if a.Some? then Set(ids, a.value.0, a.value.1) else ids;
      assert Absorb(typeKey, ids, items) == Absorb(typeKey, next, rest);
      AbsorbFirstFailure(typeKey, next, rest);
      FirstFailureShift(ident => Assignment(typeKey, ident), items, Absorb(typeKey, next, rest).error);
    }
  }

  /** Reference definition: the value the last entry of type `k` assigns,
      if any. */
  function Assigned(typeKey: string, items: seq<Value>, k: string): Option<Value>
  {
    if |items| == 0 then None
    else
      var later := Assigned(typeKey, items[1..], k);
      if later.Some? then later
      else match Assignment(typeKey, items[0])
        case Ok(Some(kv)) => if kv.0 == k then Some(kv.1) else None
        case _ => None
  }

  /** After the loop each key holds the last value assigned to it, or its
      seed; the keys stay distinct. */
  lemma {:induction false} AbsorbGet(typeKey: string, ids: Table<Value>, items: seq<Value>, k: string)
    requires Absorb(typeKey, ids, items).Ok?
    requires UniqueKeys(ids)
    ensures UniqueKeys(Absorb(typeKey, ids, items).value)
    ensures Get(Absorb(typeKey, ids, items).value, k) == if Assigned(typeKey, items, k).Some? then Assigned(typeKey, items, k) else Get(ids, k)
    decreases |items|
  {
    if |items| > 0 {
      var later := Assigned(typeKey, items[1..], k);
      match Assignment(typeKey, items[0])
      case Ok(None) =>
        assert Absorb(typeKey, ids, items) == Absorb(typeKey, ids, items[1..]);
        assert Assigned(typeKey, items, k) == later;
        AbsorbGet(typeKey, ids, items[1..], k);
      case Ok(Some(kv)) =>
        var next := Set(ids, kv.0, kv.1);
        assert Absorb(typeKey, ids, items) == Absorb(typeKey, next, items[1..]);
        assert Assigned(typeKey, items, k) == if later.Some? then later else if kv.0 == k then Some(kv.1) else None;
        SetUnique(ids, kv.0, kv.1);
        AbsorbGet(typeKey, next, items[1..], k);
        if kv.0 != k {
          SetOther(ids, kv.0, kv.1, k);
        }
    }
  }

  /** The dict comprehension keeping the truthy values. */
  function KeepTruthy(t: Table<Value>): (r: Table<Value>)
    ensures forall i :: 0 <= i < |r| ==> Truthy(r[i].1)
    ensures forall e :: e in r ==> e in t
  {
    if |t| == 0 then []
    else if Truthy(t[0].1) then [t[0]] + KeepTruthy(t[1..])
    else KeepTruthy(t[1..])
  }

  lemma {:induction false} KeepTruthyGet(t: Table<Value>, k: string)
    requires UniqueKeys(t)
    ensures Get(KeepTruthy(t), k) == match Get(t, k) case Some(v) => if Truthy(v) then Some(v) else None case None => None
  {
    if |t| > 0 {
      KeepTruthyGet(t[1..], k);
      assert UniqueKeys(t[1..]);
      if t[0].0 == k {
        assert forall j :: 0 <= j < |t[1..]| ==> Keys(t[1..])[j] != k by {
          forall j | 0 <= j < |t[1..]|
            ensures Keys(t[1..])[j] != k
          {
            assert t[1..][j] == t[j + 1];
          }
        }
        assert !HasKey(t[1..], k);
      }
    }
  }

  /** The seeds: `doi` and `title` as the reference gives them. */
  function Seeds(data: Table<Value>): (s: Table<Value>)
    ensures UniqueKeys(s)
  {
    [("doi", DictGet(data, "doi")), ("title", DictGet(data, "title"))]
  }

  /** `_get_identifiers` reading the type under `typeKey`: doi and title,
      overridden or extended by each entry of a truthy `identifiers` list,
      keeping only truthy values. A truthy `identifiers` that is not a list
      iterates into values that cannot be indexed by a string, or is not
      iterable. */
  function GetIdentifiersWith(typeKey: string, data: Table<Value>): (r: Result<Table<Value>>)
    ensures forall e :: r.Ok? && e in r.value ==> Truthy(e.1)
    ensures Truthy(DictGet(data, "identifiers")) && !DictGet(data, "identifiers").List? ==> r == Err(TypeError)
  {
    var raw := DictGet(data, "identifiers");
    if !Truthy(raw) then Ok(KeepTruthy(Seeds(data)))
    else
      match raw
      case List(items) =>
        (match Absorb(typeKey, Seeds(data), items)
         case Err(e) => Err(e)
         case Ok(ids) => Ok(KeepTruthy(ids)))
      case _ => Err(TypeError)
  }

  /** `_get_identifiers` as written, reading `identifier_type`. */
  function GetIdentifiers(data: Table<Value>): (r: Result<Table<Value>>)
    ensures forall e :: r.Ok? && e in r.value ==> Truthy(e.1)
    ensures Truthy(DictGet(data, "identifiers")) && !DictGet(data, "identifiers").List? ==> r == Err(TypeError)
  {
    GetIdentifiersWith(ReadTypeKey, data)
  }

  /** The entries of a truthy identifiers list, or none. */
  function IdentifierItems(data: Table<Value>): seq<Value>
  {
    var raw := DictGet(data, "identifiers");
    if Truthy(raw) && raw.List? then raw.items else []
  }

  /** The value `_get_identifiers` ends up holding for `k`, before the
      truthiness filter. */
  function FinalValue(typeKey: string, data: Table<Value>, k: string): Value
  {
    var last := Assigned(typeKey, IdentifierItems(data), k);
    if last.Some? then last.value
    else if k == "doi" then DictGet(data, "doi")
    else if k == "title" then DictGet(data, "title")
    else Null
  }

  /** `_get_identifiers` holds `k` exactly when its final value is truthy,
      and then holds that value; it fails exactly when some entry of a
      truthy identifiers list cannot be assigned, or the list is not one. */
  lemma GetIdentifiersGet(typeKey: string, data: Table<Value>, k: string)
    ensures GetIdentifiersWith(typeKey, data).Ok? <==>
              (Truthy(DictGet(data, "identifiers")) ==> DictGet(data, "identifiers").List?) &&
              forall i :: 0 <= i < |IdentifierItems(data)| ==> Assignment(typeKey, IdentifierItems(data)[i]).Ok?
    ensures GetIdentifiersWith(typeKey, data).Ok? ==>
              Get(GetIdentifiersWith(typeKey, data).value, k) == if Truthy(FinalValue(typeKey, data, k)) then Some(FinalValue(typeKey, data, k)) else None
  {
    var seeds := Seeds(data);
    var items := IdentifierItems(data);
    var r := GetIdentifiersWith(typeKey, data);
    if r.Ok? {
      var ids := Absorb(typeKey, seeds, items).value;
      assert r.value == KeepTruthy(ids);
      AbsorbGet(typeKey, seeds, items, k);
      KeepTruthyGet(ids, k);
    }
  }

  // ---------------------------------------------------------------------
  // resolve and get

  const NoData: Table<Value> := [("explanation", Str("No data exists for this reference"))]
  const NoRedirect: Table<Value> := [("explanation", Str("cannot provide redirect for reference"))]

  function Redirect(url: string): Table<Value> { [("url", Str(url))] }

  /** `resolve(document_id, reference_id)`, given what `get` answered: a
      raised exception passes through; a status other than 200 keeps that
      status with an explanation; otherwise 303 to arXiv, then DOI, then
      ISBN, then a Google Scholar search on the title, and 404 when none of
      them is known. */
  function Resolve(env: Env, got: Result<Response>): (r: Result<Response>)
    ensures got.Err? ==> r == Err(got.error)
    ensures got.Ok? && got.value.status != StatusOk ==> r == Ok(Response(NoData, got.value.status))
    ensures r.Ok? ==> r.value.status in {got.value.status, StatusSeeOther, StatusNotFound}
  {
    match got
    case Err(e) => Err(e)
    case Ok(Response(data, status)) =>
      if status != StatusOk then Ok(Response(NoData, status))
      else
        match GetIdentifiers(data)
        case Err(e) => Err(e)
        case Ok(ids) =>
          if HasKey(ids, "arxiv") then
            Ok(Response(Redirect("https://arxiv.org/abs/" + Show(GetOr(ids, "arxiv", Null), env.formatReal)), StatusSeeOther))
          else if HasKey(ids, "doi") then
            Ok(Response(Redirect("https://dx.doi.org/" + Show(GetOr(ids, "doi", Null), env.formatReal)), StatusSeeOther))
          else if HasKey(ids, "isbn") then
            Ok(Response(Redirect("https://www.worldcat.org/isbn/" + Show(GetOr(ids, "isbn", Null), env.formatReal)), StatusSeeOther))
          else if HasKey(ids, "title") then
            (match GsQuery(env, data)
             case Err(e) => Err(e)
             case Ok(query) => Ok(Response(Redirect("https://scholar.google.com/scholar?" + query), StatusSeeOther)))
          else Ok(Response(NoRedirect, StatusNotFound))
  }

  /** The redirect priority, in terms of the final identifier values: the
      first of arxiv, doi, isbn and title whose value is truthy decides the
      target, and with none of them the answer is 404. */
  lemma ResolvePriority(env: Env, data: Table<Value>)
    requires GetIdentifiers(data).Ok? && GsQuery(env, data).Ok?
    ensures var r := Resolve(env, Ok(Response(data, StatusOk)));
      var arxiv, doi, isbn, title := FinalValue(ReadTypeKey, data, "arxiv"), FinalValue(ReadTypeKey, data, "doi"),
                                     FinalValue(ReadTypeKey, data, "isbn"), FinalValue(ReadTypeKey, data, "title");
      && r.Ok?
      && (Truthy(arxiv) ==> r.value == Response(Redirect("https://arxiv.org/abs/" + Show(arxiv, env.formatReal)), StatusSeeOther))
      && (!Truthy(arxiv) && Truthy(doi) ==>
            r.value == Response(Redirect("https://dx.doi.org/" + Show(doi, env.formatReal)), StatusSeeOther))
      && (!Truthy(arxiv) && !Truthy(doi) && Truthy(isbn) ==>
            r.value == Response(Redirect("https://www.worldcat.org/isbn/" + Show(isbn, env.formatReal)), StatusSeeOther))
      && (!Truthy(arxiv) && !Truthy(doi) && !Truthy(isbn) && Truthy(title) ==>
            r.value == Response(Redirect("https://scholar.google.com/scholar?" + GsQuery(env, data).value), StatusSeeOther))
      && (!Truthy(arxiv) && !Truthy(doi) && !Truthy(isbn) && !Truthy(title) ==>
            r.value == Response(NoRedirect, StatusNotFound))
  {
    var ids := GetIdentifiers(data).value;
    GetIdentifiersGet(ReadTypeKey, data, "arxiv");
    GetIdentifiersGet(ReadTypeKey, data, "doi");
    GetIdentifiersGet(ReadTypeKey, data, "isbn");
    GetIdentifiersGet(ReadTypeKey, data, "title");
  }

  /** What `data_store.load(document_id)` did. */
  datatype Load = Loaded(referenceSet: ReferenceSet) | CommunicationError | ReferencesNotFound

  /** The position of the first reference with identifier `id`. */
  function FirstWithIdentifier(references: seq<Reference>, id: string): (r: Option<nat>)
    ensures r.None? <==> forall i :: 0 <= i < |references| ==> references[i].identifier != id
    ensures r.Some? ==> r.value < |references| && references[r.value].identifier == id &&
                        forall j :: 0 <= j < r.value ==> references[j].identifier != id
  {
    if |references| == 0 then None
    else if references[0].identifier == id then Some(0)
    else
      var rest := FirstWithIdentifier(references[1..], id);
      assert forall i :: 0 < i < |references| ==> references[i] == references[1..][i - 1];
      if rest.None? then None else Some(rest.value + 1)
  }

  /** `get(document_id, ref_id)`: the dict form of the first reference
      with that identifier and status 200; a store that cannot be reached
      raises 500, and an unknown document or identifier raises 404. */
  function GetReference(load: Load, refId: string): (r: Result<Response>)
    ensures load.CommunicationError? ==> r == Err(HttpError(StatusServerError, "Couldn't connect to data store"))
    ensures load.ReferencesNotFound? ==> r == Err(HttpError(StatusNotFound, "No such reference"))
    ensures load.Loaded? ==>
              var refs := load.referenceSet.references;
              match FirstWithIdentifier(refs, refId)
              case None => r == Err(HttpError(StatusNotFound, "No such reference"))
              case Some(i) => r == Ok(Response(ToDict(refs[i]), StatusOk))
  {
    match load
    case CommunicationError => Err(HttpError(StatusServerError, "Couldn't connect to data store"))
    case ReferencesNotFound => Err(HttpError(StatusNotFound, "No such reference"))
    case Loaded(rs) =>
      match FirstWithIdentifier(rs.references, refId)
      case None => Err(HttpError(StatusNotFound, "No such reference"))
      case Some(i) => Ok(Response(ToDict(rs.references[i]), StatusOk))
  }

  /** `get` either raises or answers 200, so through `get` the explanation
      branch of `resolve` for other statuses is never taken. */
  lemma ResolveAfterGet(env: Env, load: Load, refId: string)
    ensures GetReference(load, refId).Ok? ==> GetReference(load, refId).value.status == StatusOk
    ensures Resolve(env, GetReference(load, refId)).Ok? ==>
              Resolve(env, GetReference(load, refId)).value.status in {StatusSeeOther, StatusNotFound}
  {
    var got := GetReference(load, refId);
    assert got.Ok? ==> got.value.status == StatusOk by {
      GetReferenceStatus(load, refId);
    }
    ResolveFromOk(env, got);
  }

  lemma GetReferenceStatus(load: Load, refId: string)
    ensures GetReference(load, refId).Ok? ==> GetReference(load, refId).value.status == StatusOk
  {
  }

  /** `resolve` on a 200 answer redirects or answers 404. */
  lemma ResolveFromOk(env: Env, got: Result<Response>)
    requires got.Ok? ==> got.value.status == StatusOk
    ensures Resolve(env, got).Ok? ==> Resolve(env, got).value.status in {StatusSeeOther, StatusNotFound}
  {
  }

  /** A stored reference whose first identifier is an `Identifier`
      instance makes `resolve` raise KeyError: its dict form spells the key
      `identifer_type`, while `_get_identifiers` reads `identifier_type`. */
  lemma StoredIdentifiersRaise(r: Reference, first: Identifier, rest: seq<Value>)
    requires r.identifiers == List([IdentifierValue(first)] + rest)
    ensures GetIdentifiers(ToDict(r)) == Err(KeyError("identifier_type"))
  {
    var items := [IdentifierValue(first)] + rest;
    var d := AsDict(r.identifiers);
    assert d == List(AsDictItems(items));
    var ident := AsDictItems(items)[0];
    assert ident == AsDict(IdentifierValue(first));
    IdentifierDictRaises(first);
    StoredIdentifiers(r);
    assert Truthy(d);
    AbsorbFirstRaises(ReadTypeKey, Seeds(ToDict(r)), AsDictItems(items));
  }

  /** `to_dict` keeps a non-None `identifiers` under its own name. */
  lemma StoredIdentifiers(r: Reference)
    requires !r.identifiers.Null?
    ensures DictGet(ToDict(r), "identifiers") == AsDict(r.identifiers)
  {
    ToDictGet(r, Identifiers);
    assert Name(Identifiers) == "identifiers";
    var t := ToDict(r);
    assert Get(t, "identifiers") == Some(AsDict(r.identifiers));
    assert HasKey(t, "identifiers");
  }

  /** The dict form of an `Identifier` lacks the key the loop reads. */
  lemma IdentifierDictRaises(first: Identifier)
    ensures Assignment(ReadTypeKey, AsDict(IdentifierValue(first))) == Err(KeyError("identifier_type"))
  {
    var ident := AsDict(IdentifierValue(first));
    assert ident.Dict? && Keys(ident.entries) == IdentifierFields;
    assert HasKey(ident.entries, "identifier");
    assert !HasKey(ident.entries, "identifier_type");
  }

  // ---------------------------------------------------------------------
  // _get_identifiers as evidently intended

  /** `_get_identifiers` reading the type under the key `to_dict` stores. */
  function IntendedGetIdentifiers(data: Table<Value>): (r: Result<Table<Value>>)
    ensures forall e :: r.Ok? && e in r.value ==> Truthy(e.1)
    ensures !Truthy(DictGet(data, "identifiers")) ==> r == GetIdentifiers(data)
  {
    GetIdentifiersWith(StoredTypeKey, data)
  }

  function IdentifierValues(ids: seq<Identifier>): (r: seq<Value>)
    ensures |r| == |ids| && forall i :: 0 <= i < |ids| ==> r[i] == IdentifierValue(ids[i])
  {
    seq(|ids|, i requires 0 <= i < |ids| => IdentifierValue(ids[i]))
  }

  /** Reference definition: the id of the last identifier of type `k`. */
  function LastOfType(ids: seq<Identifier>, k: string): Option<string>
  {
    if |ids| == 0 then None
    else
      var later := LastOfType(ids[1..], k);
      if later.Some? then later
      else if ids[0].identiferType == k then Some(ids[0].identifier)
      else None
  }

  /** The dict form of an `Identifier` assigns its id to its type under the
      stored spelling. */
  lemma StoredAssignment(i: Identifier)
    ensures Assignment(StoredTypeKey, AsDict(IdentifierValue(i))) == Ok(Some((i.identiferType, Str(i.identifier))))
  {
    var e := [("identifer_type", Str(i.identiferType)), ("identifier", Str(i.identifier))];
    assert AsDictEntries(e[1..][1..]) == [];
    assert AsDictEntries(e[1..]) == [("identifier", Str(i.identifier))];
    assert AsDictEntries(e) == e;
    assert IdentifierValue(i) == Obj("Identifier", e);
    assert Keys(e) == ["identifer_type", "identifier"];
    GetAt(e, 0);
    GetAt(e, 1);
  }

  /** Over dict forms of `Identifier`s the loop's last assignment to `k` is
      the last identifier of that type. */
  lemma {:induction false} StoredAssigned(ids: seq<Identifier>, k: string)
    ensures Assigned(StoredTypeKey, AsDictItems(IdentifierValues(ids)), k) ==
              if LastOfType(ids, k).Some? then Some(Str(LastOfType(ids, k).value)) else None
  {
    if |ids| > 0 {
      var items := AsDictItems(IdentifierValues(ids));
      assert IdentifierValues(ids)[1..] == IdentifierValues(ids[1..]);
      assert items[1..] == AsDictItems(IdentifierValues(ids[1..]));
      StoredAssigned(ids[1..], k);
      StoredAssignment(ids[0]);
    }
  }

  /** `AsDictItems` converts each entry in place. */
  lemma {:induction false} AsDictItemsAt(items: seq<Value>, i: nat)
    requires i < |items|
    ensures AsDictItems(items)[i] == AsDict(items[i])
  {
    if i > 0 {
      AsDictItemsAt(items[1..], i - 1);
    }
  }

  /** With the stored spelling read, a reference whose identifiers are
      `Identifier` instances resolves its identifiers: each type holds the
      id of its last identifier, and `doi` and `title` keep their own values
      unless an identifier of that type overrides them; empty values are
      dropped. */
  lemma IntendedStoredIdentifiers(r: Reference, ids: seq<Identifier>, k: string)
    requires r.identifiers == List(IdentifierValues(ids))
    ensures IntendedGetIdentifiers(ToDict(r)).Ok?
    ensures var v := if LastOfType(ids, k).Some? then Str(LastOfType(ids, k).value)
                     else if k == "doi" || k == "title" then DictGet(ToDict(r), k)
                     else Null;
            Get(IntendedGetIdentifiers(ToDict(r)).value, k) == if Truthy(v) then Some(v) else None
  {
    var data := ToDict(r);
    StoredIdentifiers(r);
    var items := AsDictItems(IdentifierValues(ids));
    assert DictGet(data, "identifiers") == List(items);
    assert Truthy(DictGet(data, "identifiers")) ==> IdentifierItems(data) == items;
    if |ids| > 0 {
      assert Truthy(DictGet(data, "identifiers"));
    }
    forall i | 0 <= i < |items|
      ensures Assignment(StoredTypeKey, items[i]).Ok?
    {
      AsDictItemsAt(IdentifierValues(ids), i);
      StoredAssignment(ids[i]);
    }
    StoredAssigned(ids, k);
    GetIdentifiersGet(StoredTypeKey, data, k);
  }

  /** The loop raises what its first entry raises. */
  lemma AbsorbFirstRaises(typeKey: string, ids: Table<Value>, items: seq<Value>)
    requires |items| > 0 && Assignment(typeKey, items[0]).Err?
    ensures Absorb(typeKey, ids, items) == Err(Assignment(typeKey, items[0]).error)
  {
  }
}

/** The redirect scenarios of references/controllers/tests/test_controller_references.py. */
module ExtractedReferencesExamples {
  import opened Base
  import opened Tables
  import opened Json
  import opened Externals
  import opened ExtractedReferences

  /** An entry of a stored `identifiers` list. */
  function Ident(kind: string, id: string): Value
  {
    Dict([("identifier_type", Str(kind)), ("identifier", Str(id))])
  }

  /** The metadata fields a reference record carries after its identifiers. */
  datatype Meta = Meta(title: Value, year: Value, source: Value, authors: Value)

  function Fields(m: Meta): Table<Value>
  {
    [("title", m.title)] + ([("year", m.year)] + ([("source", m.source)] + [("authors", m.authors)]))
  }

  /** A record with an arXiv and an ISBN identifier and a DOI. */
  function WithArxiv(arxiv: string, isbn: string, doi: string, m: Meta): Table<Value>
  {
    [("identifiers", List([Ident("arxiv", arxiv), Ident("isbn", isbn)]))] + ([("doi", Str(doi))] + Fields(m))
  }

  /** A record with an ISBN identifier and a DOI. */
  function WithDoi(isbn: string, doi: string, m: Meta): Table<Value>
  {
    [("identifiers", List([Ident("isbn", isbn)]))] + ([("doi", Str(doi))] + Fields(m))
  }

  /** A record with an ISBN identifier only. */
  function WithIsbn(isbn: string, m: Meta): Table<Value>
  {
    [("identifiers", List([Ident("isbn", isbn)]))] + Fields(m)
  }

  /** Looking up in a table with a known first entry. */
  lemma DictGetCons(k0: string, v0: Value, t: Table<Value>, k: string)
    ensures DictGet([(k0, v0)] + t, k) == if k0 == k then v0 else DictGet(t, k)
  {
    GetCons(k0, v0, t, k);
  }

  /** The lookups in the metadata fields. */
  lemma FieldsGet(m: Meta, k: string)
    ensures DictGet(Fields(m), k) ==
              if k == "title" then m.title else if k == "year" then m.year
              else if k == "source" then m.source else if k == "authors" then m.authors else Null
  {
    var last: Table<Value> := [("authors", m.authors)];
    assert last == [("authors", m.authors)] + [];
    DictGetCons("authors", m.authors, [], k);
    DictGetCons("source", m.source, last, k);
    DictGetCons("year", m.year, [("source", m.source)] + last, k);
    DictGetCons("title", m.title, [("year", m.year)] + ([("source", m.source)] + last), k);
  }

  lemma IdentAssigns(kind: string, id: string)
    ensures Assignment(ReadTypeKey, Ident(kind, id)) == Ok(Some((kind, Str(id))))
  {
    var e := [("identifier_type", Str(kind)), ("identifier", Str(id))];
    assert UniqueKeys(e);
    GetAt(e, 0);
    GetAt(e, 1);
    assert Keys(e) == ["identifier_type", "identifier"];
  }

  lemma AbsorbStep(ids: Table<Value>, item: Value, rest: seq<Value>, k: string, v: Value)
    requires Assignment(ReadTypeKey, item) == Ok(Some((k, v)))
    ensures Absorb(ReadTypeKey, ids, [item] + rest) == Absorb(ReadTypeKey, Set(ids, k, v), rest)
  {
    assert ([item] + rest)[1..] == rest;
  }

  /** One identifier of a new type is appended. */
  lemma AbsorbOne(ids: Table<Value>, kind: string, id: string)
    requires !HasKey(ids, kind)
    ensures Absorb(ReadTypeKey, ids, [Ident(kind, id)]) == Ok(ids + [(kind, Str(id))])
  {
    IdentAssigns(kind, id);
    AbsorbStep(ids, Ident(kind, id), [], kind, Str(id));
    SetAbsent(ids, kind, Str(id));
  }

  /** Two identifiers of new, different types are appended in order. */
  lemma AbsorbTwo(ids: Table<Value>, k1: string, id1: string, k2: string, id2: string)
    requires !HasKey(ids, k1) && !HasKey(ids, k2) && k1 != k2
    ensures Absorb(ReadTypeKey, ids, [Ident(k1, id1), Ident(k2, id2)]) == Ok(ids + [(k1, Str(id1)), (k2, Str(id2))])
  {
    var one := ids + [(k1, Str(id1))];
    IdentAssigns(k1, id1);
    AbsorbFirstOfTwo(ids, Ident(k1, id1), Ident(k2, id2), k1, Str(id1));
    SetAbsent(ids, k1, Str(id1));
    AppendAbsent(ids, k1, Str(id1), k2);
    AbsorbOne(one, k2, id2);
    AppendTwo(ids, (k1, Str(id1)), (k2, Str(id2)));
  }

  lemma AbsorbFirstOfTwo(ids: Table<Value>, a: Value, b: Value, k: string, v: Value)
    requires Assignment(ReadTypeKey, a) == Ok(Some((k, v)))
    ensures Absorb(ReadTypeKey, ids, [a, b]) == Absorb(ReadTypeKey, Set(ids, k, v), [b])
  {
    assert [a, b][1..] == [b];
  }

  /** `_get_identifiers` on a record whose identifiers are a non-empty
      list that can be absorbed. */
  lemma IdentifiersOfList(data: Table<Value>, items: seq<Value>, ids: Table<Value>)
    requires DictGet(data, "identifiers") == List(items) && |items| > 0
    requires Absorb(ReadTypeKey, Seeds(data), items) == Ok(ids)
    ensures GetIdentifiers(data) == Ok(KeepTruthy(ids))
  {
    assert Truthy(DictGet(data, "identifiers"));
  }

  /** Filtering truthy values keeps a table whose values are all truthy. */
  lemma {:induction false} KeepAllTruthy(t: Table<Value>)
    requires forall i :: 0 <= i < |t| ==> Truthy(t[i].1)
    ensures KeepTruthy(t) == t
  {
    if |t| > 0 {
      KeepAllTruthy(t[1..]);
      assert [t[0]] + t[1..] == t;
    }
  }

  /** The redirect `resolve` answers once the identifiers are known. */
  lemma ResolveTo(env: Env, data: Table<Value>, ids: Table<Value>, key: string, id: string, prefix: string)
    requires GetIdentifiers(data) == Ok(ids)
    requires (key, prefix) in {("arxiv", "https://arxiv.org/abs/"), ("doi", "https://dx.doi.org/"),
                               ("isbn", "https://www.worldcat.org/isbn/")}
    requires Get(ids, key) == Some(Str(id))
    requires key != "arxiv" ==> !HasKey(ids, "arxiv")
    requires key == "isbn" ==> !HasKey(ids, "doi")
    ensures Resolve(env, Ok(Response(data, StatusOk))) == Ok(Response(Redirect(prefix + id), StatusSeeOther))
  {
    assert GetOr(ids, key, Null) == Str(id);
  }

  /** The search `resolve` answers when only a title is known. */
  lemma ResolveToSearch(env: Env, data: Table<Value>, ids: Table<Value>, parts: seq<(string, string)>)
    requires GetIdentifiers(data) == Ok(ids)
    requires Keys(ids) == ["title"]
    requires QueryParts(env, data) == Ok(parts)
    ensures Resolve(env, Ok(Response(data, StatusOk))) ==
              Ok(Response(Redirect("https://scholar.google.com/scholar?" + env.urlencode(parts)), StatusSeeOther))
  {
    assert !HasKey(ids, "arxiv") && !HasKey(ids, "doi") && !HasKey(ids, "isbn") && HasKey(ids, "title");
    assert GsQuery(env, data) == Ok(env.urlencode(parts));
  }

  lemma ArxivRecord(arxiv: string, isbn: string, doi: string, m: Meta)
    ensures DictGet(WithArxiv(arxiv, isbn, doi, m), "identifiers") == List([Ident("arxiv", arxiv), Ident("isbn", isbn)])
    ensures Seeds(WithArxiv(arxiv, isbn, doi, m)) == [("doi", Str(doi)), ("title", m.title)]
  {
    var rest := [("doi", Str(doi))] + Fields(m);
    var ids := List([Ident("arxiv", arxiv), Ident("isbn", isbn)]);
    DictGetCons("identifiers", ids, rest, "identifiers");
    DictGetCons("identifiers", ids, rest, "doi");
    DictGetCons("identifiers", ids, rest, "title");
    DictGetCons("doi", Str(doi), Fields(m), "doi");
    DictGetCons("doi", Str(doi), Fields(m), "title");
    FieldsGet(m, "title");
  }

  lemma PairPlusOne<T>(a: T, b: T, c: T)
    ensures [a, b] + [c] == [a, b, c]
  {
  }

  lemma PairPlusTwo<T>(a: T, b: T, c: T, d: T)
    ensures [a, b] + [c, d] == [a, b, c, d]
  {
  }

  /** The identifiers of a record whose list holds one entry of a new type. */
  lemma OneIdentifier(data: Table<Value>, kind: string, id: string, doi: Value, title: Value)
    requires DictGet(data, "identifiers") == List([Ident(kind, id)])
    requires Seeds(data) == [("doi", doi), ("title", title)]
    requires kind != "doi" && kind != "title"
    ensures GetIdentifiers(data) == Ok(KeepTruthy([("doi", doi), ("title", title), (kind, Str(id))]))
  {
    var seeds := [("doi", doi), ("title", title)];
    assert !HasKey(seeds, kind) by { assert Keys(seeds) == ["doi", "title"]; }
    AbsorbOne(seeds, kind, id);
    IdentifiersOfList(data, [Ident(kind, id)], seeds + [(kind, Str(id))]);
    PairPlusOne(("doi", doi), ("title", title), (kind, Str(id)));
  }

  /** The identifiers of a record whose list holds two entries of new types. */
  lemma TwoIdentifiers(data: Table<Value>, k1: string, id1: string, k2: string, id2: string, doi: Value, title: Value)
    requires DictGet(data, "identifiers") == List([Ident(k1, id1), Ident(k2, id2)])
    requires Seeds(data) == [("doi", doi), ("title", title)]
    requires k1 !in {"doi", "title", k2} && k2 !in {"doi", "title"}
    ensures GetIdentifiers(data) == Ok(KeepTruthy([("doi", doi), ("title", title), (k1, Str(id1)), (k2, Str(id2))]))
  {
    var seeds := [("doi", doi), ("title", title)];
    assert !HasKey(seeds, k1) && !HasKey(seeds, k2) by { assert Keys(seeds) == ["doi", "title"]; }
    AbsorbTwo(seeds, k1, id1, k2, id2);
    IdentifiersOfList(data, [Ident(k1, id1), Ident(k2, id2)], seeds + [(k1, Str(id1)), (k2, Str(id2))]);
    PairPlusTwo(("doi", doi), ("title", title), (k1, Str(id1)), (k2, Str(id2)));
  }

  lemma ArxivKept(arxiv: string, isbn: string, doi: string, title: Value)
    requires arxiv != "" && isbn != "" && doi != "" && Truthy(title)
    ensures var ids := [("doi", Str(doi)), ("title", title), ("arxiv", Str(arxiv)), ("isbn", Str(isbn))];
      KeepTruthy(ids) == ids && Get(ids, "arxiv") == Some(Str(arxiv))
  {
    var ids := [("doi", Str(doi)), ("title", title), ("arxiv", Str(arxiv)), ("isbn", Str(isbn))];
    assert Truthy(ids[0].1) && Truthy(ids[1].1) && Truthy(ids[2].1) && Truthy(ids[3].1);
    KeepAllTruthy(ids);
    assert UniqueKeys(ids) by { assert Keys(ids) == ["doi", "title", "arxiv", "isbn"]; }
    GetAt(ids, 2);
  }

  /** An arXiv identifier wins over the DOI and the ISBN. */
  lemma ResolveWithArxiv(env: Env, arxiv: string, isbn: string, doi: string, m: Meta)
    requires arxiv != "" && isbn != "" && doi != "" && Truthy(m.title)
    ensures Resolve(env, Ok(Response(WithArxiv(arxiv, isbn, doi, m), StatusOk))) ==
              Ok(Response(Redirect("https://arxiv.org/abs/" + arxiv), StatusSeeOther))
  {
    ArxivRecord(arxiv, isbn, doi, m);
    TwoIdentifiers(WithArxiv(arxiv, isbn, doi, m), "arxiv", arxiv, "isbn", isbn, Str(doi), m.title);
    ArxivKept(arxiv, isbn, doi, m.title);
    var ids := [("doi", Str(doi)), ("title", m.title), ("arxiv", Str(arxiv)), ("isbn", Str(isbn))];
    ResolveTo(env, WithArxiv(arxiv, isbn, doi, m), ids, "arxiv", arxiv, "https://arxiv.org/abs/");
  }

  lemma DoiRecord(isbn: string, doi: string, m: Meta)
    ensures DictGet(WithDoi(isbn, doi, m), "identifiers") == List([Ident("isbn", isbn)])
    ensures Seeds(WithDoi(isbn, doi, m)) == [("doi", Str(doi)), ("title", m.title)]
  {
    var rest := [("doi", Str(doi))] + Fields(m);
    var ids := List([Ident("isbn", isbn)]);
    DictGetCons("identifiers", ids, rest, "identifiers");
    DictGetCons("identifiers", ids, rest, "doi");
    DictGetCons("identifiers", ids, rest, "title");
    DictGetCons("doi", Str(doi), Fields(m), "doi");
    DictGetCons("doi", Str(doi), Fields(m), "title");
    FieldsGet(m, "title");
  }

  lemma DoiKept(isbn: string, doi: string, title: Value)
    requires isbn != "" && doi != "" && Truthy(title)
    ensures var ids := [("doi", Str(doi)), ("title", title), ("isbn", Str(isbn))];
      KeepTruthy(ids) == ids && Get(ids, "doi") == Some(Str(doi)) && !HasKey(ids, "arxiv")
  {
    var ids := [("doi", Str(doi)), ("title", title), ("isbn", Str(isbn))];
    assert Truthy(ids[0].1) && Truthy(ids[1].1) && Truthy(ids[2].1);
    KeepAllTruthy(ids);
    assert Keys(ids) == ["doi", "title", "isbn"];
    GetAt(ids, 0);
  }

  /** Without an arXiv identifier, the DOI wins over the ISBN. */
  lemma ResolveWithDoi(env: Env, isbn: string, doi: string, m: Meta)
    requires isbn != "" && doi != "" && Truthy(m.title)
    ensures Resolve(env, Ok(Response(WithDoi(isbn, doi, m), StatusOk))) ==
              Ok(Response(Redirect("https://dx.doi.org/" + doi), StatusSeeOther))
  {
    DoiRecord(isbn, doi, m);
    OneIdentifier(WithDoi(isbn, doi, m), "isbn", isbn, Str(doi), m.title);
    DoiKept(isbn, doi, m.title);
    var ids := [("doi", Str(doi)), ("title", m.title), ("isbn", Str(isbn))];
    ResolveTo(env, WithDoi(isbn, doi, m), ids, "doi", doi, "https://dx.doi.org/");
  }

  lemma IsbnRecord(isbn: string, m: Meta)
    ensures DictGet(WithIsbn(isbn, m), "identifiers") == List([Ident("isbn", isbn)])
    ensures Seeds(WithIsbn(isbn, m)) == [("doi", Null), ("title", m.title)]
  {
    var ids := List([Ident("isbn", isbn)]);
    DictGetCons("identifiers", ids, Fields(m), "identifiers");
    DictGetCons("identifiers", ids, Fields(m), "doi");
    DictGetCons("identifiers", ids, Fields(m), "title");
    FieldsGet(m, "doi");
    FieldsGet(m, "title");
  }

  lemma IsbnKept(isbn: string, title: Value)
    requires isbn != "" && Truthy(title)
    ensures var kept := [("title", title), ("isbn", Str(isbn))];
      KeepTruthy([("doi", Null), ("title", title), ("isbn", Str(isbn))]) == kept && Get(kept, "isbn") == Some(Str(isbn))
      && !HasKey(kept, "arxiv") && !HasKey(kept, "doi")
  {
    var ids := [("doi", Null), ("title", title), ("isbn", Str(isbn))];
    var kept := [("title", title), ("isbn", Str(isbn))];
    assert ids[1..] == kept;
    assert Truthy(kept[0].1) && Truthy(kept[1].1);
    KeepAllTruthy(kept);
    assert Keys(kept) == ["title", "isbn"];
    GetAt(kept, 1);
  }

  /** With only an ISBN and a title, the ISBN wins. */
  lemma ResolveWithIsbn(env: Env, isbn: string, m: Meta)
    requires isbn != "" && Truthy(m.title)
    ensures Resolve(env, Ok(Response(WithIsbn(isbn, m), StatusOk))) ==
              Ok(Response(Redirect("https://www.worldcat.org/isbn/" + isbn), StatusSeeOther))
  {
    IsbnRecord(isbn, m);
    OneIdentifier(WithIsbn(isbn, m), "isbn", isbn, Null, m.title);
    IsbnKept(isbn, m.title);
    var kept := [("title", m.title), ("isbn", Str(isbn))];
    ResolveTo(env, WithIsbn(isbn, m), kept, "isbn", isbn, "https://www.worldcat.org/isbn/");
  }

  /** One author with a forename and a surname. */
  function Author(forename: string, surname: string): Value
  {
    Dict([("forename", Str(forename)), ("surname", Str(surname))])
  }

  /** A record with a string title and source, an integer year and one author. */
  function Described(title: string, year: int, source: string, forename: string, surname: string): Meta
  {
    Meta(Str(title), Int(year), Str(source), List([Author(forename, surname)]))
  }

  /** The parts of the Google Scholar query for such a record. */
  function DescribedParts(title: string, year: int, source: string, forename: string, surname: string): seq<(string, string)>
  {
    [("as_q", title), ("as_sauthors", "\"" + forename + " " + surname + "\""), ("as_publication", source),
     ("as_ylo", Text.IntToString(year)), ("as_yhi", Text.IntToString(year))]
  }

  lemma AuthorQuoted(env: Env, forename: string, surname: string)
    requires forename != "" && surname != ""
    ensures AuthorTerm(env, Author(forename, surname)) == Ok(Some("\"" + forename + " " + surname + "\""))
  {
    var e := [("forename", Str(forename)), ("surname", Str(surname))];
    GetAt(e, 0);
    GetAt(e, 1);
    assert Keys(e) == ["forename", "surname"];
  }

  lemma OneAuthor(env: Env, author: Value, term: string)
    requires AuthorTerm(env, author) == Ok(Some(term))
    ensures AuthorsParts(env, List([author])) == Ok([("as_sauthors", term)])
  {
    assert [author][1..] == [];
    assert AuthorParts(env, [author][1..]) == Ok([]);
    assert [("as_sauthors", term)] + [] == [("as_sauthors", term)];
    assert AuthorParts(env, [author]) == Ok([("as_sauthors", term)]);
    assert Truthy(List([author]));
  }

  lemma Five<T>(a: T, b: T, c: T, d: T, e: T)
    ensures [a] + [b] + [c] + [d] + [e] == [a, b, c, d, e]
  {
  }

  /** The single parts of a record's title, source and year. */
  lemma SingleParts(env: Env, m: Meta)
    requires m.title.Str? && m.source.Str? && m.year.Int?
    requires m.title.s != "" && m.source.s != "" && m.year.i != 0
    ensures Part("as_q", DictGet(Fields(m), "title"), env.formatReal) == [("as_q", m.title.s)]
    ensures Part("as_publication", DictGet(Fields(m), "source"), env.formatReal) == [("as_publication", m.source.s)]
    ensures Part("as_ylo", DictGet(Fields(m), "year"), env.formatReal) == [("as_ylo", Text.IntToString(m.year.i))]
    ensures Part("as_yhi", DictGet(Fields(m), "year"), env.formatReal) == [("as_yhi", Text.IntToString(m.year.i))]
    ensures DictGet(Fields(m), "authors") == m.authors
  {
    assert DictGet(Fields(m), "title") == m.title by { FieldsGet(m, "title"); }
    assert DictGet(Fields(m), "source") == m.source by { FieldsGet(m, "source"); }
    assert DictGet(Fields(m), "year") == m.year by { FieldsGet(m, "year"); }
    assert DictGet(Fields(m), "authors") == m.authors by { FieldsGet(m, "authors"); }
    StrPart("as_q", m.title, env.formatReal);
    StrPart("as_publication", m.source, env.formatReal);
    IntPart("as_ylo", m.year, env.formatReal);
    IntPart("as_yhi", m.year, env.formatReal);
  }

  lemma StrPart(key: string, v: Value, fmt: real -> string)
    requires v.Str? && v.s != ""
    ensures Part(key, v, fmt) == [(key, v.s)]
  {
  }

  lemma IntPart(key: string, v: Value, fmt: real -> string)
    requires v.Int? && v.i != 0
    ensures Part(key, v, fmt) == [(key, Text.IntToString(v.i))]
  {
  }

  /** The query of a described record: title, quoted author, source and
      the year twice. */
  lemma DescribedQuery(env: Env, title: string, year: int, source: string, forename: string, surname: string)
    requires title != "" && year != 0 && source != "" && forename != "" && surname != ""
    ensures QueryParts(env, Fields(Described(title, year, source, forename, surname))) ==
              Ok(DescribedParts(title, year, source, forename, surname))
  {
    var m := Described(title, year, source, forename, surname);
    var data := Fields(m);
    SingleParts(env, m);
    AuthorQuoted(env, forename, surname);
    OneAuthor(env, Author(forename, surname), "\"" + forename + " " + surname + "\"");
    ExtractedReferences.QueryPartsOf(env, data, [("as_sauthors", "\"" + forename + " " + surname + "\"")]);
    Five(("as_q", title), ("as_sauthors", "\"" + forename + " " + surname + "\""), ("as_publication", source),
         ("as_ylo", Text.IntToString(year)), ("as_yhi", Text.IntToString(year)));
  }

  lemma MetaRecord(m: Meta)
    ensures DictGet(Fields(m), "identifiers") == Null
    ensures Seeds(Fields(m)) == [("doi", Null), ("title", m.title)]
  {
    FieldsGet(m, "identifiers");
    FieldsGet(m, "doi");
    FieldsGet(m, "title");
  }

  lemma DescribedIdentifiers(m: Meta)
    requires Truthy(m.title)
    ensures GetIdentifiers(Fields(m)) == Ok([("title", m.title)])
  {
    MetaRecord(m);
    var seeds := [("doi", Null), ("title", m.title)];
    assert !Truthy(DictGet(Fields(m), "identifiers"));
    assert KeepTruthy(seeds) == KeepTruthy(seeds[1..]);
    KeepAllTruthy(seeds[1..]);
  }

  /** With no identifier but a title, the answer is a Google Scholar
      search on the title, author, source and year. */
  lemma ResolveWithMeta(env: Env, title: string, year: int, source: string, forename: string, surname: string)
    requires title != "" && year != 0 && source != "" && forename != "" && surname != ""
    ensures Resolve(env, Ok(Response(Fields(Described(title, year, source, forename, surname)), StatusOk))) ==
              Ok(Response(Redirect("https://scholar.google.com/scholar?" +
                                   env.urlencode(DescribedParts(title, year, source, forename, surname))), StatusSeeOther))
  {
    var m := Described(title, year, source, forename, surname);
    DescribedQuery(env, title, year, source, forename, surname);
    DescribedIdentifiers(m);
    ResolveToSearch(env, Fields(m), [("title", m.title)], DescribedParts(title, year, source, forename, surname));
  }
}
