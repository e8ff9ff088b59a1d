/** The refextract adapter: a refextract record (every value a list) becomes
    a `Reference` of type `citation`, taking the first element of each mapped
    list, and each author string becomes an author with only its full name. */
module Refextract {
  import opened Base
  import opened Tables
  import opened Json
  import opened Externals
  import opened Domain

  /** The keywords `transform` starts from. */
  const Start: Table<Value> := [("reftype", Str("citation"))]

  /** Only `reftype` is set at the start. */
  lemma StartGet(k: string)
    ensures Get(Start, k) == if k == "reftype" then Some(Str("citation")) else None
    ensures Keys(Start) == ["reftype"]
  {
  }

  /** `FIELD_MAPPINGS`: refextract's key and the reference field it fills. */
  const FieldMappings: seq<(string, Field)> :=
    [("doi", Doi), ("journal_page", Pages), ("raw_ref", Raw), ("journal_title", Source),
     ("journal_volume", Volume), ("journal_issue", Issue), ("title", Title), ("year", Year)]

  /** `value[0]`: the first item of a list, the first character of a
      string; a dict has no key `0` and nothing else is subscriptable. */
  function Subscript0(v: Value): (r: Result<Value>)
    ensures v.List? && |v.items| > 0 ==> r == Ok(v.items[0])
    ensures v.Str? && |v.s| > 0 ==> r == Ok(Str([v.s[0]]))
    ensures r.Ok? <==> (v.List? && |v.items| > 0) || (v.Str? && |v.s| > 0)
  {
    match v
    case List(items) => if |items| > 0 then Ok(items[0]) else Err(IndexError)
    case Str(s) => if |s| > 0 then Ok(Str([s[0]])) else Err(IndexError)
    case Dict(_) => Err(KeyError("0"))
    case _ => Err(TypeError)
  }

  /** One step of the mapping loop: a truthy input value sets the field to
      its first element, a falsy one leaves the keywords alone. */
  function MapOne(input: Table<Value>, mapping: (string, Field), metadatum: Table<Value>): (r: Result<Table<Value>>)
    ensures var v := DictGet(input, mapping.0);
            && (r.Ok? <==> (Truthy(v) ==> Subscript0(v).Ok?))
            && (r.Ok? && Truthy(v) ==> r.value == Set(metadatum, Name(mapping.1), Subscript0(v).value))
            && (!Truthy(v) ==> r == Ok(metadatum))
  {
    var value := DictGet(input, mapping.0);
    if Truthy(value) then
      match Subscript0(value)
      case Err(e) => Err(e)
      case Ok(first) => Ok(Set(metadatum, Name(mapping.1), first))
    else Ok(metadatum)
  }

  /** After a successful step, the step's field holds the first element of
      a truthy value and every other key is as before. */
  lemma MapOneGet(input: Table<Value>, mapping: (string, Field), metadatum: Table<Value>, k: string)
    requires MapOne(input, mapping, metadatum).Ok?
    ensures var v := DictGet(input, mapping.0);
            Get(MapOne(input, mapping, metadatum).value, k) ==
              if Truthy(v) && k == Name(mapping.1) then Some(Subscript0(v).value) else Get(metadatum, k)
  {
    var v := DictGet(input, mapping.0);
    if Truthy(v) && k != Name(mapping.1) {
      SetOther(metadatum, Name(mapping.1), Subscript0(v).value, k);
    }
  }

  /** The mapping loop from mapping `i` on; the first value that cannot be
      subscripted raises. */
  function MappedFrom(input: Table<Value>, mappings: seq<(string, Field)>, i: nat, metadatum: Table<Value>): (r: Result<Table<Value>>)
    decreases |mappings| - i
  {
    if i >= |mappings| then Ok(metadatum)
    else
      match MapOne(input, mappings[i], metadatum)
      case Err(e) => Err(e)
      case Ok(next) => MappedFrom(input, mappings, i + 1, next)
  }

  /** The mapping loop over `FIELD_MAPPINGS`. */
  function Mapped(input: Table<Value>, mappings: seq<(string, Field)>, metadatum: Table<Value>): (r: Result<Table<Value>>)
  {
    MappedFrom(input, mappings, 0, metadatum)
  }

  /** The loop fails exactly when some truthy input value cannot be
      subscripted. */
  lemma {:induction false} MappedSucceeds(input: Table<Value>, mappings: seq<(string, Field)>, i: nat, metadatum: Table<Value>)
    ensures MappedFrom(input, mappings, i, metadatum).Ok? <==>
              forall l :: i <= l < |mappings| && Truthy(DictGet(input, mappings[l].0)) ==>
                            Subscript0(DictGet(input, mappings[l].0)).Ok?
    decreases |mappings| - i
  {
    if i < |mappings| {
      var step := MapOne(input, mappings[i], metadatum);
      if step.Ok? {
        MappedSucceeds(input, mappings, i + 1, step.value);
      }
    }
  }

  /** The loop only adds the keys its mappings fill. */
  lemma {:induction false} MappedKeys(input: Table<Value>, mappings: seq<(string, Field)>, i: nat, metadatum: Table<Value>, k: string)
    requires MappedFrom(input, mappings, i, metadatum).Ok?
    requires k in Keys(MappedFrom(input, mappings, i, metadatum).value)
    ensures k in Keys(metadatum) || exists l :: i <= l < |mappings| && Name(mappings[l].1) == k
    decreases |mappings| - i
  {
    if i < |mappings| {
      var next := MapOne(input, mappings[i], metadatum).value;
      MappedKeys(input, mappings, i + 1, next, k);
    }
  }

  /** The field a mapping fills holds the first element of its truthy input
      list, and keeps its earlier value otherwise. */
  lemma {:induction false} MappedAt(input: Table<Value>, mappings: seq<(string, Field)>, i: nat, metadatum: Table<Value>, j: nat)
    requires MappedFrom(input, mappings, i, metadatum).Ok?
    requires i <= j < |mappings|
    requires forall l :: i <= l < |mappings| && l != j ==> mappings[l].1 != mappings[j].1
    ensures var v := DictGet(input, mappings[j].0);
            && (Truthy(v) ==> Subscript0(v).Ok?)
            && Get(MappedFrom(input, mappings, i, metadatum).value, Name(mappings[j].1)) ==
                 if Truthy(v) then Some(Subscript0(v).value) else Get(metadatum, Name(mappings[j].1))
    decreases |mappings| - i
  {
    var next := MapOne(input, mappings[i], metadatum).value;
    if j == i {
      forall l | i + 1 <= l < |mappings| ensures Name(mappings[l].1) != Name(mappings[i].1) {
        NameDiffers(mappings[l].1, mappings[i].1);
      }
      MappedElsewhere(input, mappings, i + 1, next, Name(mappings[i].1));
      MapOneGet(input, mappings[i], metadatum, Name(mappings[i].1));
    } else {
      MappedAt(input, mappings, i + 1, next, j);
      NameDiffers(mappings[i].1, mappings[j].1);
      MapOneGet(input, mappings[i], metadatum, Name(mappings[j].1));
    }
  }

  /** A key that no mapping targets keeps its earlier value. */
  lemma {:induction false} MappedElsewhere(input: Table<Value>, mappings: seq<(string, Field)>, i: nat, metadatum: Table<Value>, k: string)
    requires MappedFrom(input, mappings, i, metadatum).Ok?
    requires forall l :: i <= l < |mappings| ==> Name(mappings[l].1) != k
    ensures Get(MappedFrom(input, mappings, i, metadatum).value, k) == Get(metadatum, k)
    decreases |mappings| - i
  {
    if i < |mappings| {
      var next := MapOne(input, mappings[i], metadatum).value;
      MappedElsewhere(input, mappings, i + 1, next, k);
      MapOneGet(input, mappings[i], metadatum, k);
    }
  }

  lemma NameDiffers(f: Field, g: Field)
    requires f != g
    ensures Name(f) != Name(g)
  {
    FieldNamedName(f);
    FieldNamedName(g);
  }

  /** `Author(fullname=author)`: every other name part is empty. The
      dataclass does not check types, so the full name is whatever the
      input held. */
  function FullnameAuthor(author: Value): (v: Value)
    ensures author.Str? ==> v == AuthorValue(Author("", "", "", "", author.s))
  {
    Obj("Author", [("surname", Str("")), ("givennames", Str("")), ("prefix", Str("")),
                   ("suffix", Str("")), ("fullname", author)])
  }

  /** `[Author(fullname=author) for author in authors]`: item `i` is the
      `i`-th author holding only its full name. */
  function FullnameAuthors(authors: seq<Value>): (r: seq<Value>)
    ensures |r| == |authors| && forall i :: 0 <= i < |authors| ==> r[i] == FullnameAuthor(authors[i])
  {
    seq(|authors|, i requires 0 <= i < |authors| => FullnameAuthor(authors[i]))
  }

  /** The keyword arguments `transform` hands to `Reference`: the mapped
      fields over `reftype='citation'`, then the identifiers, then the
      authors. */
  function Keywords(input: Table<Value>, mappings: seq<(string, Field)>): (r: Result<Table<Value>>)
  {
    match Mapped(input, mappings, Start)
    case Err(e) => Err(e)
    case Ok(metadatum) =>
      match WithIdentifiers(input, metadatum)
      case Err(e) => Err(e)
      case Ok(m) => WithAuthors(input, m)
  }

  /** The identifiers step: with an `identifiers` input key it reads
      `identifiers` back from the keywords built so far and makes each entry
      an `Identifier`. */
  function WithIdentifiers(input: Table<Value>, metadatum: Table<Value>): (r: Result<Table<Value>>)
    ensures !HasKey(input, "identifiers") ==> r == Ok(metadatum)
    ensures HasKey(input, "identifiers") && !HasKey(metadatum, "identifiers") ==> r == Err(KeyError("identifiers"))
  {
    if HasKey(input, "identifiers") then
      match Get(metadatum, "identifiers")
      case None => Err(KeyError("identifiers"))
      case Some(raw) =>
        (match Iterate(raw)
         case Err(e) => Err(e)
         case Ok(items) =>
           (match IdentifierObjects(items)
            case Err(e) => Err(e)
            case Ok(ids) => Ok(Set(metadatum, "identifiers", List(ids)))))
    else Ok(metadatum)
  }

  /** `[Identifier(**ident) for ident in items]`: the first entry that is
      not a valid identifier mapping raises. */
  function IdentifierObjects(items: seq<Value>): (r: Result<seq<Value>>)
    ensures r.Ok? ==> |r.value| == |items|
  {
    if |items| == 0 then Ok([])
    else
      match IdentifierObject(items[0])
      case Err(e) => Err(e)
      case Ok(first) =>
        match IdentifierObjects(items[1..])
        case Err(e) => Err(e)
        case Ok(rest) => Ok([first] + rest)
  }

  /** The authors step: each item of an `author` input value becomes an
      author with only its full name. */
  function WithAuthors(input: Table<Value>, m: Table<Value>): (r: Result<Table<Value>>)
    ensures HasKey(input, "author") ==>
              (r.Ok? <==> Iterate(DictGet(input, "author")).Ok?) &&
              (r.Ok? ==> r.value == Set(m, "authors", List(FullnameAuthors(Iterate(DictGet(input, "author")).value))))
    ensures !HasKey(input, "author") ==> r == Ok(m)
  {
    if HasKey(input, "author") then
      match Iterate(DictGet(input, "author"))
      case Err(e) => Err(e)
      case Ok(authors) => Ok(Set(m, "authors", List(FullnameAuthors(authors))))
    else Ok(m)
  }

  /** `Identifier(**ident)` for one entry: it must be a mapping. */
  function IdentifierObject(ident: Value): (r: Result<Value>)
    ensures !ident.Dict? ==> r == Err(TypeError)
    ensures ident.Dict? ==> r.Ok? == IdentifierFromKeywords(ident.entries).Ok?
  {
    match ident
    case Dict(kwargs) =>
      (match IdentifierFromKeywords(kwargs)
       case Err(e) => Err(e)
       case Ok(i) => Ok(IdentifierValue(i)))
    case _ => Err(TypeError)
  }

  /** `transform` with the mappings as a parameter. */
  function TransformWith(env: Env, input: Table<Value>, mappings: seq<(string, Field)>): (r: Result<Reference>)
  {
    match Keywords(input, mappings)
    case Err(e) => Err(e)
    case Ok(kwargs) => NewReference(env, kwargs)
  }

  /** `transform`. */
  function Transform(env: Env, input: Table<Value>): (r: Result<Reference>)
  {
    TransformWith(env, input, FieldMappings)
  }

  // ---------------------------------------------------------------------
  // Properties, for any mappings into distinct fields other than reftype,
  // authors, identifiers and identifier (which the reference derives from
  // raw)

  /** No mapping from `i` on fills `f`. */
  predicate UnfilledFrom(f: Field, mappings: seq<(string, Field)>, i: nat)
    decreases |mappings| - i
  {
    i >= |mappings| || (mappings[i].1 != f && UnfilledFrom(f, mappings, i + 1))
  }

  /** The mappings from `i` on fill distinct fields, none of them reftype,
      authors, identifiers or identifier. */
  predicate SoundFrom(mappings: seq<(string, Field)>, i: nat)
    decreases |mappings| - i
  {
    i >= |mappings| ||
    (mappings[i].1 !in {Reftype, Authors, Identifiers, IdentifierField}
     && UnfilledFrom(mappings[i].1, mappings, i + 1) && SoundFrom(mappings, i + 1))
  }

  predicate Sound(mappings: seq<(string, Field)>)
  {
    SoundFrom(mappings, 0)
  }

  lemma {:induction false} UnfilledAll(f: Field, mappings: seq<(string, Field)>, i: nat)
    requires UnfilledFrom(f, mappings, i)
    ensures forall l :: i <= l < |mappings| ==> mappings[l].1 != f
    decreases |mappings| - i
  {
    if i < |mappings| {
      UnfilledAll(f, mappings, i + 1);
    }
  }

  lemma {:induction false} SoundFromAt(mappings: seq<(string, Field)>, i: nat, j: nat)
    requires SoundFrom(mappings, i) && i <= j < |mappings|
    ensures mappings[j].1 !in {Reftype, Authors, Identifiers, IdentifierField}
    ensures forall l :: i <= l < |mappings| && l != j ==> mappings[l].1 != mappings[j].1
    decreases |mappings| - i
  {
    UnfilledAll(mappings[i].1, mappings, i + 1);
    if j > i {
      SoundFromAt(mappings, i + 1, j);
    }
  }

  /** What `Sound` says about one mapping: its field is none of the four,
      and no other mapping fills it. */
  lemma SoundAt(mappings: seq<(string, Field)>, j: nat)
    requires Sound(mappings) && j < |mappings|
    ensures mappings[j].1 !in {Reftype, Authors, Identifiers, IdentifierField}
    ensures forall i :: 0 <= i < |mappings| && i != j ==> mappings[i].1 != mappings[j].1
  {
    SoundFromAt(mappings, 0, j);
  }

  /** No mapping fills a field `Sound` excludes. */
  lemma SoundExcludes(mappings: seq<(string, Field)>, f: Field)
    requires Sound(mappings) && f in {Reftype, Authors, Identifiers, IdentifierField}
    ensures forall i :: 0 <= i < |mappings| ==> mappings[i].1 != f
  {
    forall i | 0 <= i < |mappings| ensures mappings[i].1 != f {
      SoundAt(mappings, i);
    }
  }

  /** `FIELD_MAPPINGS` fills distinct fields, none of them reftype, authors,
      identifiers or identifier, and `raw_ref` is the only key that fills
      `raw`. */
  lemma MappingTargets()
    ensures Sound(FieldMappings)
    ensures FieldMappings[2] == ("raw_ref", Raw)
  {
    assert SoundFrom(FieldMappings, 7);
    assert SoundFrom(FieldMappings, 6);
    assert SoundFrom(FieldMappings, 5);
    assert SoundFrom(FieldMappings, 4);
    assert SoundFrom(FieldMappings, 3);
    assert SoundFrom(FieldMappings, 2);
    assert SoundFrom(FieldMappings, 1);
  }

  /** A field no mapping fills is absent from the mapped keywords, apart
      from `reftype`. */
  lemma MappedUntouched(input: Table<Value>, mappings: seq<(string, Field)>, f: Field)
    requires Sound(mappings) && Mapped(input, mappings, Start).Ok?
    requires f in {Reftype, Authors, Identifiers}
    ensures Get(Mapped(input, mappings, Start).value, Name(f)) == if f == Reftype then Some(Str("citation")) else None
  {
    StartGet(Name(f));
    SoundExcludes(mappings, f);
    forall i | 0 <= i < |mappings| ensures Name(mappings[i].1) != Name(f) {
      NameDiffers(mappings[i].1, f);
    }
    MappedElsewhere(input, mappings, 0, Start, Name(f));
  }

  /** The mapped keywords never hold `identifiers`. */
  lemma MappedNoIdentifiers(input: Table<Value>, mappings: seq<(string, Field)>)
    requires Sound(mappings) && Mapped(input, mappings, Start).Ok?
    ensures !HasKey(Mapped(input, mappings, Start).value, "identifiers")
  {
    MappedUntouched(input, mappings, Identifiers);
  }

  /** The keywords built so far never hold `identifiers`, so an input with
      an `identifiers` key raises KeyError once its lists are mapped. */
  lemma KeywordsRaise(input: Table<Value>, mappings: seq<(string, Field)>)
    requires Sound(mappings) && Mapped(input, mappings, Start).Ok?
    requires HasKey(input, "identifiers")
    ensures Keywords(input, mappings) == Err(KeyError("identifiers"))
  {
    MappedNoIdentifiers(input, mappings);
  }

  lemma IdentifiersRaiseWith(env: Env, input: Table<Value>, mappings: seq<(string, Field)>)
    requires Sound(mappings) && Mapped(input, mappings, Start).Ok?
    requires HasKey(input, "identifiers")
    ensures TransformWith(env, input, mappings) == Err(KeyError("identifiers"))
  {
    KeywordsRaise(input, mappings);
  }

  lemma NameIsField(f: Field)
    ensures IsReferenceField(Name(f))
  {
    FieldNamedName(f);
  }

  /** A key of the mapped keywords is `reftype` or a mapping target, and so
      names a reference field. */
  lemma KeywordIsField(mappings: seq<(string, Field)>, k: string)
    requires k in Keys(Start) || exists l :: 0 <= l < |mappings| && Name(mappings[l].1) == k
    ensures IsReferenceField(k)
  {
    if k in Keys(Start) {
      StartGet(k);
      NameIsField(Reftype);
    } else {
      var l :| 0 <= l < |mappings| && Name(mappings[l].1) == k;
      NameIsField(mappings[l].1);
    }
  }

  /** Without an `identifiers` key, the keywords are the mapped fields and,
      when the input has an `author` key, the authors. */
  lemma KeywordsShape(input: Table<Value>, mappings: seq<(string, Field)>)
    requires !HasKey(input, "identifiers") && Mapped(input, mappings, Start).Ok?
    ensures Keywords(input, mappings) == WithAuthors(input, Mapped(input, mappings, Start).value)
  {
    var m := Mapped(input, mappings, Start).value;
    assert WithIdentifiers(input, m) == Ok(m);
  }

  /** Every keyword names a reference field. */
  lemma KeywordsAreFields(input: Table<Value>, mappings: seq<(string, Field)>)
    requires !HasKey(input, "identifiers") && Keywords(input, mappings).Ok?
    ensures forall k :: k in Keys(Keywords(input, mappings).value) ==> IsReferenceField(k)
  {
    var m := Mapped(input, mappings, Start).value;
    KeywordsShape(input, mappings);
    forall k | k in Keys(Keywords(input, mappings).value) ensures IsReferenceField(k) {
      if k != "authors" {
        assert k in Keys(m);
        MappedKeys(input, mappings, 0, Start, k);
        KeywordIsField(mappings, k);
      } else {
        NameLiterals();
        NameIsField(Authors);
      }
    }
  }

  /** What each keyword holds: the authors under `authors` when the input
      has an `author` key, the mapped value otherwise. */
  lemma KeywordGet(input: Table<Value>, mappings: seq<(string, Field)>, k: string)
    requires !HasKey(input, "identifiers") && Keywords(input, mappings).Ok?
    ensures Get(Keywords(input, mappings).value, k) ==
              if HasKey(input, "author") && k == "authors"
              then Some(List(FullnameAuthors(Iterate(DictGet(input, "author")).value)))
              else Get(Mapped(input, mappings, Start).value, k)
  {
    var m := Mapped(input, mappings, Start).value;
    KeywordsShape(input, mappings);
    if HasKey(input, "author") && k != "authors" {
      SetOther(m, "authors", List(FullnameAuthors(Iterate(DictGet(input, "author")).value)), k);
    }
  }

  /** `transform` succeeds exactly when the mapped lists can be subscripted,
      there is no `identifiers` key, an `author` value is iterable and the
      `raw` keyword is a string. */
  lemma TransformSucceedsWith(env: Env, input: Table<Value>, mappings: seq<(string, Field)>)
    requires Sound(mappings)
    ensures TransformWith(env, input, mappings).Ok? <==>
              && Mapped(input, mappings, Start).Ok?
              && !HasKey(input, "identifiers")
              && (HasKey(input, "author") ==> Iterate(DictGet(input, "author")).Ok?)
              && Keyword(Mapped(input, mappings, Start).value, Raw).Str?
  {
    var mapped := Mapped(input, mappings, Start);
    if mapped.Ok? && HasKey(input, "identifiers") {
      IdentifiersRaiseWith(env, input, mappings);
    }
    if mapped.Ok? && !HasKey(input, "identifiers") {
      TransformSucceedsMapped(env, input, mappings);
    }
  }

  /** Once the mapping succeeded and there is no `identifiers` key,
      `transform` succeeds exactly when an `author` value is iterable and
      the `raw` keyword is a string. */
  lemma TransformSucceedsMapped(env: Env, input: Table<Value>, mappings: seq<(string, Field)>)
    requires Sound(mappings) && Mapped(input, mappings, Start).Ok? && !HasKey(input, "identifiers")
    ensures TransformWith(env, input, mappings).Ok? <==>
              && (HasKey(input, "author") ==> Iterate(DictGet(input, "author")).Ok?)
              && Keyword(Mapped(input, mappings, Start).value, Raw).Str?
  {
    KeywordsShape(input, mappings);
    if Keywords(input, mappings).Ok? {
      var kwargs := Keywords(input, mappings).value;
      KeywordsAreFields(input, mappings);
      FieldKeysAll(Keys(kwargs));
      KeywordGet(input, mappings, Name(Raw));
      assert Keyword(kwargs, Raw) == Keyword(Mapped(input, mappings, Start).value, Raw);
    }
  }

  /** A successful `transform` had no `identifiers` key. */
  lemma TransformKeywords(env: Env, input: Table<Value>, mappings: seq<(string, Field)>)
    requires Sound(mappings) && TransformWith(env, input, mappings).Ok?
    ensures !HasKey(input, "identifiers") && Keywords(input, mappings).Ok?
  {
    if HasKey(input, "identifiers") {
      IdentifiersRaiseWith(env, input, mappings);
    }
  }

  /** The same for the reference `transform` builds from keywords `kwargs`. */
  lemma BuiltField(env: Env, input: Table<Value>, mappings: seq<(string, Field)>, kwargs: Table<Value>, f: Field, o: Option<Value>)
    requires TransformWith(env, input, mappings).Ok? && Keywords(input, mappings) == Ok(kwargs)
    requires f != IdentifierField && Get(kwargs, Name(f)) == o
    ensures FieldValue(TransformWith(env, input, mappings).value, f) == if o.Some? then o.value else DefaultFor(f)
  {
    NewReferenceField(env, kwargs, f, o);
  }

  lemma TransformReftypeWith(env: Env, input: Table<Value>, mappings: seq<(string, Field)>)
    requires Sound(mappings) && TransformWith(env, input, mappings).Ok?
    ensures TransformWith(env, input, mappings).value.reftype == Str("citation")
  {
    NameLiterals();
    TransformKeywords(env, input, mappings);
    KeywordsReftype(input, mappings);
    BuiltField(env, input, mappings, Keywords(input, mappings).value, Reftype, Get(Start, Name(Reftype)));
    StartGet(Name(Reftype));
  }

  lemma TransformFieldWith(env: Env, input: Table<Value>, mappings: seq<(string, Field)>, j: nat)
    requires Sound(mappings) && TransformWith(env, input, mappings).Ok?
    requires j < |mappings|
    ensures var v := DictGet(input, mappings[j].0);
            && (Truthy(v) ==> Subscript0(v).Ok?)
            && FieldValue(TransformWith(env, input, mappings).value, mappings[j].1) ==
                 if Truthy(v) then Subscript0(v).value else DefaultFor(mappings[j].1)
  {
    TransformKeywords(env, input, mappings);
    var kwargs := Keywords(input, mappings).value;
    var v := DictGet(input, mappings[j].0);
    KeywordsField(input, mappings, j);
    var o := if Truthy(v) then Some(Subscript0(v).value) else None;
    assert mappings[j].1 != IdentifierField by {
      SoundAt(mappings, j);
    }
    BuiltField(env, input, mappings, kwargs, mappings[j].1, o);
  }

  lemma TransformAuthorsWith(env: Env, input: Table<Value>, mappings: seq<(string, Field)>)
    requires Sound(mappings) && TransformWith(env, input, mappings).Ok?
    ensures TransformWith(env, input, mappings).value.authors ==
              if HasKey(input, "author") then List(FullnameAuthors(Iterate(DictGet(input, "author")).value))
              else List([])
  {
    NameLiterals();
    TransformKeywords(env, input, mappings);
    var kwargs := Keywords(input, mappings).value;
    KeywordsAuthors(input, mappings);
    if HasKey(input, "author") {
      BuiltField(env, input, mappings, kwargs, Authors, Some(List(FullnameAuthors(Iterate(DictGet(input, "author")).value))));
    } else {
      BuiltField(env, input, mappings, kwargs, Authors, None);
    }
  }

  /** The keywords always set `reftype` to `citation`. */
  lemma KeywordsReftype(input: Table<Value>, mappings: seq<(string, Field)>)
    requires Sound(mappings) && !HasKey(input, "identifiers") && Keywords(input, mappings).Ok?
    ensures Get(Keywords(input, mappings).value, Name(Reftype)) == Get(Start, Name(Reftype))
  {
    KeywordGet(input, mappings, Name(Reftype));
    SoundExcludes(mappings, Reftype);
    MappedElsewhere(input, mappings, 0, Start, Name(Reftype));
  }

  /** A mapped field holds the first element of its truthy input value, and
      is absent otherwise. */
  lemma MappedField(input: Table<Value>, mappings: seq<(string, Field)>, j: nat)
    requires Sound(mappings) && Mapped(input, mappings, Start).Ok?
    requires j < |mappings|
    ensures var v := DictGet(input, mappings[j].0);
            && (Truthy(v) ==> Subscript0(v).Ok?)
            && Get(Mapped(input, mappings, Start).value, Name(mappings[j].1)) ==
                 if Truthy(v) then Some(Subscript0(v).value) else None
  {
    SoundAt(mappings, j);
    MappedAt(input, mappings, 0, Start, j);
    NameDiffers(mappings[j].1, Reftype);
    StartGet(Name(mappings[j].1));
  }

  /** A mapped field's keyword is the first element of its truthy input
      value, and absent otherwise. */
  lemma KeywordsField(input: Table<Value>, mappings: seq<(string, Field)>, j: nat)
    requires Sound(mappings) && !HasKey(input, "identifiers") && Keywords(input, mappings).Ok?
    requires j < |mappings|
    ensures var v := DictGet(input, mappings[j].0);
            && (Truthy(v) ==> Subscript0(v).Ok?)
            && Get(Keywords(input, mappings).value, Name(mappings[j].1)) ==
                 if Truthy(v) then Some(Subscript0(v).value) else None
  {
    SoundAt(mappings, j);
    KeywordGet(input, mappings, Name(mappings[j].1));
    NameDiffers(mappings[j].1, Authors);
    MappedField(input, mappings, j);
  }

  /** The `authors` keyword holds the converted `author` items when the
      input has that key, and is absent otherwise. */
  lemma KeywordsAuthors(input: Table<Value>, mappings: seq<(string, Field)>)
    requires Sound(mappings) && !HasKey(input, "identifiers") && Keywords(input, mappings).Ok?
    ensures Get(Keywords(input, mappings).value, "authors") ==
              if HasKey(input, "author") then Some(List(FullnameAuthors(Iterate(DictGet(input, "author")).value)))
              else None
  {
    KeywordGet(input, mappings, "authors");
    MappedUntouched(input, mappings, Authors);
  }

  // ---------------------------------------------------------------------
  // The same properties for `FIELD_MAPPINGS`

  /** An input with an `identifiers` key always raises KeyError once its
      lists are mapped: `transform` reads `identifiers` from the keywords it
      is building, where it was never set. */
  lemma IdentifiersRaise(env: Env, input: Table<Value>)
    requires Mapped(input, FieldMappings, Start).Ok?
    requires HasKey(input, "identifiers")
    ensures Transform(env, input) == Err(KeyError("identifiers"))
  {
    MappingTargets();
    IdentifiersRaiseWith(env, input, FieldMappings);
  }

  /** The `raw` keyword is the first `raw_ref` element when that list is
      truthy, and the empty default otherwise. */
  lemma MappedRaw(input: Table<Value>)
    requires Mapped(input, FieldMappings, Start).Ok?
    ensures var v := DictGet(input, "raw_ref");
            && (Truthy(v) ==> Subscript0(v).Ok?)
            && Keyword(Mapped(input, FieldMappings, Start).value, Raw) == if Truthy(v) then Subscript0(v).value else Str("")
  {
    MappingTargets();
    MappedField(input, FieldMappings, 2);
  }

  /** `transform` succeeds exactly when every truthy mapped value can be
      subscripted, there is no `identifiers` key, an `author` value is
      iterable, and the first `raw_ref` element (if any) is a string. */
  lemma TransformSucceeds(env: Env, input: Table<Value>)
    ensures Transform(env, input).Ok? <==>
              && (forall i :: 0 <= i < |FieldMappings| && Truthy(DictGet(input, FieldMappings[i].0)) ==>
                                Subscript0(DictGet(input, FieldMappings[i].0)).Ok?)
              && !HasKey(input, "identifiers")
              && (HasKey(input, "author") ==> Iterate(DictGet(input, "author")).Ok?)
              && (Truthy(DictGet(input, "raw_ref")) ==> Subscript0(DictGet(input, "raw_ref")).Ok? && Subscript0(DictGet(input, "raw_ref")).value.Str?)
  {
    MappingTargets();
    MappedSucceeds(input, FieldMappings, 0, Start);
    TransformSucceedsWith(env, input, FieldMappings);
    if Mapped(input, FieldMappings, Start).Ok? {
      MappedRaw(input);
    }
  }

  /** The reference type is always `citation`. */
  lemma TransformReftype(env: Env, input: Table<Value>)
    requires Transform(env, input).Ok?
    ensures Transform(env, input).value.reftype == Str("citation")
  {
    MappingTargets();
    TransformReftypeWith(env, input, FieldMappings);
  }

  /** Each mapped field holds the first element of its truthy input list,
      and its default otherwise. */
  lemma TransformField(env: Env, input: Table<Value>, j: nat)
    requires Transform(env, input).Ok?
    requires j < |FieldMappings|
    ensures var v := DictGet(input, FieldMappings[j].0);
            && (Truthy(v) ==> Subscript0(v).Ok?)
            && FieldValue(Transform(env, input).value, FieldMappings[j].1) ==
                 if Truthy(v) then Subscript0(v).value else DefaultFor(FieldMappings[j].1)
  {
    MappingTargets();
    TransformFieldWith(env, input, FieldMappings, j);
  }

  /** With an `author` key, each author string becomes an author holding
      only its full name, in order; without one the reference has none. */
  lemma TransformAuthors(env: Env, input: Table<Value>)
    requires Transform(env, input).Ok?
    ensures Transform(env, input).value.authors ==
              if HasKey(input, "author") then List(FullnameAuthors(Iterate(DictGet(input, "author")).value))
              else List([])
  {
    MappingTargets();
    TransformAuthorsWith(env, input, FieldMappings);
  }

  // ---------------------------------------------------------------------
  // The identifiers step as evidently intended

  /** The identifiers step reading the refextract record itself rather than
      the keywords built so far: each of its entries becomes an
      `Identifier`, and the first entry that is not one raises. */
  function IntendedWithIdentifiers(input: Table<Value>, metadatum: Table<Value>): (r: Result<Table<Value>>)
    ensures !HasKey(input, "identifiers") ==> r == Ok(metadatum)
    ensures r.Ok? && HasKey(input, "identifiers") ==>
              && Iterate(DictGet(input, "identifiers")).Ok?
              && IdentifierObjects(Iterate(DictGet(input, "identifiers")).value).Ok?
              && Get(r.value, "identifiers") == Some(List(IdentifierObjects(Iterate(DictGet(input, "identifiers")).value).value))
  {
    if HasKey(input, "identifiers") then
      match Iterate(DictGet(input, "identifiers"))
      case Err(e) => Err(e)
      case Ok(items) =>
        match IdentifierObjects(items)
        case Err(e) => Err(e)
        case Ok(ids) => Ok(Set(metadatum, "identifiers", List(ids)))
    else Ok(metadatum)
  }

  /** The keywords with the intended identifiers step. */
  function IntendedKeywords(input: Table<Value>): (r: Result<Table<Value>>)
    ensures !HasKey(input, "identifiers") ==> r == Keywords(input, FieldMappings)
  {
    match Mapped(input, FieldMappings, Start)
    case Err(e) => Err(e)
    case Ok(metadatum) =>
      match IntendedWithIdentifiers(input, metadatum)
      case Err(e) => Err(e)
      case Ok(m) => WithAuthors(input, m)
  }

  /** `transform` with the intended identifiers step. */
  function IntendedTransform(env: Env, input: Table<Value>): (r: Result<Reference>)
    ensures !HasKey(input, "identifiers") ==> r == Transform(env, input)
  {
    match IntendedKeywords(input)
    case Err(e) => Err(e)
    case Ok(kwargs) => NewReference(env, kwargs)
  }

  /** The intended keywords carry the built identifiers list; the authors
      step does not touch it. */
  lemma IntendedKeywordsIdentifiers(input: Table<Value>)
    requires HasKey(input, "identifiers") && IntendedKeywords(input).Ok?
    ensures Iterate(DictGet(input, "identifiers")).Ok?
    ensures var items := Iterate(DictGet(input, "identifiers")).value;
            && IdentifierObjects(items).Ok?
            && Get(IntendedKeywords(input).value, "identifiers") == Some(List(IdentifierObjects(items).value))
  {
    var metadatum := Mapped(input, FieldMappings, Start).value;
    var m := IntendedWithIdentifiers(input, metadatum).value;
    if HasKey(input, "author") {
      SetOther(m, "authors", List(FullnameAuthors(Iterate(DictGet(input, "author")).value)), "identifiers");
    }
  }

  /** With an `identifiers` key the intended `transform`, when it succeeds,
      carries every entry of the input list into the reference as an
      `Identifier`, in order, where the written one raises KeyError. */
  lemma IntendedTransformIdentifiers(env: Env, input: Table<Value>)
    requires HasKey(input, "identifiers") && IntendedTransform(env, input).Ok?
    ensures Iterate(DictGet(input, "identifiers")).Ok?
    ensures var items := Iterate(DictGet(input, "identifiers")).value;
            && IdentifierObjects(items).Ok?
            && |IdentifierObjects(items).value| == |items|
            && IntendedTransform(env, input).value.identifiers == List(IdentifierObjects(items).value)
    ensures Mapped(input, FieldMappings, Start).Ok? && Transform(env, input) == Err(KeyError("identifiers"))
  {
    IntendedKeywordsIdentifiers(input);
    var kwargs := IntendedKeywords(input).value;
    var ids := List(IdentifierObjects(Iterate(DictGet(input, "identifiers")).value).value);
    assert IntendedTransform(env, input) == NewReference(env, kwargs);
    BuiltIdentifiers(env, kwargs, ids);
    IdentifiersRaise(env, input);
  }

  lemma BuiltIdentifiers(env: Env, kwargs: Table<Value>, ids: Value)
    requires NewReference(env, kwargs).Ok? && Get(kwargs, "identifiers") == Some(ids)
    ensures NewReference(env, kwargs).value.identifiers == ids
  {
    NameLiterals();
    NewReferenceField(env, kwargs, Identifiers, Some(ids));
  }
}
