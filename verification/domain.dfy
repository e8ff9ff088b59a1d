/** The records of the references application: authors, identifiers,
    references and reference sets, with their defaults, the content-derived
    reference identifier, and the dict forms stored and served. */
module Domain {
  import opened Base
  import opened Text
  import opened Tables
  import opened Json
  import opened Externals
  import Base64

  datatype Author = Author(surname: string, givennames: string, prefix: string,
                           suffix: string, fullname: string)

  /** `Author()`: every name part defaults to the empty string. */
  const NoAuthor := Author("", "", "", "", "")

  /** The dataclass instance as the pipeline carries it. */
  function AuthorValue(a: Author): (v: Value)
    ensures v.Obj? && v.cls == "Author" && Keys(v.attrs) == AuthorFields
  {
    Obj("Author", [("surname", Str(a.surname)), ("givennames", Str(a.givennames)),
                   ("prefix", Str(a.prefix)), ("suffix", Str(a.suffix)),
                   ("fullname", Str(a.fullname))])
  }

  const AuthorFields: seq<string> := ["surname", "givennames", "prefix", "suffix", "fullname"]

  /** The identifier dataclass; its type field is spelled `identifer_type`. */
  datatype Identifier = Identifier(identiferType: string, identifier: string)

  const IdentifierFields: seq<string> := ["identifer_type", "identifier"]

  function IdentifierValue(i: Identifier): (v: Value)
    ensures v.Obj? && Keys(v.attrs) == IdentifierFields
  {
    Obj("Identifier", [("identifer_type", Str(i.identiferType)), ("identifier", Str(i.identifier))])
  }

  /** `Identifier(**kwargs)`: both fields are required and no other keyword
      is accepted; a wrong keyword raises TypeError. */
  function IdentifierFromKeywords(kwargs: Table<Value>): (r: Result<Identifier>)
    ensures r.Ok? ==> HasKey(kwargs, "identifer_type") && HasKey(kwargs, "identifier")
    ensures HasKey(kwargs, "identifier_type") ==> r == Err(TypeError)
  {
    if exists k :: k in Keys(kwargs) && k !in IdentifierFields then Err(TypeError)
    else
      var t: Option<Value> := Get(kwargs, "identifer_type");
      var i: Option<Value> := Get(kwargs, "identifier");
      if t.Some? && i.Some? && t.value.Str? && i.value.Str? then
        Ok(Identifier(t.value.s, i.value.s))
      else Err(TypeError)   // a missing field; the model holds only str fields
  }

  /** A parsed reference. Fields the source annotates `Optional[str]` hold
      whatever the extractor put there (`Null` for None); `raw` is always a
      string because `__post_init__` transliterates it. */
  datatype Reference = Reference(
    title: Value, raw: string, arxivId: Value, authors: Value, reftype: Value,
    doi: Value, volume: Value, issue: Value, pages: Value, source: Value,
    year: Value, identifiers: Value, identifier: string, score: Value)

  /** The dataclass fields. */
  datatype Field = Title | Raw | ArxivId | Authors | Reftype | Doi | Volume | Issue
                 | Pages | Source | Year | Identifiers | IdentifierField | Score

  /** The fields in declaration order, which `asdict` follows. */
  const ReferenceFields: seq<Field> :=
    [Title, Raw, ArxivId, Authors, Reftype, Doi, Volume, Issue, Pages, Source,
     Year, Identifiers, IdentifierField, Score]

  lemma ReferenceFieldsComplete(f: Field)
    ensures f in ReferenceFields
  {
  }

  /** The attribute name, which is also the keyword and the dict key. */
  function Name(f: Field): string
  {
    match f
    case Title => "title"
    case Raw => "raw"
    case ArxivId => "arxiv_id"
    case Authors => "authors"
    case Reftype => "reftype"
    case Doi => "doi"
    case Volume => "volume"
    case Issue => "issue"
    case Pages => "pages"
    case Source => "source"
    case Year => "year"
    case Identifiers => "identifiers"
    case IdentifierField => "identifier"
    case Score => "score"
  }

  /** The field a keyword or dict key names, if any. */
  function FieldNamed(k: string): (r: Option<Field>)
    ensures r.Some? ==> Name(r.value) == k
  {
    match k
    case "title" => Some(Title)
    case "raw" => Some(Raw)
    case "arxiv_id" => Some(ArxivId)
    case "authors" => Some(Authors)
    case "reftype" => Some(Reftype)
    case "doi" => Some(Doi)
    case "volume" => Some(Volume)
    case "issue" => Some(Issue)
    case "pages" => Some(Pages)
    case "source" => Some(Source)
    case "year" => Some(Year)
    case "identifiers" => Some(Identifiers)
    case "identifier" => Some(IdentifierField)
    case "score" => Some(Score)
    case _ => None
  }

  /** Names and fields correspond one to one. */
  lemma FieldNamedName(f: Field)
    ensures FieldNamed(Name(f)) == Some(f)
  {
  }

  /** The keys of the fields the adapters set by name. */
  lemma NameLiterals()
    ensures Name(Identifiers) == "identifiers" && Name(Authors) == "authors" && Name(Reftype) == "reftype"
  {
  }

  lemma NameInjective(f: Field, g: Field)
    requires Name(f) == Name(g)
    ensures f == g
  {
    FieldNamedName(f);
    FieldNamedName(g);
  }

  predicate IsReferenceField(k: string) { FieldNamed(k).Some? }

  /** `Reference.identifier` after `__post_init__`: the first 100 characters
      of the Base64 encoding of the ASCII transliteration of `raw`. */
  function IdentifierFor(env: Env, raw: string): (id: string)
    ensures |id| <= 100
  {
    var encoded := Base64.Encode(AsciiBytes(env.unidecode(raw)));
    if |encoded| <= 100 then encoded else encoded[..100]
  }

  function AsciiBytes(s: AsciiString): (b: seq<Base64.Byte>)
    ensures |b| == |s|
    ensures forall i :: 0 <= i < |s| ==> b[i] == s[i] as int
  {
    if |s| == 0 then [] else [s[0] as int] + AsciiBytes(s[1..])
  }

  /** `getattr(reference, name)`. */
  function FieldValue(r: Reference, f: Field): Value
  {
    match f
    case Title => r.title
    case Raw => Str(r.raw)
    case ArxivId => r.arxivId
    case Authors => r.authors
    case Reftype => r.reftype
    case Doi => r.doi
    case Volume => r.volume
    case Issue => r.issue
    case Pages => r.pages
    case Source => r.source
    case Year => r.year
    case Identifiers => r.identifiers
    case IdentifierField => Str(r.identifier)
    case Score => r.score
  }

  /** The default of each field. */
  function DefaultFor(f: Field): Value
  {
    match f
    case Raw => Str("")
    case Authors => List([])
    case Identifiers => List([])
    case Reftype => Str("article")
    case Score => Real(0.0)
    case IdentifierField => Str("")
    case _ => Null
  }

  /** The keyword argument for `f`, or the field's default. */
  function Keyword(kwargs: Table<Value>, f: Field): Value
  {
    GetOr(kwargs, Name(f), DefaultFor(f))
  }

  /** Every key names a reference field, checked key by key. */
  predicate FieldKeys(ks: seq<string>)
  {
    |ks| == 0 || (IsReferenceField(ks[0]) && FieldKeys(ks[1..]))
  }

  lemma {:induction false} FieldKeysAll(ks: seq<string>)
    ensures FieldKeys(ks) <==> forall k :: k in ks ==> IsReferenceField(k)
  {
    if |ks| > 0 {
      FieldKeysAll(ks[1..]);
      assert forall k :: k in ks <==> k == ks[0] || k in ks[1..];
    }
  }

  /** `Reference(**kwargs)`: absent fields take their defaults (raw '',
      reftype 'article', score 0.0, empty authors and identifiers, None
      elsewhere); an unknown keyword raises TypeError; a `raw` that is not a
      string makes the transliteration in `__post_init__` fail. */
  function NewReference(env: Env, kwargs: Table<Value>): (r: Result<Reference>)
    ensures !FieldKeys(Keys(kwargs)) ==> r == Err(TypeError)
    ensures r.Ok? <==> FieldKeys(Keys(kwargs)) && Keyword(kwargs, Raw).Str?
    ensures r.Ok? ==> r.value.identifier == IdentifierFor(env, r.value.raw)
    ensures r.Ok? ==> Str(r.value.raw) == Keyword(kwargs, Raw)
  {
    if !FieldKeys(Keys(kwargs)) then Err(TypeError)
    else
      match Keyword(kwargs, Raw)
      case Str(raw) => Ok(Assemble(env, kwargs, raw))
      case _ => Err(AttributeError)
  }

  /** The key check spelled out: `Reference(**kwargs)` raises TypeError
      exactly when some keyword is not a field. */
  lemma NewReferenceKeys(env: Env, kwargs: Table<Value>)
    ensures (exists k :: k in Keys(kwargs) && !IsReferenceField(k)) ==> NewReference(env, kwargs) == Err(TypeError)
    ensures NewReference(env, kwargs).Ok? <==> (forall k :: k in Keys(kwargs) ==> IsReferenceField(k))
                                               && Keyword(kwargs, Raw).Str?
  {
    FieldKeysAll(Keys(kwargs));
  }

  /** A field other than `identifier` of a built reference holds its
      keyword, or its default when the keyword is absent. */
  lemma NewReferenceField(env: Env, kwargs: Table<Value>, f: Field, o: Option<Value>)
    requires NewReference(env, kwargs).Ok?
    requires f != IdentifierField && Get(kwargs, Name(f)) == o
    ensures FieldValue(NewReference(env, kwargs).value, f) == if o.Some? then o.value else DefaultFor(f)
  {
    var raw := Keyword(kwargs, Raw).s;
    assert NewReference(env, kwargs).value == Assemble(env, kwargs, raw);
    if f != Raw {
      AssembleFields(env, kwargs, raw, f);
    }
  }

  /** The instance `__init__` and `__post_init__` build once the keywords
      are known to be fields and `raw` a string. */
  function Assemble(env: Env, kwargs: Table<Value>, raw: string): (r: Reference)
    ensures r.raw == raw && r.identifier == IdentifierFor(env, raw)
  {
    Reference(
      Keyword(kwargs, Title), raw, Keyword(kwargs, ArxivId), Keyword(kwargs, Authors),
      Keyword(kwargs, Reftype), Keyword(kwargs, Doi), Keyword(kwargs, Volume),
      Keyword(kwargs, Issue), Keyword(kwargs, Pages), Keyword(kwargs, Source),
      Keyword(kwargs, Year), Keyword(kwargs, Identifiers), IdentifierFor(env, raw),
      Keyword(kwargs, Score))
  }

  /** Every field other than `raw` and `identifier` holds its keyword
      argument, or its default when the keyword is absent. */
  lemma AssembleFields(env: Env, kwargs: Table<Value>, raw: string, f: Field)
    requires f != IdentifierField && f != Raw
    ensures FieldValue(Assemble(env, kwargs, raw), f) == Keyword(kwargs, f)
  {
    var r := Assemble(env, kwargs, raw);
    match f
    case Title => assert r.title == Keyword(kwargs, Title);
    case _ =>
  }

  /** `setattr(reference, name, v)` for the fields normalisation and
      filtering write. */
  function WithField(r: Reference, f: Field, v: Value): (r': Reference)
    requires f in {Title, ArxivId, Authors, Source, Score}
    ensures FieldValue(r', f) == v
    ensures forall g :: g != f ==> FieldValue(r', g) == FieldValue(r, g)
  {
    match f
    case Title => r.(title := v)
    case ArxivId => r.(arxivId := v)
    case Authors => r.(authors := v)
    case Source => r.(source := v)
    case Score => r.(score := v)
  }

  /** `dataclasses.asdict` on a nested value: dataclass instances become
      dicts of their fields, containers are rebuilt, scalars kept. */
  function AsDict(v: Value): (r: Value)
    ensures v.Null? <==> r.Null?
    ensures !v.Obj? ==> (Truthy(v) <==> Truthy(r))
    ensures v.Obj? ==> r.Dict? && Keys(r.entries) == Keys(v.attrs)
    decreases v, 1
  {
    match v
    case List(items) => List(AsDictItems(items))
    case Dict(entries) => Dict(AsDictEntries(entries))
    case Obj(_, attrs) =>
      var e := AsDictEntries(attrs);
      Dict(e)
    case _ => v
  }

  function AsDictItems(items: seq<Value>): (r: seq<Value>)
    ensures |r| == |items|
    decreases items, 0
  {
    if |items| == 0 then [] else [AsDict(items[0])] + AsDictItems(items[1..])
  }

  function AsDictEntries(entries: Table<Value>): (r: Table<Value>)
    ensures Keys(r) == Keys(entries)
    decreases entries, 0
  {
    if |entries| == 0 then []
    else
      assert entries[0] in entries && entries[0].1 < entries[0];
      [(entries[0].0, AsDict(entries[0].1))] + AsDictEntries(entries[1..])
  }

  /** `asdict(reference)`: every field, in declaration order. */
  function AllFields(r: Reference): (d: Table<Value>)
    ensures |d| == |ReferenceFields|
    ensures forall i :: 0 <= i < |d| ==>
      d[i] == (Name(ReferenceFields[i]), AsDict(FieldValue(r, ReferenceFields[i])))
  {
    FieldsOf(r, ReferenceFields)
  }

  function FieldsOf(r: Reference, fields: seq<Field>): (d: Table<Value>)
    ensures |d| == |fields|
    ensures forall i :: 0 <= i < |d| ==> d[i] == (Name(fields[i]), AsDict(FieldValue(r, fields[i])))
  {
    if |fields| == 0 then []
    else [(Name(fields[0]), AsDict(FieldValue(r, fields[0])))] + FieldsOf(r, fields[1..])
  }

  /** `Reference.to_dict`: `asdict` without the None-valued fields. */
  function ToDict(r: Reference): (d: Table<Value>)
  {
    DropNone(AllFields(r))
  }

  function DropNone(t: Table<Value>): (d: Table<Value>)
    ensures forall i :: 0 <= i < |d| ==> !d[i].1.Null?
    ensures forall e :: e in d ==> e in t
  {
    if |t| == 0 then []
    else if t[0].1.Null? then DropNone(t[1..])
    else [t[0]] + DropNone(t[1..])
  }

  lemma {:induction false} FieldsOfGet(r: Reference, fields: seq<Field>, f: Field)
    ensures Get(DropNone(FieldsOf(r, fields)), Name(f)) ==
      if f in fields && !FieldValue(r, f).Null? then Some(AsDict(FieldValue(r, f))) else None
  {
    if |fields| > 0 {
      FieldsOfGet(r, fields[1..], f);
      assert FieldsOf(r, fields)[1..] == FieldsOf(r, fields[1..]);
      assert fields == [fields[0]] + fields[1..];
      if Name(fields[0]) == Name(f) {
        NameInjective(fields[0], f);
      }
    }
  }

  /** `to_dict` keeps a field exactly when its value is not None, with the
      `asdict` form of that value; empty strings, empty lists and a zero
      score stay. */
  lemma ToDictGet(r: Reference, f: Field)
    ensures FieldValue(r, f).Null? ==> Get(ToDict(r), Name(f)).None?
    ensures !FieldValue(r, f).Null? ==> Get(ToDict(r), Name(f)) == Some(AsDict(FieldValue(r, f)))
  {
    FieldsOfGet(r, ReferenceFields, f);
    ReferenceFieldsComplete(f);
  }

  /** `to_dict` has no key that is not a field name. */
  lemma ToDictKeys(r: Reference, k: string)
    requires HasKey(ToDict(r), k)
    ensures IsReferenceField(k)
  {
    var v := Get(ToDict(r), k).value;
    assert (k, v) in AllFields(r);
    var i :| 0 <= i < |AllFields(r)| && AllFields(r)[i] == (k, v);
    FieldNamedName(ReferenceFields[i]);
  }

  // ---------------------------------------------------------------------
  // The content-derived identifier

  /** The identifier is a function of `raw` alone. */
  lemma IdentifierDependsOnRaw(env: Env, a: Reference, b: Reference)
    requires a.identifier == IdentifierFor(env, a.raw)
    requires b.identifier == IdentifierFor(env, b.raw)
    requires a.raw == b.raw
    ensures a.identifier == b.identifier
  {
  }

  lemma AsciiBytesInjective(s: AsciiString, t: AsciiString)
    requires AsciiBytes(s) == AsciiBytes(t)
    ensures s == t
  {
    assert |s| == |t|;
    forall i | 0 <= i < |s| ensures s[i] == t[i] {
      assert AsciiBytes(s)[i] == AsciiBytes(t)[i];
    }
  }

  lemma EncodedFits(n: nat)
    requires n <= 75
    ensures 4 * ((n + 2) / 3) <= 100
  {
    assert (n + 2) / 3 <= 25;
  }

  /** For a transliteration of at most 75 characters the encoding fits in
      100 characters, so nothing is cut off and the identifier determines
      the transliterated text. */
  lemma ShortIdentifiersDistinguish(env: Env, raw1: string, raw2: string)
    requires |env.unidecode(raw1)| <= 75 && |env.unidecode(raw2)| <= 75
    requires IdentifierFor(env, raw1) == IdentifierFor(env, raw2)
    ensures env.unidecode(raw1) == env.unidecode(raw2)
  {
    var b1 := AsciiBytes(env.unidecode(raw1));
    var b2 := AsciiBytes(env.unidecode(raw2));
    EncodedFits(|b1|);
    EncodedFits(|b2|);
    assert IdentifierFor(env, raw1) == Base64.Encode(b1);
    assert IdentifierFor(env, raw2) == Base64.Encode(b2);
    Base64.DecodeEncode(b1);
    Base64.DecodeEncode(b2);
    AsciiBytesInjective(env.unidecode(raw1), env.unidecode(raw2));
  }

  // ---------------------------------------------------------------------
  // Reference sets

  /** A naive `datetime`. */
  datatype DateTime = DateTime(year: nat, month: nat, day: nat, hour: nat,
                               minute: nat, second: nat, microsecond: nat)

  predicate ValidDateTime(d: DateTime)
  {
    1 <= d.year <= 9999 && 1 <= d.month <= 12 && 1 <= d.day <= 31
    && d.hour < 24 && d.minute < 60 && d.second < 60 && d.microsecond < 1000000
  }

  function Pow10(w: nat): (p: nat)
    ensures p >= 1
  {
    if w == 0 then 1 else 10 * Pow10(w - 1)
  }

  /** `%0*d`: `n` in exactly `w` decimal digits. */
  function Padded(n: nat, w: nat): (s: string)
    ensures |s| == w && AllDigits(s)
  {
    if w == 0 then "" else Padded(n / 10, w - 1) + [DigitChar(n % 10)]
  }

  lemma {:induction false} PaddedValue(n: nat, w: nat)
    requires n < Pow10(w)
    ensures DigitsValue(Padded(n, w)) == n
  {
    if w > 0 {
      var s := Padded(n, w);
      assert s[..|s| - 1] == Padded(n / 10, w - 1);
      PaddedValue(n / 10, w - 1);
    }
  }

  /** `a<sep>bb<sep>cc` with `a` in `w` digits: the date part `YYYY-MM-DD`
      and the time part `HH:MM:SS` of an ISO-8601 timestamp. */
  function Triple(a: nat, b: nat, c: nat, w: nat, sep: char): (s: string)
    ensures |s| == w + 6
  {
    Padded(a, w) + [sep] + Padded(b, 2) + [sep] + Padded(c, 2)
  }

  function ParseTriple(s: string, w: nat, sep: char): Option<(nat, nat, nat)>
  {
    if |s| == w + 6 && s[w] == sep && s[w + 3] == sep
       && AllDigits(s[..w]) && AllDigits(s[w + 1..w + 3]) && AllDigits(s[w + 4..])
    then Some((DigitsValue(s[..w]), DigitsValue(s[w + 1..w + 3]), DigitsValue(s[w + 4..])))
    else None
  }

  lemma TripleRoundTrip(a: nat, b: nat, c: nat, w: nat, sep: char)
    requires a < Pow10(w) && b < 100 && c < 100
    ensures ParseTriple(Triple(a, b, c, w, sep), w, sep) == Some((a, b, c))
  {
    var s := Triple(a, b, c, w, sep);
    var pa, pb, pc := Padded(a, w), Padded(b, 2), Padded(c, 2);
    assert s == pa + ([sep] + pb + [sep] + pc);
    assert s[..w] == pa;
    var tail := s[w + 1..];
    assert tail == pb + [sep] + pc;
    assert s[w + 1..w + 3] == tail[..2] == pb;
    assert s[w + 4..] == tail[3..] == pc;
    assert Pow10(2) == 100;
    PaddedValue(a, w);
    PaddedValue(b, 2);
    PaddedValue(c, 2);
  }

  /** `datetime.isoformat()`: `YYYY-MM-DDTHH:MM:SS`, followed by
      `.ffffff` only when the microsecond is not zero. */
  function IsoFormat(d: DateTime): (s: string)
    ensures |s| == if d.microsecond == 0 then 19 else 26
  {
    var base := Triple(d.year, d.month, d.day, 4, '-') + "T"
      + Triple(d.hour, d.minute, d.second, 2, ':');
    if d.microsecond == 0 then base else base + "." + Padded(d.microsecond, 6)
  }

  /** Reading an ISO-8601 timestamp of either length back. */
  function ParseIso(s: string): Option<DateTime>
  {
    if (|s| == 19 || (|s| == 26 && s[19] == '.' && AllDigits(s[20..]))) && s[10] == 'T' then
      match (ParseTriple(s[..10], 4, '-'), ParseTriple(s[11..19], 2, ':'))
      case (Some((y, mo, dd)), Some((h, mi, sec))) =>
        Some(DateTime(y, mo, dd, h, mi, sec, if |s| == 19 then 0 else DigitsValue(s[20..])))
      case _ => None
    else None
  }

  /** The timestamps a reference set serialises read back as the same
      instants. */
  lemma IsoFormatRoundTrip(d: DateTime)
    requires ValidDateTime(d)
    ensures ParseIso(IsoFormat(d)) == Some(d)
  {
    var s := IsoFormat(d);
    var date := Triple(d.year, d.month, d.day, 4, '-');
    var time := Triple(d.hour, d.minute, d.second, 2, ':');
    assert s[..10] == date;
    assert s[11..19] == time;
    assert s[10] == 'T';
    assert Pow10(4) == 10000 by { assert Pow10(2) == 100; }
    TripleRoundTrip(d.year, d.month, d.day, 4, '-');
    TripleRoundTrip(d.hour, d.minute, d.second, 2, ':');
    if d.microsecond != 0 {
      assert s[20..] == Padded(d.microsecond, 6);
      assert Pow10(6) == 1000000 by { assert Pow10(4) == 10000 by { assert Pow10(2) == 100; } }
      PaddedValue(d.microsecond, 6);
    }
  }

  datatype ReferenceSet = ReferenceSet(
    documentId: string, references: seq<Reference>, version: string, score: real,
    created: DateTime, updated: DateTime, extractor: string, extractors: seq<string>,
    raw: bool)

  /** `ReferenceSet(...)` with the defaults extractor 'combined', no
      extractors listed, and raw False. */
  function NewReferenceSet(documentId: string, references: seq<Reference>, version: string,
                           score: real, created: DateTime, updated: DateTime): (s: ReferenceSet)
    ensures s.extractor == "combined" && s.extractors == [] && !s.raw
  {
    ReferenceSet(documentId, references, version, score, created, updated, "combined", [], false)
  }

  function ReferencesAsDicts(refs: seq<Reference>): (r: seq<Value>)
    ensures |r| == |refs|
    ensures forall i :: 0 <= i < |refs| ==> r[i] == Dict(AllFields(refs[i]))
  {
    if |refs| == 0 then [] else [Dict(AllFields(refs[0]))] + ReferencesAsDicts(refs[1..])
  }

  function StrList(xs: seq<string>): (r: seq<Value>)
    ensures |r| == |xs| && forall i :: 0 <= i < |xs| ==> r[i] == Str(xs[i])
  {
    if |xs| == 0 then [] else [Str(xs[0])] + StrList(xs[1..])
  }

  /** `ReferenceSet.to_dict`: `asdict` of every field (nested references
      keep their None fields), with both timestamps as ISO-8601 text. */
  function SetToDict(s: ReferenceSet): (d: Table<Value>)
    ensures |d| == 9
    ensures d[4] == ("created", Str(IsoFormat(s.created)))
    ensures d[5] == ("updated", Str(IsoFormat(s.updated)))
  {
    [("document_id", Str(s.documentId)), ("references", List(ReferencesAsDicts(s.references))),
     ("version", Str(s.version)), ("score", Real(s.score)),
     ("created", Str(IsoFormat(s.created))), ("updated", Str(IsoFormat(s.updated))),
     ("extractor", Str(s.extractor)), ("extractors", List(StrList(s.extractors))),
     ("raw", Bool(s.raw))]
  }
}
