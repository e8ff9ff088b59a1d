/** The Python values the pipeline passes around: `None`, booleans, numbers,
    strings, lists, string-keyed dicts, and dataclass instances (`Author`,
    `Identifier`), which `dataclasses.asdict` turns into dicts. */
module Json {
  import opened Base
  import opened Text
  import opened Tables

  datatype Value =
    | Null
    | Bool(b: bool)
    | Int(i: int)
    | Real(r: real)
    | Str(s: string)
    | List(items: seq<Value>)
    | Dict(entries: Table<Value>)
    | Obj(cls: string, attrs: Table<Value>)   // a dataclass instance

  /** Python truthiness. A dataclass without `__bool__` or `__len__` is
      always true. */
  predicate Truthy(v: Value)
  {
    match v
    case Null => false
    case Bool(b) => b
    case Int(i) => i != 0
    case Real(r) => r != 0.0
    case Str(s) => |s| > 0
    case List(items) => |items| > 0
    case Dict(entries) => |entries| > 0
    case Obj(_, _) => true
  }

  predicate IsStr(v: Value) { v.Str? }

  /** `d.get(k)` on a dict value, `None` when the key is absent. */
  function DictGet(entries: Table<Value>, k: string): (r: Value)
    ensures !HasKey(entries, k) ==> r == Null
    ensures HasKey(entries, k) ==> Get(entries, k) == Some(r)
  {
    GetOr(entries, k, Null)
  }

  /** `d[k] = v` seen through `d.get`: `k` now gives `v`, every other key
      what it gave before. */
  lemma DictGetSet(entries: Table<Value>, k: string, v: Value, other: string)
    ensures DictGet(Set(entries, k, v), k) == v
    ensures other != k ==> DictGet(Set(entries, k, v), other) == DictGet(entries, other)
  {
    if other != k {
      SetOther(entries, k, v, other);
    }
  }

  /** The keys of a dict as string values, which is what iterating it
      yields. */
  function KeyStrings(ks: seq<string>): (r: seq<Value>)
    ensures |r| == |ks| && forall i :: 0 <= i < |ks| ==> r[i] == Str(ks[i])
  {
    seq(|ks|, i requires 0 <= i < |ks| => Str(ks[i]))
  }

  /** The one-character strings of a string, which is what iterating it
      yields. */
  function Chars(s: string): (r: seq<Value>)
    ensures |r| == |s| && forall i :: 0 <= i < |s| ==> r[i] == Str([s[i]])
  {
    seq(|s|, i requires 0 <= i < |s| => Str([s[i]]))
  }

  /** `for x in v`: a list yields its items, a string its characters and a
      dict its keys; anything else is not iterable. */
  function Iterate(v: Value): (r: Result<seq<Value>>)
    ensures v.List? ==> r == Ok(v.items)
    ensures v.Str? ==> r == Ok(Chars(v.s))
    ensures v.Dict? ==> r == Ok(KeyStrings(Keys(v.entries)))
    ensures r.Err? <==> !(v.List? || v.Str? || v.Dict?)
    ensures r.Err? ==> r.error == TypeError
  {
    match v
    case List(items) => Ok(items)
    case Str(s) => Ok(Chars(s))
    case Dict(entries) => Ok(KeyStrings(Keys(entries)))
    case _ => Err(TypeError)
  }

  /** Python's choice of quote for `repr` of a string: single quotes unless
      the text holds a single quote and no double quote. */
  function QuoteFor(s: string): char
  {
    if '\'' in s && '"' !in s then '"' else '\''
  }

  function EscapeChar(c: char, quote: char): string
  {
    if c == '\\' then "\\\\"
    else if c == quote then ['\\', c]
    else if c == '\n' then "\\n"
    else if c == '\r' then "\\r"
    else if c == '\t' then "\\t"
    else [c]
  }

  function Escape(s: string, quote: char): string
  {
    if |s| == 0 then "" else EscapeChar(s[0], quote) + Escape(s[1..], quote)
  }

  /** `repr(s)` for a string. */
  function ReprString(s: string): (r: string)
    ensures |r| >= 2 && r[0] == r[|r| - 1] == QuoteFor(s)
  {
    var q := QuoteFor(s);
    [q] + Escape(s, q) + [q]
  }

  /** `repr(v)`; `fmt` is the shortest round-trip rendering of a float. */
  function Repr(v: Value, fmt: real -> string): string
    decreases v, 1
  {
    match v
    case Null => "None"
    case Bool(b) => if b then "True" else "False"
    case Int(i) => IntToString(i)
    case Real(r) => fmt(r)
    case Str(s) => ReprString(s)
    case List(items) => "[" + ReprItems(items, fmt) + "]"
    case Dict(entries) => "{" + ReprEntries(entries, ": ", true, fmt) + "}"
    case Obj(cls, attrs) => cls + "(" + ReprEntries(attrs, "=", false, fmt) + ")"
  }

  function ReprItems(items: seq<Value>, fmt: real -> string): string
    decreases items, 0
  {
    if |items| == 0 then ""
    else if |items| == 1 then Repr(items[0], fmt)
    else Repr(items[0], fmt) + ", " + ReprItems(items[1..], fmt)
  }

  /** Dict entries render as `'k': v`, dataclass fields as `k=v`. */
  function ReprEntries(entries: Table<Value>, sep: string, quoteKeys: bool, fmt: real -> string): string
    decreases entries, 0
  {
    if |entries| == 0 then ""
    else
      var key := if quoteKeys then ReprString(entries[0].0) else entries[0].0;
      assert entries[0] in entries && entries[0].1 < entries[0];
      var one := key + sep + Repr(entries[0].1, fmt);
      if |entries| == 1 then one
      else one + ", " + ReprEntries(entries[1..], sep, quoteKeys, fmt)
  }

  /** `str(v)`: a string is itself, everything else its `repr`. */
  function Show(v: Value, fmt: real -> string): (r: string)
    ensures v.Str? ==> r == v.s
  {
    if v.Str? then v.s else Repr(v, fmt)
  }

  /** `int(r)` for a float: truncation toward zero. */
  function Truncate(r: real): (i: int)
    ensures r >= 0.0 ==> i as real <= r < i as real + 1.0
    ensures r < 0.0 ==> i as real - 1.0 < r <= i as real
  {
    if r >= 0.0 then r.Floor else -((-r).Floor)
  }

  /** Python's `int(v)`: a string is parsed (surrounding whitespace and a
      sign allowed, otherwise ValueError), a float truncated, a bool is 0 or
      1; None, containers and dataclass instances raise TypeError. */
  function IntOf(v: Value): (r: Result<int>)
    ensures v.Str? ==> (r.Ok? <==> ParseInt(v.s).Some?)
    ensures v.Str? && r.Err? ==> r.error == ValueError("invalid literal for int()")
    ensures v.Int? ==> r == Ok(v.i)
    ensures (r.Err? && r.error == TypeError) <==> (v.Null? || v.List? || v.Dict? || v.Obj?)
  {
    match v
    case Str(s) =>
      (match ParseInt(s)
       case Some(i) => Ok(i)
       case None => Err(ValueError("invalid literal for int()")))
    case Int(i) => Ok(i)
    case Bool(b) => Ok(if b then 1 else 0)
    case Real(x) => Ok(Truncate(x))
    case _ => Err(TypeError)
  }

  lemma IntOfDigits(s: string)
    requires |s| > 0 && AllDigits(s)
    ensures IntOf(Str(s)) == Ok(DigitsValue(s))
  {
    ParseDigits(s);
  }
}
