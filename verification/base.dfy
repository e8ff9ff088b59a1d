/** Shared building blocks: optional values, results carrying the exception
    the Python code would raise, and the small numeric helpers (sum, mean,
    argmax) that several stages of the reconciliation pipeline use. */
module Base {

  datatype Option<+T> = None | Some(value: T)

  /** The exceptions the modelled Python code can raise. */
  datatype Exception =
    | ValueError(message: string)
    | TypeError
    | KeyError(key: string)
    | AttributeError
    | NameError       // `eval` of text naming a class not in scope
    | IndexError
    | ZeroDivisionError
    | StatisticsError   // `statistics.mean` of an empty sequence
    | RuntimeError(message: string)
    | HttpError(code: int, reason: string)   // a werkzeug HTTP exception

  /** Either a value or the exception that replaced it. */
  datatype Result<+T> = Ok(value: T) | Err(error: Exception)

  function Sum(s: seq<real>): real
  {
    if |s| == 0 then 0.0 else s[0] + Sum(s[1..])
  }

  /** `statistics.mean` on exact reals; it raises on an empty sequence. */
  function Mean(s: seq<real>): Result<real>
  {
    if |s| == 0 then Err(StatisticsError) else Ok(Sum(s) / (|s| as real))
  }

  predicate AllWithin(s: seq<real>, lo: real, hi: real)
  {
    forall i :: 0 <= i < |s| ==> lo <= s[i] <= hi
  }

  lemma {:induction false} SumWithin(s: seq<real>, lo: real, hi: real)
    requires AllWithin(s, lo, hi)
    ensures (|s| as real) * lo <= Sum(s) <= (|s| as real) * hi
  {
    if |s| > 0 {
      assert AllWithin(s[1..], lo, hi) by {
        forall i | 0 <= i < |s[1..]| ensures lo <= s[1..][i] <= hi {
          assert s[1..][i] == s[i + 1];
        }
      }
      SumWithin(s[1..], lo, hi);
    }
  }

  /** The mean of values lying in [lo, hi] lies in [lo, hi]. */
  lemma MeanWithin(s: seq<real>, lo: real, hi: real)
    requires |s| > 0 && AllWithin(s, lo, hi)
    ensures Mean(s).Ok? && lo <= Mean(s).value <= hi
  {
    SumWithin(s, lo, hi);
    var n := |s| as real;
    assert n * lo <= Sum(s) <= n * hi;
    assert Sum(s) / n >= lo by {
      assert Sum(s) / n * n == Sum(s);
    }
    assert Sum(s) / n <= hi by {
      assert Sum(s) / n * n == Sum(s);
    }
  }

  /** A part over a positive whole lies in [0, 1]. */
  lemma RatioWithin(n: real, d: real)
    requires 0.0 < d && 0.0 <= n <= d
    ensures 0.0 <= n / d <= 1.0
  {
    assert n / d * d == n;
  }

  /** A mean of ones is one. */
  lemma DivSelf(d: real)
    requires d != 0.0
    ensures d / d == 1.0
  {
  }

  lemma {:induction false} SumAppend(s: seq<real>, x: real)
    ensures Sum(s + [x]) == Sum(s) + x
  {
    if |s| == 0 {
      assert s + [x] == [x];
    } else {
      assert (s + [x])[1..] == s[1..] + [x];
      SumAppend(s[1..], x);
    }
  }

  function Max(a: real, b: real): real { if a >= b then a else b }
  function Min(a: real, b: real): real { if a <= b then a else b }

  /** Index of the first maximal element, as `max(enumerate(a), key=...)`
      returns the first of several equal maxima. */
  function ArgMax(s: seq<real>): (k: nat)
    requires |s| > 0
    ensures k < |s|
    ensures forall j :: 0 <= j < |s| ==> s[j] <= s[k]
    ensures forall j :: 0 <= j < k ==> s[j] < s[k]
  {
    if |s| == 1 then 0
    else
      var k := ArgMax(s[..|s| - 1]);
      assert forall j :: 0 <= j < |s| - 1 ==> s[..|s| - 1][j] == s[j];
      if s[|s| - 1] > s[k] then |s| - 1 else k
  }

  /** Sequence-valued maximum of a nonempty sequence. */
  function MaxOf(s: seq<real>): (m: real)
    requires |s| > 0
    ensures forall j :: 0 <= j < |s| ==> s[j] <= m
    ensures exists j :: 0 <= j < |s| && s[j] == m
  {
    s[ArgMax(s)]
  }

  function MinLen(a: nat, b: nat): nat { if a <= b then a else b }

  /** `list(map(f, xs, ys))` where `f` may raise: `map` stops at the shorter
      list, and the first exception ends the whole call. */
  function MapParallel<A, B, C>(f: (A, B) -> Result<C>, xs: seq<A>, ys: seq<B>): (r: Result<seq<C>>)
    ensures r.Ok? <==> forall i :: 0 <= i < MinLen(|xs|, |ys|) ==> f(xs[i], ys[i]).Ok?
    ensures r.Ok? ==> |r.value| == MinLen(|xs|, |ys|) &&
                      forall i :: 0 <= i < |r.value| ==> f(xs[i], ys[i]) == Ok(r.value[i])
    ensures r.Err? ==> exists i :: 0 <= i < MinLen(|xs|, |ys|) && f(xs[i], ys[i]) == Err(r.error) &&
                                   forall j :: 0 <= j < i ==> f(xs[j], ys[j]).Ok?
  {
    if |xs| == 0 || |ys| == 0 then Ok([])
    else
      assert forall i :: 1 <= i < |xs| ==> xs[1..][i - 1] == xs[i];
      assert forall i :: 1 <= i < |ys| ==> ys[1..][i - 1] == ys[i];
      match f(xs[0], ys[0])
      case Err(e) => Err(e)
      case Ok(x) =>
        match MapParallel(f, xs[1..], ys[1..])
        case Err(e) =>
          ghost var i :| 0 <= i < MinLen(|xs| - 1, |ys| - 1) && f(xs[1..][i], ys[1..][i]) == Err(e) &&
                         forall j :: 0 <= j < i ==> f(xs[1..][j], ys[1..][j]).Ok?;
          assert f(xs[i + 1], ys[i + 1]) == Err(e);
          Err(e)
        case Ok(rest) => Ok([x] + rest)
  }

  /** `[f(x) for x in xs]` where `f` may raise: the first exception ends
      the whole list. */
  function TryMap<A, B>(f: A -> Result<B>, xs: seq<A>): (r: Result<seq<B>>)
    ensures r.Ok? <==> forall i :: 0 <= i < |xs| ==> f(xs[i]).Ok?
    ensures r.Ok? ==> |r.value| == |xs| && forall i :: 0 <= i < |xs| ==> f(xs[i]) == Ok(r.value[i])
    ensures r.Err? ==> exists i :: 0 <= i < |xs| && f(xs[i]) == Err(r.error) &&
                                   forall j :: 0 <= j < i ==> f(xs[j]).Ok?
  {
    if |xs| == 0 then Ok([])
    else
      assert forall i :: 1 <= i < |xs| ==> xs[1..][i - 1] == xs[i];
      match f(xs[0])
      case Err(e) => Err(e)
      case Ok(x) =>
        match TryMap(f, xs[1..])
        case Err(e) =>
          ghost var i :| 0 <= i < |xs| - 1 && f(xs[1..][i]) == Err(e) &&
                         forall j :: 0 <= j < i ==> f(xs[1..][j]).Ok?;
          assert f(xs[i + 1]) == Err(e);
          Err(e)
        case Ok(rest) => Ok([x] + rest)
  }

  /** `TryMap` over a list with a known head: the head first, then the rest. */
  lemma TryMapCons<A, B>(f: A -> Result<B>, x: A, xs: seq<A>)
    ensures TryMap(f, [x] + xs) ==
              match f(x)
              case Err(e) => Err(e)
              case Ok(y) => (match TryMap(f, xs) case Err(e) => Err(e) case Ok(ys) => Ok([y] + ys))
  {
    assert ([x] + xs)[0] == x && ([x] + xs)[1..] == xs;
  }

  /** The first failure in the tail, after a head that succeeds, is the
      first failure of the whole sequence. */
  lemma FirstFailureShift<A, B>(f: A -> Result<B>, items: seq<A>, e: Exception)
    requires |items| > 0 && f(items[0]).Ok?
    requires exists i :: 0 <= i < |items[1..]| && f(items[1..][i]) == Err(e) &&
                         forall j :: 0 <= j < i ==> f(items[1..][j]).Ok?
    ensures exists i :: 0 <= i < |items| && f(items[i]) == Err(e) &&
                        forall j :: 0 <= j < i ==> f(items[j]).Ok?
  {
    var rest := items[1..];
    var i :| 0 <= i < |rest| && f(rest[i]) == Err(e) && forall j :: 0 <= j < i ==> f(rest[j]).Ok?;
    assert items[i + 1] == rest[i];
    assert forall j :: 0 < j <= i ==> items[j] == rest[j - 1];
  }

  /** Appending two elements one at a time appends the pair. */
  lemma AppendTwo<T>(s: seq<T>, a: T, b: T)
    ensures s + [a] + [b] == s + [a, b]
  {
    assert [a] + [b] == [a, b];
  }

  /** Re-attaching the head of a non-empty sequence around an append. */
  lemma ConsSnoc<T>(t: seq<T>, x: T)
    requires |t| > 0
    ensures [t[0]] + (t[1..] + [x]) == t + [x]
  {
    assert [t[0]] + t[1..] == t;
  }

  lemma AppendAssoc<T>(a: seq<T>, b: seq<T>, c: seq<T>)
    ensures a + (b + c) == (a + b) + c
  {
  }

  /** A subset is no larger, and one as large is the whole set. */
  lemma SubsetCard<T>(a: set<T>, b: set<T>)
    requires a <= b
    ensures |a| <= |b|
    ensures |a| == |b| ==> a == b
  {
    assert b == a + (b - a);
    assert a * (b - a) == {};
    if |a| == |b| {
      assert |b - a| == 0;
    }
  }

  /** A sequence of three or more is its first three followed by the rest. */
  lemma SplitThree<T>(s: seq<T>)
    requires |s| >= 3
    ensures s == [s[0], s[1], s[2]] + s[3..]
  {
  }

  /** A non-empty sequence is its front followed by its last element. */
  lemma InitLast<T>(t: seq<T>)
    requires |t| > 0
    ensures t[..|t| - 1] + [t[|t| - 1]] == t
  {
  }
}
