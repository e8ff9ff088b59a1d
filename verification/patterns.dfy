/** The three regular expressions the belief functions apply, written out as
    the scans Python's `re` performs (left to right, leftmost match, greedy
    quantifiers, backtracking worked out by hand):

    - `RE_INTEGER = (?:^|(?:\s+))(\d+)(?:$|(?:\s+))` with `findall`/`subn`;
    - the older `(?:\s+)?(\d+)(?:\s+)?` with `findall`;
    - the page-range pattern `(\d+)(?:\s+)?[\s\-._/\:]+(?:\s+)?(\d+)` with
      `match`, which is anchored at the start. */
module Patterns {
  import opened Base
  import opened Text

  /** End of the maximal run of digits starting at `i`. */
  function DigitRunEnd(s: string, i: nat): (j: nat)
    requires i <= |s|
    ensures i <= j <= |s|
    ensures forall k :: i <= k < j ==> IsDigit(s[k])
    ensures j == |s| || !IsDigit(s[j])
    decreases |s| - i
  {
    if i < |s| && IsDigit(s[i]) then DigitRunEnd(s, i + 1) else i
  }

  /** End of the maximal run of whitespace starting at `i`. */
  function SpaceRunEnd(s: string, i: nat): (j: nat)
    requires i <= |s|
    ensures i <= j <= |s|
    ensures forall k :: i <= k < j ==> IsSpace(s[k])
    ensures j == |s| || !IsSpace(s[j])
    decreases |s| - i
  {
    if i < |s| && IsSpace(s[i]) then SpaceRunEnd(s, i + 1) else i
  }

  /** One match: the text `s[start..end]` was consumed and the capture group
      is `s[groupStart..groupEnd]`. */
  datatype Match = Match(start: nat, groupStart: nat, groupEnd: nat, end: nat)

  predicate MatchIn(s: string, m: Match)
  {
    m.start <= m.groupStart < m.groupEnd <= m.end <= |s|
    && forall k :: m.groupStart <= k < m.groupEnd ==> IsDigit(s[k])
  }

  function Group(s: string, m: Match): string
    requires MatchIn(s, m)
  {
    s[m.groupStart..m.groupEnd]
  }

  /** A group of a match is a non-empty run of digits. */
  lemma GroupDigits(s: string, m: Match)
    requires MatchIn(s, m)
    ensures |Group(s, m)| > 0 && AllDigits(Group(s, m))
  {
    var g := Group(s, m);
    forall i | 0 <= i < |g| ensures IsDigit(g[i]) {
      assert g[i] == s[m.groupStart + i];
    }
  }

  /** Matches found by a scan, left to right and not overlapping, all
      starting at or after `p`. */
  predicate Scanned(s: string, ms: seq<Match>, p: nat)
  {
    (forall i :: 0 <= i < |ms| ==> MatchIn(s, ms[i]) && p <= ms[i].start)
    && (forall i :: 0 <= i < |ms| - 1 ==> ms[i].end <= ms[i + 1].start)
  }

  /** Total number of characters the matches consume. */
  function Consumed(ms: seq<Match>): int
  {
    if |ms| == 0 then 0 else (ms[0].end - ms[0].start) + Consumed(ms[1..])
  }

  function Groups(s: string, ms: seq<Match>): (gs: seq<string>)
    requires forall i :: 0 <= i < |ms| ==> MatchIn(s, ms[i])
    ensures |gs| == |ms|
    ensures forall i :: 0 <= i < |ms| ==> gs[i] == Group(s, ms[i])
    ensures forall i :: 0 <= i < |gs| ==> |gs[i]| > 0 && AllDigits(gs[i])
  {
    if |ms| == 0 then []
    else
      GroupDigits(s, ms[0]);
      [Group(s, ms[0])] + Groups(s, ms[1..])
  }

  // ---------------------------------------------------------------------
  // RE_INTEGER

  /** `$` without MULTILINE: the end, or just before a final newline. */
  predicate AtEnd(s: string, q: nat)
  {
    q == |s| || (q + 1 == |s| && s[q] == '\n')
  }

  /** The trailing `(?:$|(?:\s+))` tried at `q`, `$` first. */
  function IntegerTrail(s: string, q: nat): (e: Option<nat>)
    requires q <= |s|
    ensures e.Some? ==> q <= e.value <= |s|
  {
    if AtEnd(s, q) then Some(q)
    else if q < |s| && IsSpace(s[q]) then Some(SpaceRunEnd(s, q))
    else None
  }

  /** The match of RE_INTEGER starting exactly at `p`, if there is one.
      `^` is tried first, and only succeeds at position 0. */
  function IntegerMatchAt(s: string, p: nat): (r: Option<Match>)
    requires p <= |s|
    ensures r.Some? ==> r.value.start == p && MatchIn(s, r.value)
  {
    var q0 := DigitRunEnd(s, p);
    var first := if p == 0 && q0 > 0 then IntegerTrail(s, q0) else None;
    if first.Some? then Some(Match(0, 0, q0, first.value))
    else
      var r := SpaceRunEnd(s, p);
      var q := DigitRunEnd(s, r);
      if r > p && q > r then
        match IntegerTrail(s, q)
        case Some(e) => Some(Match(p, r, q, e))
        case None => None
      else None
  }

  /** The matches `re.findall` and `re.subn` visit from position `p` on. */
  function IntegerScan(s: string, p: nat): (ms: seq<Match>)
    requires p <= |s|
    ensures Scanned(s, ms, p)
    ensures 0 <= Consumed(ms) <= |s| - p
    decreases |s| - p
  {
    match IntegerMatchAt(s, p)
    case Some(m) =>
      var rest := IntegerScan(s, m.end);
      assert ([m] + rest)[1..] == rest;
      [m] + rest
    case None => if p == |s| then [] else IntegerScan(s, p + 1)
  }

  /** `re.findall(RE_INTEGER, s)`. */
  function FindIntegers(s: string): (r: seq<string>)
    ensures forall i :: 0 <= i < |r| ==> |r[i]| > 0 && AllDigits(r[i])
  {
    var ms := IntegerScan(s, 0);
    assert forall i :: 0 <= i < |ms| ==> MatchIn(s, ms[i]);
    Groups(s, ms)
  }

  /** `len(re.subn(RE_INTEGER, '', s)[0])`: what is left once every match
      is removed. */
  function IntegerLeftoverLength(s: string): (n: int)
    ensures 0 <= n <= |s|
  {
    |s| - Consumed(IntegerScan(s, 0))
  }

  // ---------------------------------------------------------------------
  // The older (?:\s+)?(\d+)(?:\s+)?

  /** The match of the older integer pattern starting exactly at `p`. */
  function LooseMatchAt(s: string, p: nat): (r: Option<Match>)
    requires p <= |s|
    ensures r.Some? ==> r.value.start == p && MatchIn(s, r.value)
  {
    var r := SpaceRunEnd(s, p);
    var q := DigitRunEnd(s, r);
    if q > r then Some(Match(p, r, q, SpaceRunEnd(s, q))) else None
  }

  function LooseScan(s: string, p: nat): (ms: seq<Match>)
    requires p <= |s|
    ensures Scanned(s, ms, p)
    decreases |s| - p
  {
    match LooseMatchAt(s, p)
    case Some(m) =>
      var rest := LooseScan(s, m.end);
      [m] + rest
    case None => if p == |s| then [] else LooseScan(s, p + 1)
  }

  /** `re.findall(r'(?:\s+)?(\d+)(?:\s+)?', s)`. */
  function FindLooseIntegers(s: string): (r: seq<string>)
    ensures forall i :: 0 <= i < |r| ==> |r[i]| > 0 && AllDigits(r[i])
    ensures |r| == |LooseScan(s, 0)|
  {
    var ms := LooseScan(s, 0);
    assert forall i :: 0 <= i < |ms| ==> MatchIn(s, ms[i]);
    Groups(s, ms)
  }

  /** Reference definition: the maximal runs of digits in `s[p..]`, as
      (start, end) pairs. */
  function DigitRuns(s: string, p: nat): seq<(nat, nat)>
    requires p <= |s|
    decreases |s| - p
  {
    if p == |s| then []
    else if IsDigit(s[p]) then
      var q := DigitRunEnd(s, p);
      [(p, q)] + DigitRuns(s, q)
    else DigitRuns(s, p + 1)
  }

  /** Every pair `DigitRuns` lists is a maximal run of digits, provided
      the scan starts outside a run. */
  lemma {:induction false} DigitRunsMaximal(s: string, p: nat)
    requires p <= |s|
    requires p == 0 || p == |s| || !IsDigit(s[p - 1]) || !IsDigit(s[p])
    ensures forall i :: 0 <= i < |DigitRuns(s, p)| ==>
      var (a, b) := DigitRuns(s, p)[i];
      p <= a < b <= |s| && (a == 0 || !IsDigit(s[a - 1])) && (b == |s| || !IsDigit(s[b]))
      && forall k :: a <= k < b ==> IsDigit(s[k])
    decreases |s| - p
  {
    if p < |s| {
      if IsDigit(s[p]) {
        var q := DigitRunEnd(s, p);
        DigitRunsMaximal(s, q);
        assert DigitRuns(s, p) == [(p, q)] + DigitRuns(s, q);
      } else {
        DigitRunsMaximal(s, p + 1);
      }
    }
  }

  function Spans(ms: seq<Match>): (r: seq<(nat, nat)>)
    ensures |r| == |ms|
  {
    if |ms| == 0 then [] else [(ms[0].groupStart, ms[0].groupEnd)] + Spans(ms[1..])
  }

  lemma SpansCons(m: Match, rest: seq<Match>)
    ensures Spans([m] + rest) == [(m.groupStart, m.groupEnd)] + Spans(rest)
  {
    assert ([m] + rest)[1..] == rest;
  }

  lemma {:induction false} SpanAt(ms: seq<Match>, i: nat)
    requires i < |ms|
    ensures Spans(ms)[i] == (ms[i].groupStart, ms[i].groupEnd)
  {
    if i > 0 {
      SpanAt(ms[1..], i - 1);
    }
  }

  /** The older pattern captures exactly the maximal digit runs, in order. */
  lemma {:induction false} LooseScanIsDigitRuns(s: string, p: nat)
    requires p <= |s|
    ensures Spans(LooseScan(s, p)) == DigitRuns(s, p)
    decreases |s| - p
  {
    var r := SpaceRunEnd(s, p);
    var q := DigitRunEnd(s, r);
    if q > r {
      LooseScanIsDigitRuns(s, SpaceRunEnd(s, q));
      LooseMatchStep(s, p);
    } else if p < |s| {
      LooseScanIsDigitRuns(s, p + 1);
    }
  }

  /** A match of the older pattern spans the first digit run. */
  lemma LooseMatchStep(s: string, p: nat)
    requires p <= |s|
    requires var q := DigitRunEnd(s, SpaceRunEnd(s, p));
             q > SpaceRunEnd(s, p) && Spans(LooseScan(s, SpaceRunEnd(s, q))) == DigitRuns(s, SpaceRunEnd(s, q))
    ensures Spans(LooseScan(s, p)) == DigitRuns(s, p)
  {
    var r := SpaceRunEnd(s, p);
    var q := DigitRunEnd(s, r);
    var e := SpaceRunEnd(s, q);
    calc {
      Spans(LooseScan(s, p));
      { LooseScanAt(s, p); }
      Spans([Match(p, r, q, e)] + LooseScan(s, e));
      { SpansCons(Match(p, r, q, e), LooseScan(s, e)); }
      [(r, q)] + Spans(LooseScan(s, e));
      [(r, q)] + DigitRuns(s, e);
      { DigitRunsSkipSpaces(s, q); }
      [(r, q)] + DigitRuns(s, q);
      { DigitRunsAt(s, r); }
      DigitRuns(s, r);
      { DigitRunsSkipSpaces(s, p); }
      DigitRuns(s, p);
    }
  }

  /** Where the older pattern matches, the scan records that match and
      carries on after it. */
  lemma LooseScanAt(s: string, p: nat)
    requires p <= |s| && DigitRunEnd(s, SpaceRunEnd(s, p)) > SpaceRunEnd(s, p)
    ensures var q := DigitRunEnd(s, SpaceRunEnd(s, p));
      LooseScan(s, p) == [Match(p, SpaceRunEnd(s, p), q, SpaceRunEnd(s, q))] + LooseScan(s, SpaceRunEnd(s, q))
  {
  }

  /** Skipping a run of whitespace does not change the digit runs. */
  lemma {:induction false} DigitRunsSkipSpaces(s: string, p: nat)
    requires p <= |s|
    ensures DigitRuns(s, SpaceRunEnd(s, p)) == DigitRuns(s, p)
    decreases |s| - p
  {
    if p < |s| && IsSpace(s[p]) {
      DigitRunsSkipSpaces(s, p + 1);
    }
  }

  /** The runs from a digit start with that digit's run. */
  lemma DigitRunsAt(s: string, r: nat)
    requires r < |s| && IsDigit(s[r])
    ensures DigitRuns(s, r) == [(r, DigitRunEnd(s, r))] + DigitRuns(s, DigitRunEnd(s, r))
  {
  }

  /** The older pattern finds something exactly when `s` holds a digit. */
  lemma {:induction false} LooseScanNonEmptyIff(s: string, p: nat)
    requires p <= |s|
    ensures |LooseScan(s, p)| > 0 <==> exists k :: p <= k < |s| && IsDigit(s[k])
    decreases |s| - p
  {
    var r := SpaceRunEnd(s, p);
    var q := DigitRunEnd(s, r);
    if q > r {
      assert IsDigit(s[r]);
    } else if p < |s| {
      LooseScanNonEmptyIff(s, p + 1);
    }
  }

  // ---------------------------------------------------------------------
  // Page ranges

  /** The separator class `[\s\-._/\:]`. */
  predicate IsPageSeparator(c: char)
  {
    IsSpace(c) || c == '-' || c == '.' || c == '_' || c == '/' || c == ':'
  }

  function SeparatorRunEnd(s: string, i: nat): (j: nat)
    requires i <= |s|
    ensures i <= j <= |s|
    ensures forall k :: i <= k < j ==> IsPageSeparator(s[k])
    ensures j == |s| || !IsPageSeparator(s[j])
    decreases |s| - i
  {
    if i < |s| && IsPageSeparator(s[i]) then SeparatorRunEnd(s, i + 1) else i
  }

  /** `re.match` of the page-range pattern: the two captured numbers. The
      optional `\s+` around the separator class are subsumed by the class,
      so the groups are the leading digit run and the digit run after the
      maximal separator run. */
  function PagesMatch(s: string): (r: Option<(string, string)>)
    ensures r.Some? ==> |r.value.0| > 0 && AllDigits(r.value.0)
    ensures r.Some? ==> |r.value.1| > 0 && AllDigits(r.value.1)
  {
    var q := DigitRunEnd(s, 0);
    var m := SeparatorRunEnd(s, q);
    var e := DigitRunEnd(s, m);
    if q > 0 && m > q && e > m then Some((s[..q], s[m..e])) else None
  }
}
