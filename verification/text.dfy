/** The Python string operations the reconciliation code relies on, on
    `seq<char>`: whitespace splitting, joining, stripping, substring tests,
    `str.replace`, `str.title`, and decimal conversion (`str(int)`, `int(str)`).
    Whitespace is Python's full `str.isspace` set; digits and letters are
    those of ASCII, and the Unicode ones beyond it are not part of this
    model. */
module Text {
  import opened Base

  /** The characters for which `str.isspace` holds, which are also the
      ones `\s` matches in a `str` pattern. */
  predicate IsSpace(c: char)
  {
    var n := c as int;
    n == 32 || (9 <= n <= 13) || (28 <= n <= 31) || n == 0x85 || n == 0xA0
    || n == 0x1680 || (0x2000 <= n <= 0x200A) || n == 0x2028 || n == 0x2029
    || n == 0x202F || n == 0x205F || n == 0x3000
  }

  predicate IsDigit(c: char) { '0' <= c <= '9' }
  predicate IsUpper(c: char) { 'A' <= c <= 'Z' }
  predicate IsLower(c: char) { 'a' <= c <= 'z' }
  predicate IsCased(c: char) { IsUpper(c) || IsLower(c) }
  /** The class `[0-9a-zA-Z]`. */
  predicate IsAlnum(c: char) { IsDigit(c) || IsCased(c) }

  function ToUpper(c: char): char { if IsLower(c) then (c as int - 32) as char else c }
  function ToLower(c: char): char { if IsUpper(c) then (c as int + 32) as char else c }

  predicate NoSpace(s: string) { forall i :: 0 <= i < |s| ==> !IsSpace(s[i]) }
  predicate AllDigits(s: string) { forall i :: 0 <= i < |s| ==> IsDigit(s[i]) }

  // ---------------------------------------------------------------------
  // str.split() and str.split(sep)

  /** Length of the leading run of non-whitespace characters. */
  function WordLength(s: string): (n: nat)
    ensures n <= |s|
    ensures forall i :: 0 <= i < n ==> !IsSpace(s[i])
    ensures n == |s| || IsSpace(s[n])
  {
    if |s| == 0 || IsSpace(s[0]) then 0 else 1 + WordLength(s[1..])
  }

  /** `str.split()`: the maximal runs of non-whitespace characters, in order. */
  function Split(s: string): (words: seq<string>)
    ensures forall i :: 0 <= i < |words| ==> |words[i]| > 0 && NoSpace(words[i])
    decreases |s|
  {
    if |s| == 0 then []
    else if IsSpace(s[0]) then Split(s[1..])
    else
      var n := WordLength(s);
      [s[..n]] + Split(s[n..])
  }

  /** The set of words `set(s.split())`. */
  function Words(s: string): set<string>
  {
    set w | w in Split(s)
  }

  lemma {:induction false} WordLengthOf(w: string, rest: string)
    requires NoSpace(w) && (|rest| == 0 || IsSpace(rest[0]))
    ensures WordLength(w + rest) == |w|
  {
    if |w| > 0 {
      assert (w + rest)[1..] == w[1..] + rest;
      WordLengthOf(w[1..], rest);
    } else {
      assert w + rest == rest;
    }
  }

  /** Joining words with single spaces and splitting again gives the words
      back. */
  lemma {:induction false} SplitJoin(ws: seq<string>)
    requires forall i :: 0 <= i < |ws| ==> |ws[i]| > 0 && NoSpace(ws[i])
    ensures Split(Join(" ", ws)) == ws
  {
    if |ws| == 1 {
      var w := ws[0];
      WordLengthOf(w, "");
      assert w + "" == w;
      assert Split(w) == [w[..|w|]] + Split(w[|w|..]);
    } else if |ws| > 1 {
      SplitJoin(ws[1..]);
      SplitWordSpace(ws[0], Join(" ", ws[1..]));
      assert ws == [ws[0]] + ws[1..];
    }
  }

  /** A word followed by a space splits off as the first word. */
  lemma SplitWordSpace(w: string, t: string)
    requires |w| > 0 && NoSpace(w)
    ensures Split(w + " " + t) == [w] + Split(t)
  {
    var s := w + " " + t;
    WordLengthOf(w, " " + t);
    assert s == w + (" " + t);
    assert s[..|w|] == w && s[|w|..] == " " + t;
    assert (" " + t)[1..] == t;
    assert Split(" " + t) == Split(t);
  }

  /** `str.split(sep)` for a one-character separator: every occurrence splits. */
  function SplitOn(s: string, sep: char): (parts: seq<string>)
    ensures |parts| >= 1
  {
    if |s| == 0 then [""]
    else if s[0] == sep then [""] + SplitOn(s[1..], sep)
    else
      var rest := SplitOn(s[1..], sep);
      [[s[0]] + rest[0]] + rest[1..]
  }

  /** `sep.join(parts)`. */
  function Join(sep: string, parts: seq<string>): string
  {
    if |parts| == 0 then ""
    else if |parts| == 1 then parts[0]
    else parts[0] + sep + Join(sep, parts[1..])
  }

  /** Joining the pieces of `s.split(sep)` with `sep` gives `s` back. */
  lemma {:induction false} JoinSplitOn(s: string, sep: char)
    ensures Join([sep], SplitOn(s, sep)) == s
  {
    if |s| == 0 {
    } else if s[0] == sep {
      JoinSplitOn(s[1..], sep);
      assert SplitOn(s, sep) == [""] + SplitOn(s[1..], sep);
      assert Join([sep], SplitOn(s, sep)) == "" + [sep] + Join([sep], SplitOn(s[1..], sep));
      assert s == [s[0]] + s[1..];
    } else {
      JoinSplitOn(s[1..], sep);
      JoinPrepend(s[0], SplitOn(s[1..], sep), [sep]);
      assert s == [s[0]] + s[1..];
    }
  }

  /** Prepending a character to the first part prepends it to the join. */
  lemma JoinPrepend(c: char, parts: seq<string>, sep: string)
    requires |parts| >= 1
    ensures Join(sep, [[c] + parts[0]] + parts[1..]) == [c] + Join(sep, parts)
  {
    var q := [[c] + parts[0]] + parts[1..];
    if |parts| > 1 {
      assert q[1..] == parts[1..];
      AppendAssoc([c], parts[0], sep + Join(sep, parts[1..]));
      AppendAssoc(parts[0], sep, Join(sep, parts[1..]));
      AppendAssoc([c] + parts[0], sep, Join(sep, parts[1..]));
    }
  }

  lemma {:induction false} SplitOnNoSep(s: string, sep: char)
    requires forall i :: 0 <= i < |s| ==> s[i] != sep
    ensures SplitOn(s, sep) == [s]
  {
    if |s| > 0 {
      SplitOnNoSep(s[1..], sep);
      assert s == [s[0]] + s[1..];
    }
  }

  /** No piece of `s.split(sep)` contains the separator. */
  lemma {:induction false} SplitOnPieces(s: string, sep: char)
    ensures forall k :: 0 <= k < |SplitOn(s, sep)| ==> sep !in SplitOn(s, sep)[k]
  {
    if |s| > 0 {
      SplitOnPieces(s[1..], sep);
      var rest := SplitOn(s[1..], sep);
      if s[0] != sep {
        assert forall k :: 1 <= k < |rest| ==> SplitOn(s, sep)[k] == rest[k];
      } else {
        assert forall k :: 1 <= k <= |rest| ==> SplitOn(s, sep)[k] == rest[k - 1];
      }
    }
  }

  /** A string holding the separator splits into at least two pieces. */
  lemma {:induction false} SplitOnSeveral(s: string, sep: char)
    requires sep in s
    ensures |SplitOn(s, sep)| >= 2
  {
    if s[0] != sep {
      assert sep in s[1..] by { var i :| 0 <= i < |s| && s[i] == sep; assert s[1..][i - 1] == sep; }
      SplitOnSeveral(s[1..], sep);
    }
  }

  /** Joining all pieces but the last, then the separator and the last
      piece, joins all of them. */
  lemma {:induction false} JoinInitLast(sep: string, parts: seq<string>)
    requires |parts| >= 2
    ensures Join(sep, parts[..|parts| - 1]) + sep + parts[|parts| - 1] == Join(sep, parts)
  {
    var n := |parts|;
    if n > 2 {
      JoinInitLast(sep, parts[1..]);
      assert parts[1..][..n - 2] == parts[..n - 1][1..];
      AppendAssoc(parts[0] + sep, Join(sep, parts[1..][..n - 2]), sep + parts[n - 1]);
      AppendAssoc(parts[0] + sep + Join(sep, parts[1..][..n - 2]), sep, parts[n - 1]);
      AppendAssoc(Join(sep, parts[1..][..n - 2]), sep, parts[n - 1]);
    }
  }

  // ---------------------------------------------------------------------
  // str.strip()

  /** The first position at or after `i` that is not whitespace. */
  function SkipSpaces(s: string, i: nat): (j: nat)
    requires i <= |s|
    ensures i <= j <= |s|
    ensures forall k :: i <= k < j ==> IsSpace(s[k])
    ensures j == |s| || !IsSpace(s[j])
    decreases |s| - i
  {
    if i < |s| && IsSpace(s[i]) then SkipSpaces(s, i + 1) else i
  }

  /** The end of `s[lo..j]` once its trailing whitespace is dropped. */
  function SkipSpacesBack(s: string, lo: nat, j: nat): (i: nat)
    requires lo <= j <= |s|
    ensures lo <= i <= j
    ensures forall k :: i <= k < j ==> IsSpace(s[k])
    ensures i == lo || !IsSpace(s[i - 1])
    decreases j
  {
    if j > lo && IsSpace(s[j - 1]) then SkipSpacesBack(s, lo, j - 1) else j
  }

  /** `str.strip()`: drop leading and trailing whitespace. */
  function Strip(s: string): (r: string)
    ensures |r| <= |s|
  {
    var i := SkipSpaces(s, 0);
    s[i..SkipSpacesBack(s, i, |s|)]
  }

  lemma StripOfStripped(s: string)
    requires |s| == 0 || (!IsSpace(s[0]) && !IsSpace(s[|s| - 1]))
    ensures Strip(s) == s
  {
  }

  /** The result of `strip` neither starts nor ends with whitespace. */
  lemma StripEnds(s: string)
    ensures |Strip(s)| == 0 || (!IsSpace(Strip(s)[0]) && !IsSpace(Strip(s)[|Strip(s)| - 1]))
  {
  }

  lemma StripIdempotent(s: string)
    ensures Strip(Strip(s)) == Strip(s)
  {
    StripEnds(s);
    StripOfStripped(Strip(s));
  }

  // ---------------------------------------------------------------------
  // Substrings

  predicate StartsWith(s: string, prefix: string)
  {
    |prefix| <= |s| && s[..|prefix|] == prefix
  }

  predicate EndsWith(s: string, suffix: string)
  {
    |suffix| <= |s| && s[|s| - |suffix|..] == suffix
  }

  /** `sub in s`; the empty string occurs in every string. */
  predicate Contains(s: string, sub: string)
    decreases |s|
  {
    StartsWith(s, sub) || (|s| > 0 && Contains(s[1..], sub))
  }

  /** `s.replace(old, new)`: non-overlapping occurrences, left to right; an
      empty `old` inserts `new` around every character. */
  function Replace(s: string, pattern: string, replacement: string): string
    decreases |s|
  {
    if |pattern| == 0 then
      if |s| == 0 then replacement else replacement + [s[0]] + Replace(s[1..], pattern, replacement)
    else if |s| == 0 then ""
    else if StartsWith(s, pattern) then replacement + Replace(s[|pattern|..], pattern, replacement)
    else [s[0]] + Replace(s[1..], pattern, replacement)
  }

  lemma {:induction false} ReplaceSelf(s: string, p: string)
    ensures Replace(s, p, p) == s
    decreases |s|
  {
    if |p| == 0 {
      if |s| > 0 {
        ReplaceSelf(s[1..], p);
        assert s == [s[0]] + s[1..];
      }
    } else if |s| > 0 {
      if StartsWith(s, p) {
        ReplaceSelf(s[|p|..], p);
        assert s == s[..|p|] + s[|p|..];
      } else {
        ReplaceSelf(s[1..], p);
        assert s == [s[0]] + s[1..];
      }
    }
  }

  lemma {:induction false} ReplaceAbsent(s: string, p: string, q: string)
    requires !Contains(s, p)
    ensures Replace(s, p, q) == s
    decreases |s|
  {
    if |s| > 0 {
      ReplaceAbsent(s[1..], p, q);
      assert s == [s[0]] + s[1..];
    }
  }

  /** A pattern whose first character is missing from `s` does not occur
      in it. */
  lemma {:induction false} AbsentFirstChar(s: string, p: string)
    requires |p| > 0 && forall i :: 0 <= i < |s| ==> s[i] != p[0]
    ensures !Contains(s, p)
    decreases |s|
  {
    if |s| > 0 {
      if |p| <= |s| {
        assert s[..|p|][0] == s[0];
      }
      AbsentFirstChar(s[1..], p);
    }
  }

  /** An occurrence at position `i` is an occurrence. */
  lemma {:induction false} ContainsAt(s: string, p: string, i: nat)
    requires i + |p| <= |s| && s[i..i + |p|] == p
    ensures Contains(s, p)
    decreases i
  {
    if i > 0 {
      assert s[1..][i - 1..i - 1 + |p|] == s[i..i + |p|];
      ContainsAt(s[1..], p, i - 1);
    }
  }

  /** Characters that cannot start the pattern are copied through. */
  lemma {:induction false} ReplaceSkip(s: string, p: string, q: string, n: nat)
    requires |p| > 0 && n <= |s| && forall i :: 0 <= i < n ==> s[i] != p[0]
    ensures Replace(s, p, q) == s[..n] + Replace(s[n..], p, q)
    decreases n
  {
    if n > 0 {
      assert !StartsWith(s, p) by {
        if |p| <= |s| {
          assert s[..|p|][0] == s[0];
        }
      }
      var t := s[1..];
      assert Replace(s, p, q) == [s[0]] + Replace(t, p, q);
      ReplaceSkip(t, p, q, n - 1);
      assert t[n - 1..] == s[n..];
      assert s[..n] == [s[0]] + t[..n - 1];
      AppendAssoc([s[0]], t[..n - 1], Replace(s[n..], p, q));
    }
  }

  /** `s.replace('-', '')`. */
  function RemoveHyphens(s: string): (r: string)
    ensures forall i :: 0 <= i < |r| ==> r[i] != '-'
  {
    if |s| == 0 then "" else (if s[0] == '-' then "" else [s[0]]) + RemoveHyphens(s[1..])
  }

  // ---------------------------------------------------------------------
  // str.title()

  /** `str.title()` with `previous_is_cased` carried along: a cased letter is
      upper-cased after an uncased character and lower-cased otherwise. */
  function TitleFrom(s: string, previousCased: bool): (r: string)
    ensures |r| == |s|
    ensures forall i :: 0 <= i < |s| ==> IsCased(r[i]) == IsCased(s[i])
    ensures forall i :: 0 <= i < |s| ==> !IsCased(s[i]) ==> r[i] == s[i]
  {
    if |s| == 0 then ""
    else
      var c := s[0];
      var mapped := if !IsCased(c) then c else if previousCased then ToLower(c) else ToUpper(c);
      [mapped] + TitleFrom(s[1..], IsCased(c))
  }

  function Title(s: string): string { TitleFrom(s, false) }

  lemma {:induction false} TitleFromIdempotent(s: string, previousCased: bool)
    ensures TitleFrom(TitleFrom(s, previousCased), previousCased) == TitleFrom(s, previousCased)
  {
    if |s| > 0 {
      var t := TitleFrom(s, previousCased);
      TitleFromIdempotent(s[1..], IsCased(s[0]));
      assert t[1..] == TitleFrom(s[1..], IsCased(s[0]));
      assert IsCased(t[0]) == IsCased(s[0]);
    }
  }

  lemma TitleIdempotent(s: string)
    ensures Title(Title(s)) == Title(s)
  {
    TitleFromIdempotent(s, false);
  }

  // ---------------------------------------------------------------------
  // Decimal numbers

  function DigitValue(c: char): nat requires IsDigit(c) { c as int - '0' as int }
  function DigitChar(d: nat): (c: char) requires d < 10 ensures IsDigit(c) && DigitValue(c) == d
  {
    ('0' as int + d) as char
  }

  /** The value of a string of decimal digits (leading zeros allowed). */
  function DigitsValue(s: string): nat
    requires AllDigits(s)
  {
    if |s| == 0 then 0 else DigitsValue(s[..|s| - 1]) * 10 + DigitValue(s[|s| - 1])
  }

  /** `str(n)` for a natural number. */
  function NatToString(n: nat): (r: string)
    ensures |r| > 0 && AllDigits(r)
  {
    if n < 10 then [DigitChar(n)] else NatToString(n / 10) + [DigitChar(n % 10)]
  }

  /** `str(i)` for an integer. */
  function IntToString(i: int): string
  {
    if i < 0 then "-" + NatToString(-i) else NatToString(i)
  }

  /** `int(s)` on a string: surrounding whitespace, an optional sign, and at
      least one decimal digit; anything else raises ValueError (None here).
      Underscores between digits, which Python also accepts, are not modelled. */
  function ParseInt(s: string): Option<int>
  {
    var t := Strip(s);
    if |t| > 0 && (t[0] == '-' || t[0] == '+') then
      if |t| > 1 && AllDigits(t[1..]) then
        var v: int := DigitsValue(t[1..]);
        Some(if t[0] == '-' then -v else v)
      else None
    else if |t| > 0 && AllDigits(t) then Some(DigitsValue(t))
    else None
  }

  lemma {:induction false} NatToStringValue(n: nat)
    ensures DigitsValue(NatToString(n)) == n
  {
    if n >= 10 {
      NatToStringValue(n / 10);
      var r := NatToString(n);
      assert r[..|r| - 1] == NatToString(n / 10);
    }
  }

  /** `int(str(i)) == i`: decimal printing and parsing are inverse. */
  lemma IntToStringRoundTrip(i: int)
    ensures ParseInt(IntToString(i)) == Some(i)
  {
    var s := IntToString(i);
    assert forall k :: 0 <= k < |s| ==> !IsSpace(s[k]);
    StripOfStripped(s);
    if i < 0 {
      NatToStringValue(-i);
      assert s[1..] == NatToString(-i);
    } else {
      NatToStringValue(i);
    }
  }

  /** `int(s)` of a run of decimal digits is its value. */
  lemma ParseDigits(s: string)
    requires |s| > 0 && AllDigits(s)
    ensures ParseInt(s) == Some(DigitsValue(s))
  {
    StripOfStripped(s);
  }
}
