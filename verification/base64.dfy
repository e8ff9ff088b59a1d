/** Base64 with the standard alphabet and `=` padding, as section 4 of
    RFC 4648 defines it and Python's `base64.b64encode` produces it. */
module Base64 {
  import opened Base

  type Byte = x: int | 0 <= x < 256
  type Sextet = x: int | 0 <= x < 64

  /** The value-to-character table of section 4 of RFC 4648. */
  function Letter(i: Sextet): char
  {
    if i < 26 then ('A' as int + i) as char
    else if i < 52 then ('a' as int + (i - 26)) as char
    else if i < 62 then ('0' as int + (i - 52)) as char
    else if i == 62 then '+'
    else '/'
  }

  /** The character-to-value table; `None` outside the alphabet. */
  function LetterValue(c: char): (r: Option<Sextet>)
    ensures r.Some? ==> Letter(r.value) == c
  {
    if 'A' <= c <= 'Z' then Some(c as int - 'A' as int)
    else if 'a' <= c <= 'z' then Some(c as int - 'a' as int + 26)
    else if '0' <= c <= '9' then Some(c as int - '0' as int + 52)
    else if c == '+' then Some(62)
    else if c == '/' then Some(63)
    else None
  }

  lemma LetterValueOfLetter(i: Sextet)
    ensures LetterValue(Letter(i)) == Some(i)
  {
  }

  /** Three bytes become four characters. */
  function EncodeGroup(b0: Byte, b1: Byte, b2: Byte): string
  {
    [Letter(b0 / 4), Letter((b0 % 4) * 16 + b1 / 16),
     Letter((b1 % 16) * 4 + b2 / 64), Letter(b2 % 64)]
  }

  /** The encoding of `data`; a final group of one or two bytes is padded
      with `==` or `=`. */
  function Encode(data: seq<Byte>): (r: string)
    ensures |r| == 4 * ((|data| + 2) / 3)
  {
    if |data| == 0 then ""
    else if |data| == 1 then
      [Letter(data[0] / 4), Letter((data[0] % 4) * 16), '=', '=']
    else if |data| == 2 then
      [Letter(data[0] / 4), Letter((data[0] % 4) * 16 + data[1] / 16), Letter((data[1] % 16) * 4), '=']
    else EncodeGroup(data[0], data[1], data[2]) + Encode(data[3..])
  }

  /** Four characters without padding back to three bytes. */
  function DecodeGroup(s: string): Option<seq<Byte>>
    requires |s| == 4
  {
    match (LetterValue(s[0]), LetterValue(s[1]), LetterValue(s[2]), LetterValue(s[3]))
    case (Some(c0), Some(c1), Some(c2), Some(c3)) =>
      var a0: int, a1: int, a2: int, a3: int := c0, c1, c2, c3;
      Some([a0 * 4 + a1 / 16, (a1 % 16) * 16 + a2 / 4, (a2 % 4) * 64 + a3])
    case _ => None
  }

  /** The inverse of `Encode`: `None` for text that is not a well-formed
      padded encoding. */
  function Decode(s: string): Option<seq<Byte>>
    decreases |s|
  {
    if |s| == 0 then Some([])
    else if |s| < 4 then None
    else if |s| == 4 && s[2] == '=' && s[3] == '=' then
      match (LetterValue(s[0]), LetterValue(s[1]))
      case (Some(c0), Some(c1)) =>
        var a0: int, a1: int := c0, c1;
        if a1 % 16 == 0 then Some([a0 * 4 + a1 / 16]) else None
      case _ => None
    else if |s| == 4 && s[3] == '=' then
      match (LetterValue(s[0]), LetterValue(s[1]), LetterValue(s[2]))
      case (Some(c0), Some(c1), Some(c2)) =>
        var a0: int, a1: int, a2: int := c0, c1, c2;
        if a2 % 4 == 0 then Some([a0 * 4 + a1 / 16, (a1 % 16) * 16 + a2 / 4]) else None
      case _ => None
    else
      match DecodeGroup(s[..4])
      case None => None
      case Some(g) =>
        match Decode(s[4..])
        case None => None
        case Some(rest) => Some(g + rest)
  }

  lemma DecodeEncodeGroup(b0: Byte, b1: Byte, b2: Byte)
    ensures DecodeGroup(EncodeGroup(b0, b1, b2)) == Some([b0, b1, b2])
  {
    var c0: int := b0 / 4;
    var c1: int := (b0 % 4) * 16 + b1 / 16;
    var c2: int := (b1 % 16) * 4 + b2 / 64;
    var c3: int := b2 % 64;
    DecodeLetters(c0, c1, c2, c3);
    PackDivMod(b0 % 4, b1 / 16);
    PackDivMod(b1 % 16, b2 / 64);
    assert c0 * 4 + c1 / 16 == b0;
    assert (c1 % 16) * 16 + c2 / 4 == b1;
    assert (c2 % 4) * 64 + c3 == b2;
  }

  /** Four letters decode to the three bytes their sextets pack. */
  lemma DecodeLetters(c0: Sextet, c1: Sextet, c2: Sextet, c3: Sextet)
    ensures DecodeGroup([Letter(c0), Letter(c1), Letter(c2), Letter(c3)])
         == Some([c0 * 4 + c1 / 16, (c1 % 16) * 16 + c2 / 4, (c2 % 4) * 64 + c3])
  {
    LetterValueOfLetter(c0);
    LetterValueOfLetter(c1);
    LetterValueOfLetter(c2);
    LetterValueOfLetter(c3);
  }

  /** Packing a high part above a low part and splitting again gives both
      parts back, for the two widths a group uses. */
  lemma PackDivMod(hi: nat, lo: nat)
    requires lo < 16
    ensures (hi * 16 + lo) / 16 == hi && (hi * 16 + lo) % 16 == lo
    ensures lo < 4 ==> (hi * 4 + lo) / 4 == hi && (hi * 4 + lo) % 4 == lo
  {
  }

  lemma DecodeEncodeOne(b0: Byte)
    ensures Decode(Encode([b0])) == Some([b0])
  {
    LetterValueOfLetter(b0 / 4);
    LetterValueOfLetter((b0 % 4) * 16);
  }

  lemma DecodeEncodeTwo(b0: Byte, b1: Byte)
    ensures Decode(Encode([b0, b1])) == Some([b0, b1])
  {
    var s := Encode([b0, b1]);
    var c1: int := (b0 % 4) * 16 + b1 / 16;
    var c2: int := (b1 % 16) * 4;
    LetterValueOfLetter(b0 / 4);
    LetterValueOfLetter(c1);
    LetterValueOfLetter(c2);
    assert c1 / 16 == b0 % 4 && c1 % 16 == b1 / 16;
    assert c2 / 4 == b1 % 16 && c2 % 4 == 0;
    assert s[2] != '=' && s[3] == '=';
  }

  lemma DecodeConcat(g: string, rest: string)
    requires |g| == 4 && g[3] != '=' && DecodeGroup(g).Some?
    ensures Decode(g + rest) ==
      if Decode(rest).Some? then Some(DecodeGroup(g).value + Decode(rest).value) else None
  {
    var s := g + rest;
    assert s[..4] == g;
    assert s[4..] == rest;
    assert s[3] != '=';
  }

  /** Decoding an encoding gives the bytes back (section 4 of RFC 4648 is a
      bijection onto padded text). */
  lemma {:induction false} DecodeEncode(data: seq<Byte>)
    ensures Decode(Encode(data)) == Some(data)
    decreases |data|
  {
    if |data| == 1 {
      DecodeEncodeOne(data[0]);
      assert data == [data[0]];
    } else if |data| == 2 {
      DecodeEncodeTwo(data[0], data[1]);
      assert data == [data[0], data[1]];
    } else if |data| >= 3 {
      DecodeEncode(data[3..]);
      DecodeEncodeStep(data);
    }
  }

  /** A full group in front of text that decodes is decoded in front of
      its bytes. */
  lemma DecodeEncodeStep(data: seq<Byte>)
    requires |data| >= 3 && Decode(Encode(data[3..])) == Some(data[3..])
    ensures Decode(Encode(data)) == Some(data)
  {
    var g := EncodeGroup(data[0], data[1], data[2]);
    EncodeCons(data);
    EncodeGroupFacts(data[0], data[1], data[2]);
    DecodeInFront(g, [data[0], data[1], data[2]], Encode(data[3..]), data[3..]);
    SplitThree(data);
  }

  lemma EncodeCons(data: seq<Byte>)
    requires |data| >= 3
    ensures Encode(data) == EncodeGroup(data[0], data[1], data[2]) + Encode(data[3..])
  {
  }

  /** An encoded group is four letters, none of them padding, and decodes
      to its bytes. */
  lemma EncodeGroupFacts(b0: Byte, b1: Byte, b2: Byte)
    ensures |EncodeGroup(b0, b1, b2)| == 4 && EncodeGroup(b0, b1, b2)[3] != '='
    ensures DecodeGroup(EncodeGroup(b0, b1, b2)) == Some([b0, b1, b2])
  {
    DecodeEncodeGroup(b0, b1, b2);
  }

  lemma DecodeInFront(g: string, bytes: seq<Byte>, rest: string, restBytes: seq<Byte>)
    requires |g| == 4 && g[3] != '=' && DecodeGroup(g) == Some(bytes)
    requires Decode(rest) == Some(restBytes)
    ensures Decode(g + rest) == Some(bytes + restBytes)
  {
    DecodeConcat(g, rest);
  }
}
