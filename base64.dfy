/**
 * Base64 as defined in section 4 of RFC 4648 (the standard alphabet with
 * '=' padding), without line breaks: Android's `Base64.NO_WRAP` flavour.
 * An encoding is built in two layers: the bytes are cut into 6-bit values
 * (`Sextets`), the values are written as alphabet characters (`Render`) and
 * the padding is appended.
 */
module Base64 {
  import opened Wrappers
  import opened Utf8

  /** The padding character. */
  const Pad: char := '='

  /** The character of a 6-bit value (table 1 of RFC 4648). */
  function Symbol(v: int): (c: char)
    requires 0 <= v < 64
    ensures c != Pad && c != '?'
  {
    if v < 26 then ('A' as int + v) as char
    else if v < 52 then ('a' as int + v - 26) as char
    else if v < 62 then ('0' as int + v - 52) as char
    else if v == 62 then '+'
    else '/'
  }

  /** The 6-bit value of an alphabet character; `None` for any other character. */
  function SymbolValue(c: char): (r: Option<int>)
    ensures r.Some? ==> 0 <= r.value < 64
  {
    if 'A' <= c <= 'Z' then Some(c as int - 'A' as int)
    else if 'a' <= c <= 'z' then Some(c as int - 'a' as int + 26)
    else if '0' <= c <= '9' then Some(c as int - '0' as int + 52)
    else if c == '+' then Some(62)
    else if c == '/' then Some(63)
    else None
  }

  /** The alphabet's characters and values correspond one to one. */
  lemma SymbolValueOfSymbol(v: int)
    requires 0 <= v < 64
    ensures SymbolValue(Symbol(v)) == Some(v)
  {
  }

  ghost predicate AllSextets(vs: seq<int>)
  {
    forall i :: 0 <= i < |vs| ==> 0 <= vs[i] < 64
  }

  /** The 6-bit values of the encoding of `bs`, before padding. */
  function Sextets(bs: seq<Byte>): (vs: seq<int>)
    ensures AllSextets(vs) && |vs| % 4 != 1
  {
    if |bs| == 0 then []
    else if |bs| == 1 then [bs[0] / 4, (bs[0] % 4) * 16]
    else if |bs| == 2 then [bs[0] / 4, (bs[0] % 4) * 16 + bs[1] / 16, (bs[1] % 16) * 4]
    else
      [bs[0] / 4, (bs[0] % 4) * 16 + bs[1] / 16, (bs[1] % 16) * 4 + bs[2] / 64, bs[2] % 64]
      + Sextets(bs[3..])
  }

  /** The characters of 6-bit values. */
  function Render(vs: seq<int>): (s: string)
    requires AllSextets(vs)
    ensures |s| == |vs|
    ensures forall i :: 0 <= i < |s| ==> s[i] == Symbol(vs[i])
  {
    seq(|vs|, i requires 0 <= i < |vs| => Symbol(vs[i]))
  }

  /** The padding after the last group of an encoding of `n` bytes. */
  function Padding(n: nat): (p: string)
    ensures |p| == (3 - n % 3) % 3
    ensures forall i :: 0 <= i < |p| ==> p[i] == Pad
  {
    if n % 3 == 1 then [Pad, Pad] else if n % 3 == 2 then [Pad] else []
  }

  /** Four characters per started group of three bytes, once padded. */
  lemma {:induction false} SextetsLength(bs: seq<Byte>)
    ensures |Sextets(bs)| + |Padding(|bs|)| == 4 * ((|bs| + 2) / 3)
  {
    if |bs| >= 3 {
      var m := |bs| - 3;
      SextetsLength(bs[3..]);
      assert |Sextets(bs)| == 4 + |Sextets(bs[3..])|;
      assert |bs| % 3 == m % 3 && (|bs| + 2) / 3 == (m + 2) / 3 + 1;
    }
  }

  /** `Base64.encodeToString(bytes, Base64.NO_WRAP)`. */
  function Encode(bs: seq<Byte>): (s: string)
    ensures |s| == 4 * ((|bs| + 2) / 3) && |s| % 4 == 0
  {
    SextetsLength(bs);
    Render(Sextets(bs)) + Padding(|bs|)
  }

  /** The 6-bit values of alphabet characters; `None` if any character is not one. */
  function Values(s: string): (r: Option<seq<int>>)
    ensures r.Some? ==> |r.value| == |s| && AllSextets(r.value)
  {
    if s == [] then Some([])
    else match (SymbolValue(s[0]), Values(s[1..]))
      case (Some(v), Some(vs)) => Some([v] + vs)
      case _ => None
  }

  /** The bytes that 6-bit values stand for: three per four values, fewer at the end. */
  function Assemble(vs: seq<int>): (bs: seq<Byte>)
    requires AllSextets(vs) && |vs| % 4 != 1
  {
    if |vs| == 0 then []
    else if |vs| == 2 then [vs[0] * 4 + vs[1] / 16]
    else if |vs| == 3 then [vs[0] * 4 + vs[1] / 16, (vs[1] % 16) * 16 + vs[2] / 4]
    else
      [vs[0] * 4 + vs[1] / 16, (vs[1] % 16) * 16 + vs[2] / 4, (vs[2] % 4) * 64 + vs[3]]
      + Assemble(vs[4..])
  }

  /** The number of padding characters at the end of `s`, at most two. */
  function PadCount(s: string): (n: nat)
    ensures n <= 2 && n <= |s|
  {
    if |s| >= 2 && s[|s| - 1] == Pad && s[|s| - 2] == Pad then 2
    else if |s| >= 1 && s[|s| - 1] == Pad then 1
    else 0
  }

  /**
   * `Base64.decode(s, Base64.NO_WRAP)`, strictly: `None` (the decoder's
   * `IllegalArgumentException`) unless `s` is a whole number of 4-character
   * groups of alphabet characters with at most two padding characters at the end.
   */
  function Decode(s: string): (r: Option<seq<Byte>>)
    ensures |s| % 4 != 0 ==> r.None?
  {
    if |s| % 4 != 0 then None
    else
      match Values(s[..|s| - PadCount(s)])
      case None => None
      case Some(vs) => Some(Assemble(vs))
  }

  lemma {:induction false} ValuesOfRender(vs: seq<int>)
    requires AllSextets(vs)
    ensures Values(Render(vs)) == Some(vs)
  {
    if vs != [] {
      var s := Render(vs);
      assert s[1..] == Render(vs[1..]);
      SymbolValueOfSymbol(vs[0]);
      ValuesOfRender(vs[1..]);
      assert vs == [vs[0]] + vs[1..];
    }
  }

  /** The 6-bit values of a group put back together give its bytes. */
  lemma GroupArithmetic(b0: int, b1: int, b2: int)
    requires 0 <= b0 < 256 && 0 <= b1 < 256 && 0 <= b2 < 256
    ensures var v1 := (b0 % 4) * 16 + b1 / 16;
            var v2 := (b1 % 16) * 4 + b2 / 64;
            && (b0 / 4) * 4 + v1 / 16 == b0
            && (v1 % 16) * 16 + v2 / 4 == b1
            && (v2 % 4) * 64 + b2 % 64 == b2
  {
    var v1 := (b0 % 4) * 16 + b1 / 16;
    var v2 := (b1 % 16) * 4 + b2 / 64;
    assert v1 / 16 == b0 % 4 && v1 % 16 == b1 / 16;
    assert v2 / 4 == b1 % 16 && v2 % 4 == b2 / 64;
  }

  /** Assembling a full group of values, then the rest. */
  lemma AssembleFront(vs: seq<int>)
    requires AllSextets(vs) && |vs| % 4 != 1 && |vs| >= 4
    ensures Assemble(vs)
         == [vs[0] * 4 + vs[1] / 16, (vs[1] % 16) * 16 + vs[2] / 4, (vs[2] % 4) * 64 + vs[3]]
            + Assemble(vs[4..])
  {
  }

  lemma AssembleOne(b0: Byte)
    ensures Assemble(Sextets([b0])) == [b0]
  {
    GroupArithmetic(b0, 0, 0);
  }

  lemma AssembleTwo(b0: Byte, b1: Byte)
    ensures Assemble(Sextets([b0, b1])) == [b0, b1]
  {
    GroupArithmetic(b0, b1, 0);
  }

  lemma {:induction false} AssembleSextets(bs: seq<Byte>)
    ensures Assemble(Sextets(bs)) == bs
  {
    if |bs| == 1 {
      AssembleOne(bs[0]);
      assert bs == [bs[0]];
    } else if |bs| == 2 {
      AssembleTwo(bs[0], bs[1]);
      assert bs == [bs[0], bs[1]];
    } else if |bs| >= 3 {
      var vs := Sextets(bs);
      var rest := Sextets(bs[3..]);
      AssembleSextets(bs[3..]);
      assert vs[4..] == rest;
      AssembleFront(vs);
      GroupArithmetic(bs[0], bs[1], bs[2]);
      assert bs == [bs[0], bs[1], bs[2]] + bs[3..];
    }
  }

  /** Removing an encoding's padding leaves exactly its rendered values. */
  lemma PadCountOfEncode(bs: seq<Byte>)
    ensures var s := Encode(bs);
            s[..|s| - PadCount(s)] == Render(Sextets(bs))
  {
    var r := Render(Sextets(bs));
    var s := Encode(bs);
    assert s == r + Padding(|bs|);
    assert |r| > 0 ==> r[|r| - 1] != Pad;
    assert |r| > 1 ==> r[|r| - 2] != Pad;
  }

  /** With at most two padding characters removed, no group is left with one value. */
  lemma ValuesLength(s: string, vs: seq<int>)
    requires |s| % 4 == 0 && Values(s[..|s| - PadCount(s)]) == Some(vs)
    ensures AllSextets(vs) && |vs| % 4 != 1
  {
  }

  lemma DecodeOfValues(s: string, vs: seq<int>)
    requires |s| % 4 == 0 && Values(s[..|s| - PadCount(s)]) == Some(vs)
    requires AllSextets(vs) && |vs| % 4 != 1
    ensures Decode(s) == Some(Assemble(vs))
  {
  }

  /** Decoding an encoding gives the original bytes back. */
  lemma DecodeEncode(bs: seq<Byte>)
    ensures Decode(Encode(bs)) == Some(bs)
  {
    var vs := Sextets(bs);
    var s := Encode(bs);
    PadCountOfEncode(bs);
    ValuesOfRender(vs);
    AssembleSextets(bs);
    ValuesLength(s, vs);
    DecodeOfValues(s, vs);
  }

  /** An encoding never contains '?', so it cannot end the path part of a route. */
  lemma EncodeHasNoQuestionMark(bs: seq<Byte>)
    ensures '?' !in Encode(bs)
  {
    var r := Render(Sextets(bs));
    var s := Encode(bs);
    assert s == r + Padding(|bs|);
  }
}
