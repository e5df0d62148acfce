/** UTF-8 (RFC 3629): a text and its bytes, with the strict decoder. */
module Utf8 {
  import opened Prelude

  type Byte = b: int | 0 <= b < 256

  function EncodeChar(c: char): (bs: seq<Byte>)
    ensures 1 <= |bs| <= 4
  {
    var v := c as int;
    if v < 0x80 then [v]
    else if v < 0x800 then [0xC0 + High(v), Low(v)]
    else if v < 0x10000 then [0xE0 + High(High(v)), Low(High(v)), Low(v)]
    else [0xF0 + High(High(High(v))), Low(High(High(v))), Low(High(v)), Low(v)]
  }

  /** All but the last six bits. */
  function High(v: int): (h: int) {
    v / 64
  }

  /** The continuation byte of the last six bits. */
  function Low(v: int): (b: Byte)
    ensures Continues(b)
  {
    0x80 + v % 64
  }

  function Join(high: int, b: Byte): (v: int) {
    high * 64 + (b as int - 0x80)
  }

  /** The bytes of a text. */
  function Encode(s: string): (bs: seq<Byte>) {
    if s == "" then [] else EncodeChar(s[0]) + Encode(s[1..])
  }

  predicate Continues(b: Byte) {
    0x80 <= b < 0xC0
  }

  /** A scalar value that needs at least `least`: no overlong form, no surrogate, nothing past U+10FFFF. */
  function Scalar(v: int, least: int, width: nat): (r: Option<(char, nat)>) {
    if least <= v && (0 <= v < 0xD800 || 0xE000 <= v < 0x11_0000) then Some((v as char, width)) else None
  }

  /** The first character and how many bytes it takes. */
  function DecodeFirst(bs: seq<Byte>): (r: Option<(char, nat)>) {
    if bs == [] then None
    else if bs[0] < 0x80 then Scalar(bs[0], 0, 1)
    else if bs[0] < 0xC0 then None
    else if bs[0] < 0xE0 then
      if |bs| >= 2 && Continues(bs[1]) then Scalar(Join(bs[0] as int - 0xC0, bs[1]), 0x80, 2) else None
    else if bs[0] < 0xF0 then
      if |bs| >= 3 && Continues(bs[1]) && Continues(bs[2]) then
        Scalar(Join(Join(bs[0] as int - 0xE0, bs[1]), bs[2]), 0x800, 3)
      else None
    else if bs[0] < 0xF8 then
      if |bs| >= 4 && Continues(bs[1]) && Continues(bs[2]) && Continues(bs[3]) then
        Scalar(Join(Join(Join(bs[0] as int - 0xF0, bs[1]), bs[2]), bs[3]), 0x10000, 4)
      else None
    else None
  }

  lemma JoinHighLow(v: int)
    ensures Join(High(v), Low(v)) == v
  {
  }

  lemma HighLowJoin(high: int, b: Byte)
    requires Continues(b)
    ensures High(Join(high, b)) == high && Low(Join(high, b)) == b
  {
  }

  lemma FirstRoundTrip(c: char, rest: seq<Byte>)
    ensures DecodeFirst(EncodeChar(c) + rest) == Some((c, |EncodeChar(c)|))
  {
    var v := c as int;
    JoinHighLow(v);
    JoinHighLow(High(v));
    JoinHighLow(High(High(v)));
    var bs := EncodeChar(c) + rest;
    assert forall i :: 0 <= i < |EncodeChar(c)| ==> bs[i] == EncodeChar(c)[i];
  }

  lemma Exact2(a: Byte, b: Byte)
    requires 0xC0 <= a < 0xE0 && Continues(b)
    ensures var r := Scalar(Join(a as int - 0xC0, b), 0x80, 2); r.Some? ==> EncodeChar(r.value.0) == [a, b]
  {
    HighLowJoin(a as int - 0xC0, b);
  }

  lemma Exact3(a: Byte, b: Byte, c: Byte)
    requires 0xE0 <= a < 0xF0 && Continues(b) && Continues(c)
    ensures var r := Scalar(Join(Join(a as int - 0xE0, b), c), 0x800, 3); r.Some? ==> EncodeChar(r.value.0) == [a, b, c]
  {
    HighLowJoin(a as int - 0xE0, b);
    HighLowJoin(Join(a as int - 0xE0, b), c);
  }

  lemma Exact4(a: Byte, b: Byte, c: Byte, d: Byte)
    requires 0xF0 <= a < 0xF8 && Continues(b) && Continues(c) && Continues(d)
    ensures var r := Scalar(Join(Join(Join(a as int - 0xF0, b), c), d), 0x10000, 4);
            r.Some? ==> EncodeChar(r.value.0) == [a, b, c, d]
  {
    HighLowJoin(a as int - 0xF0, b);
    HighLowJoin(Join(a as int - 0xF0, b), c);
    HighLowJoin(Join(Join(a as int - 0xF0, b), c), d);
  }

  lemma FirstExact(bs: seq<Byte>)
    requires DecodeFirst(bs).Some?
    ensures var (c, n) := DecodeFirst(bs).value; 0 < n <= |bs| && bs[..n] == EncodeChar(c)
  {
    if bs[0] < 0x80 {
      assert bs[..1] == [bs[0]];
    } else if bs[0] < 0xE0 {
      Exact2(bs[0], bs[1]);
      assert bs[..2] == [bs[0], bs[1]];
    } else if bs[0] < 0xF0 {
      Exact3(bs[0], bs[1], bs[2]);
      assert bs[..3] == [bs[0], bs[1], bs[2]];
    } else {
      Exact4(bs[0], bs[1], bs[2], bs[3]);
      assert bs[..4] == [bs[0], bs[1], bs[2], bs[3]];
    }
  }

  /** One character of each length (section 7 of RFC 3629). */
  lemma EncodeExamples()
    ensures EncodeChar('A') == [0x41]
    ensures EncodeChar('\U{391}') == [0xCE, 0x91]
    ensures EncodeChar('\U{2262}') == [0xE2, 0x89, 0xA2]
    ensures EncodeChar('\U{233B4}') == [0xF0, 0xA3, 0x8E, 0xB4]
  {
  }

  /** The text the bytes encode, if they are valid. */
  function Decode(bs: seq<Byte>): (r: Option<string>)
    decreases |bs|
  {
    if bs == [] then Some("")
    else
      var first := DecodeFirst(bs);
      if first.None? then None
      else
        FirstExact(bs);
        var rest := Decode(bs[first.value.1..]);
        if rest.None? then None else Some([first.value.0] + rest.value)
  }

  lemma {:induction false} EncodeThenDecode(s: string)
    ensures Decode(Encode(s)) == Some(s)
  {
    if s != "" {
      FirstRoundTrip(s[0], Encode(s[1..]));
      EncodeThenDecode(s[1..]);
      assert Encode(s)[|EncodeChar(s[0])|..] == Encode(s[1..]);
      assert [s[0]] + s[1..] == s;
    }
  }

  /** Exactly the encodings decode. */
  lemma {:induction false} DecodeExact(bs: seq<Byte>, s: string)
    ensures Decode(bs) == Some(s) <==> bs == Encode(s)
    decreases |bs|
  {
    EncodeThenDecode(s);
    if Decode(bs) == Some(s) && bs != [] {
      FirstExact(bs);
      var n := DecodeFirst(bs).value.1;
      DecodeExact(bs[n..], s[1..]);
      assert bs == bs[..n] + bs[n..];
    }
  }

  lemma NotDecodedIff(bs: seq<Byte>)
    ensures Decode(bs).None? <==> forall s :: bs != Encode(s)
  {
    if Decode(bs).Some? {
      DecodeExact(bs, Decode(bs).value);
    }
    forall s | bs == Encode(s)
      ensures Decode(bs) == Some(s)
    {
      DecodeExact(bs, s);
    }
  }

  lemma {:induction false} EncodeMaps(s: string)
    ensures Encode(s) == FlatMap(s, EncodeChar)
  {
    if s != "" {
      EncodeMaps(s[1..]);
    }
  }

  lemma EncodeAppend(s: string, t: string)
    ensures Encode(s + t) == Encode(s) + Encode(t)
  {
    EncodeMaps(s);
    EncodeMaps(t);
    EncodeMaps(s + t);
    FlatMapConcat(s, t, EncodeChar);
  }

  // ---- Slicing a text at a byte offset ---------------------------------------

  /** The byte offset falls between two characters; slicing there does not panic. */
  ghost predicate IsBoundary(s: string, end: nat) {
    exists p: nat :: p <= |s| && |Encode(s[..p])| == end
  }

  /** The character index of a byte offset. */
  function CharIndex(s: string, end: nat): (p: nat)
    ensures p <= |s|
  {
    if s == "" || end == 0 then 0
    else
      var width := |EncodeChar(s[0])|;
      1 + CharIndex(s[1..], if end >= width then end - width else 0)
  }

  lemma {:induction false} BoundaryIndex(s: string, end: nat, p: nat)
    requires p <= |s| && |Encode(s[..p])| == end
    ensures CharIndex(s, end) == p && end <= |Encode(s)|
    ensures Encode(s)[..end] == Encode(s[..p]) && Encode(s)[end..] == Encode(s[p..])
  {
    assert s == s[..p] + s[p..];
    EncodeAppend(s[..p], s[p..]);
    if p > 0 {
      var prefix := s[..p];
      assert prefix[1..] == s[1..][..p - 1];
      BoundaryIndex(s[1..], |Encode(prefix[1..])|, p - 1);
    }
  }

  /** An offset just behind an ASCII byte is a boundary. */
  lemma {:induction false} AfterAscii(s: string, end: nat)
    requires 0 < end <= |Encode(s)| && Encode(s)[end - 1] < 0x80
    ensures IsBoundary(s, end)
  {
    var first := EncodeChar(s[0]);
    assert Encode(s) == first + Encode(s[1..]);
    if end <= |first| {
      assert first[end - 1] < 0x80;
      assert |first| == 1;
      assert Encode(s[..1]) == first + Encode(s[..1][1..]);
      assert s[..1][1..] == "";
    } else {
      AfterAscii(s[1..], end - |first|);
      var p: nat :| p <= |s[1..]| && |Encode(s[1..][..p])| == end - |first|;
      assert s[..p + 1][1..] == s[1..][..p];
      assert |Encode(s[..p + 1])| == end;
    }
  }
}
