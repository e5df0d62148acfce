/**
 The outer layer of a consent string segment (classes `pe` and `ze` of
 docs/theme/c15t@2.0.0-rc.3.js): bits are padded with zeros to whole groups of 24
 and written as base64url digits, so a decoded segment carries a tail of padding.
 */
module TcSegment {
  import opened Prelude
  import opened TcBits
  import opened VendorVector
  import opened VendorCodec
  import Base64Url

  const BASIS: nat := 6
  const LCM: nat := 24

  function Padding(n: nat): (p: nat)
    ensures p < LCM && (n + p) % LCM == 0 && (n + p) % BASIS == 0
  {
    if n % LCM == 0 then 0 else LCM - n % LCM
  }

  lemma {:induction false} BitsBelow(b: Bits)
    ensures BitsValue(b) < Pow2(|b|)
  {
    if b != [] {
      BitsBelow(b[..|b| - 1]);
    }
  }

  lemma {:induction false} BitsValueInjective(a: Bits, b: Bits)
    requires |a| == |b| && BitsValue(a) == BitsValue(b)
    ensures a == b
  {
    if a != [] {
      BitsValueInjective(a[..|a| - 1], b[..|b| - 1]);
      assert a == a[..|a| - 1] + [a[|a| - 1]];
      assert b == b[..|b| - 1] + [b[|b| - 1]];
    }
  }

  /** Writing the value of a bit string at its own width gives the bit string back. */
  lemma IntBitsRoundTrip(b: Bits)
    requires b != []
    ensures EncodeInt(BitsValue(b), |b|) == Ok(b)
  {
    BitsBelow(b);
    FixedIntRoundTrip(BitsValue(b), |b|);
    BitsValueInjective(EncodeInt(BitsValue(b), |b|).value, b);
  }

  function Sextets(b: Bits): (s: string)
    requires |b| % BASIS == 0
  {
    if b == [] then ""
    else
      BitsBelow(b[..BASIS]);
      Widths();
      [Base64Url.Digit(BitsValue(b[..BASIS]))] + Sextets(b[BASIS..])
  }

  function SextetBits(s: string): (b: Bits)
    requires forall c :: c in s ==> Base64Url.IsDigit(c)
  {
    if s == "" then []
    else
      var v := Base64Url.Value(s[0]);
      (Widths(); FixedIntRoundTrip(v, BASIS); EncodeInt(v, BASIS).value) + SextetBits(s[1..])
  }

  function EncodeText(b: Bits): (r: Result<string, TcError>) {
    if b == [] then Err(EncodingError)
    else
      Ok(Sextets(b + Zeros(Padding(|b|))))
  }

  function DecodeText(s: string): (r: Result<Bits, TcError>) {
    if s == "" || exists i :: 0 <= i < |s| && !Base64Url.IsDigit(s[i]) then Err(DecodingError)
    else Ok(SextetBits(s))
  }

  lemma DigitRoundTrip(chunk: Bits)
    requires |chunk| == BASIS
    ensures BitsValue(chunk) < 64
    ensures var c := Base64Url.Digit(BitsValue(chunk));
            Base64Url.IsDigit(c) && EncodeInt(Base64Url.Value(c), BASIS) == Ok(chunk)
  {
    BitsBelow(chunk);
    Widths();
    Base64Url.DigitValue(BitsValue(chunk));
    IntBitsRoundTrip(chunk);
  }

  lemma {:induction false} SextetsRoundTrip(b: Bits)
    requires |b| % BASIS == 0
    ensures forall c :: c in Sextets(b) ==> Base64Url.IsDigit(c)
    ensures SextetBits(Sextets(b)) == b
    ensures b != [] ==> Sextets(b) != ""
  {
    if b != [] {
      var head := b[..BASIS];
      SextetsRoundTrip(b[BASIS..]);
      DigitRoundTrip(head);
      assert Sextets(b)[1..] == Sextets(b[BASIS..]);
      assert b == head + b[BASIS..];
    }
  }

  /** Reading back a written segment gives the bits and fewer than 24 zeros. */
  lemma TextRoundTrip(b: Bits)
    requires b != []
    ensures EncodeText(b).Ok?
    ensures DecodeText(EncodeText(b).value) == Ok(b + Zeros(Padding(|b|)))
  {
    SextetsRoundTrip(b + Zeros(Padding(|b|)));
    var s := EncodeText(b).value;
    assert forall i :: 0 <= i < |s| ==> s[i] in s;
  }

  lemma SextetsStep(out: string, b: Bits, s: nat)
    requires |b| % BASIS == 0 && s % BASIS == 0 && s < |b|
    ensures s + BASIS <= |b| && BitsValue(Substr(b, s, BASIS)) < 64
    ensures out + Sextets(b[s..])
            == out + [Base64Url.Digit(BitsValue(Substr(b, s, BASIS)))] + Sextets(b[s + BASIS..])
  {
    var chunk := Substr(b, s, BASIS);
    BitsBelow(chunk);
    Widths();
    assert b[s..][..BASIS] == chunk && b[s..][BASIS..] == b[s + BASIS..];
    var digit, rest := Base64Url.Digit(BitsValue(chunk)), Sextets(b[s + BASIS..]);
    assert out + ([digit] + rest) == out + [digit] + rest;
  }

  /** The text encoder: pads, then appends one digit for every six bits. */
  method WriteText(bits: Bits) returns (r: Result<string, TcError>)
    ensures r == EncodeText(bits)
  {
    if bits == [] {
      return Err(EncodingError);
    }
    var out := WriteSextets(bits + Zeros(Padding(|bits|)));
    return Ok(out);
  }

  method WriteSextets(b: Bits) returns (out: string)
    requires |b| % BASIS == 0
    ensures out == Sextets(b)
  {
    out := "";
    var s: nat := 0;
    assert b[0..] == b;
    while s < |b|
      invariant s <= |b| && s % BASIS == 0
      invariant out + Sextets(b[s..]) == Sextets(b)
    {
      SextetsStep(out, b, s);
      out := out + [Base64Url.Digit(BitsValue(Substr(b, s, BASIS)))];
      s := s + BASIS;
    }
    assert b[|b|..] == [] && out + "" == out;
  }

  const VENDORS_DISCLOSED := 1

  /** A vendors-disclosed segment: its segment type, then the vendor vector. */
  function EncodeDisclosed(ids: set<nat>, maxId: nat): (r: Result<string, TcError>) {
    var segmentType :- EncodeInt(VENDORS_DISCLOSED, SEGMENT_TYPE_BITS);
    var vendors :- EncodeVendors(ids, maxId);
    EncodeText(segmentType + vendors)
  }

  function DecodeDisclosed(s: string): (r: Result<Decoded, TcError>) {
    var bits :- DecodeText(s);
    DecodeVendors(Substr(bits, SEGMENT_TYPE_BITS, |bits|), 2)
  }

  /** A disclosed-vendors segment survives the whole path through text, padding included. */
  lemma DisclosedRoundTrip(ids: set<nat>, maxId: nat)
    requires IsMaximum(ids, maxId) && maxId < 65536 && !OverflowsEntryCount(ids, maxId)
    ensures EncodeDisclosed(ids, maxId).Ok?
    ensures DecodeDisclosed(EncodeDisclosed(ids, maxId).value).Ok?
    ensures DecodeDisclosed(EncodeDisclosed(ids, maxId).value).value.ids == ids
  {
    EncodeSucceedsIff(ids, maxId);
    Widths();
    FixedIntRoundTrip(VENDORS_DISCLOSED, SEGMENT_TYPE_BITS);
    var segmentType, vendors := EncodeInt(VENDORS_DISCLOSED, SEGMENT_TYPE_BITS).value, EncodeVendors(ids, maxId).value;
    var b := segmentType + vendors;
    TextRoundTrip(b);
    var pad := Zeros(Padding(|b|));
    assert (b + pad)[SEGMENT_TYPE_BITS..] == vendors + pad;
    VendorRoundTrip(ids, maxId, pad);
  }
}
