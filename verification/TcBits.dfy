/**
 The primitive encoders of the consent bundle: fixed-width integers, booleans
 and bit fields over strings of bits (docs/theme/c15t@2.0.0-rc.3.js). A bit
 string is a sequence of booleans, most significant bit first.
 */
module TcBits {
  import opened Prelude

  type Bits = seq<bool>

  datatype TcError = EncodingError | DecodingError | ModelError | InvalidRestriction | MissingVendorList

  const MAX_ID_BITS: nat := 16
  const ENCODING_TYPE_BITS: nat := 1
  const NUM_ENTRIES_BITS: nat := 12
  const NUM_RESTRICTIONS_BITS: nat := 12
  const PURPOSE_ID_BITS: nat := 6
  const RESTRICTION_TYPE_BITS: nat := 2
  const SINGLE_OR_RANGE_BITS: nat := 1
  const VENDOR_ID_BITS: nat := 16
  const SEGMENT_TYPE_BITS: nat := 3

  function Pow2(n: nat): (p: nat)
    ensures p > 0
  {
    if n == 0 then 1 else 2 * Pow2(n - 1)
  }

  function Zeros(n: nat): (z: Bits)
    ensures |z| == n && forall i :: 0 <= i < n ==> !z[i]
  {
    seq(n, _ => false)
  }

  /** `v.toString(2)`: no leading zero, except that zero is a single digit. */
  function ToBinary(v: nat): (b: Bits)
    ensures |b| > 0
  {
    if v < 2 then [v == 1] else ToBinary(v / 2) + [v % 2 == 1]
  }

  /** `parseInt(b, 2)` on a string of bits. */
  function BitsValue(b: Bits): (v: nat) {
    if b == [] then 0
    else 2 * BitsValue(b[..|b| - 1]) + if b[|b| - 1] then 1 else 0
  }

  function EncodeInt(v: int, width: nat): (r: Result<Bits, TcError>) {
    if v < 0 || |ToBinary(v)| > width then Err(EncodingError)
    else Ok(Zeros(width - |ToBinary(v)|) + ToBinary(v))
  }

  function DecodeInt(b: Bits, width: nat): (r: Result<nat, TcError>) {
    if |b| != width then Err(DecodingError) else Ok(BitsValue(b))
  }

  /** JavaScript's `substr(start, length)`: clipped at the end of the string. */
  function Substr(b: Bits, start: nat, length: nat): (s: Bits)
    ensures |s| <= length
    ensures start + length <= |b| ==> s == b[start..start + length]
  {
    if start >= |b| then []
    else if start + length <= |b| then b[start..start + length]
    else b[start..]
  }

  /** The boolean decoder: only the one-character string "1" is true. */
  predicate DecodeBool(b: Bits) {
    b == [true]
  }

  lemma {:induction false} ToBinaryValue(v: nat)
    ensures BitsValue(ToBinary(v)) == v
  {
    if v < 2 {
      assert ToBinary(v) == [v == 1];
      assert ToBinary(v)[..0] == [];
    } else {
      ToBinaryValue(v / 2);
      var b := ToBinary(v);
      assert b[..|b| - 1] == ToBinary(v / 2);
    }
  }

  /** A binary numeral fits in `width` digits exactly when the number is below 2^width. */
  lemma {:induction false} ToBinaryLength(v: nat, width: nat)
    requires width > 0
    ensures |ToBinary(v)| <= width <==> v < Pow2(width)
  {
    if v < 2 {
      assert Pow2(width) == 2 * Pow2(width - 1);
    } else if width == 1 {
      assert Pow2(1) == 2 * Pow2(0);
    } else {
      ToBinaryLength(v / 2, width - 1);
    }
  }

  lemma {:induction false} LeadingZeros(n: nat, b: Bits)
    ensures BitsValue(Zeros(n) + b) == BitsValue(b)
  {
    if b == [] {
      if n > 0 {
        LeadingZeros(n - 1, []);
        assert (Zeros(n) + [])[..n - 1] == Zeros(n - 1) + [];
      }
    } else {
      LeadingZeros(n, b[..|b| - 1]);
      assert (Zeros(n) + b)[..n + |b| - 1] == Zeros(n) + b[..|b| - 1];
    }
  }

  /** Fixed-width integers encode exactly the numbers that fit, and decode back. */
  lemma FixedIntRoundTrip(v: int, width: nat)
    requires width > 0
    ensures EncodeInt(v, width).Ok? <==> 0 <= v < Pow2(width)
    ensures EncodeInt(v, width).Ok? ==>
              && |EncodeInt(v, width).value| == width
              && DecodeInt(EncodeInt(v, width).value, width) == Ok(v)
  {
    if v >= 0 {
      ToBinaryLength(v, width);
      if v < Pow2(width) {
        ToBinaryValue(v);
        LeadingZeros(width - |ToBinary(v)|, ToBinary(v));
      }
    }
  }

  lemma Widths()
    ensures Pow2(2) == 4 && Pow2(3) == 8 && Pow2(6) == 64
    ensures Pow2(12) == 4096 && Pow2(16) == 65536
  {
    assert Pow2(4) == 16;
    assert Pow2(8) == 256;
    assert Pow2(12) == 4096;
  }

  // ---- Reading from the front of a bit string ------------------------------

  /** A value read from a bit string, and the bits after it. */
  datatype Read<+T> = Read(value: T, rest: Bits)

  /** Reads a fixed-width integer: what `DecodeInt` of a clipped `Substr` at a cursor does. */
  function ReadInt(b: Bits, width: nat): (r: Result<Read<nat>, TcError>)
    ensures r.Ok? ==> |r.value.rest| == |b| - width
  {
    if |b| < width then Err(DecodingError) else Ok(Read(BitsValue(b[..width]), b[width..]))
  }

  /** Reads a flag: past the end of the string the flag is false. */
  function ReadBool(b: Bits): (r: Read<bool>) {
    if b == [] then Read(false, []) else Read(b[0], b[1..])
  }

  /** What was written is read back, and what follows is left. */
  lemma ReadIntBack(v: int, width: nat, tail: Bits)
    requires width > 0 && EncodeInt(v, width).Ok?
    ensures |EncodeInt(v, width).value| == width && v >= 0
    ensures ReadInt(EncodeInt(v, width).value + tail, width) == Ok(Read(v, tail))
  {
    FixedIntRoundTrip(v, width);
    var e := EncodeInt(v, width).value;
    assert (e + tail)[..width] == e && (e + tail)[width..] == tail;
  }

  /** Reading at a cursor is reading from the front of the suffix. */
  lemma CursorRead(b: Bits, pos: nat, width: nat)
    requires pos <= |b|
    ensures DecodeInt(Substr(b, pos, width), width).Ok? <==> ReadInt(b[pos..], width).Ok?
    ensures ReadInt(b[pos..], width).Ok? ==>
              && pos + width <= |b|
              && ReadInt(b[pos..], width) == Ok(Read(DecodeInt(Substr(b, pos, width), width).value, b[pos + width..]))
  {
    if pos + width <= |b| {
      assert b[pos..][..width] == b[pos..pos + width];
      assert b[pos..][width..] == b[pos + width..];
    }
  }

  lemma CursorReadBool(b: Bits, pos: nat)
    requires pos <= |b|
    ensures DecodeBool(Substr(b, pos, 1)) == ReadBool(b[pos..]).value
    ensures pos < |b| ==> ReadBool(b[pos..]).rest == b[pos + 1..]
    ensures pos == |b| ==> ReadBool(b[pos..]).rest == []
  {
  }
}
