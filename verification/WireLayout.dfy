/**
 Where the bits of a consent string lie (docs/theme/c15t@2.0.0-rc.3.js): the digits of an integer, the
 fields of a vendor vector, of the publisher restrictions and of a segment, and the text digits.
 */
module WireLayout {
  import opened Prelude
  import opened TcBits
  import opened VendorVector
  import opened VendorRuns
  import opened VendorCodec
  import opened RestrictionRanges
  import opened RestrictionCodec
  import opened TcSegment
  import Base64Url

  // ---- Integers ------------------------------------------------------------

  lemma AtLeastOnce(k: nat, d: nat)
    requires k >= 1
    ensures k * d >= d
  {
  }

  lemma QuotientIs(x: nat, d: nat, q: nat, r: nat)
    requires x == q * d + r && r < d
    ensures x / d == q
  {
    var y, s := x / d, x % d;
    assert x == y * d + s;
    assert (y - q) * d == y * d - q * d && (q - y) * d == q * d - y * d;
    if y > q {
      AtLeastOnce(y - q, d);
    } else if y < q {
      AtLeastOnce(q - y, d);
    }
  }

  lemma DivideTwice(x: nat, p: nat)
    requires p > 0
    ensures (x / 2) / p == x / (2 * p)
  {
    var q, r := (x / 2) / p, (x / 2) % p;
    assert x / 2 == q * p + r;
    assert x == q * (2 * p) + (2 * r + x % 2);
    QuotientIs(x, 2 * p, q, 2 * r + x % 2);
  }

  /** The value weighs the bits from the most significant one. */
  lemma {:induction false} BitAt(b: Bits, i: nat)
    requires i < |b|
    ensures b[i] <==> BitsValue(b) / Pow2(|b| - 1 - i) % 2 == 1
  {
    var init := b[..|b| - 1];
    assert BitsValue(b) / 2 == BitsValue(init);
    if i == |b| - 1 {
      assert Pow2(0) == 1;
    } else {
      BitAt(init, i);
      DivideTwice(BitsValue(b), Pow2(|b| - 2 - i));
    }
  }

  /** An integer is written in binary, most significant bit first. */
  lemma IntegerBits(v: nat, width: nat, i: nat)
    requires i < width && v < Pow2(width)
    ensures EncodeInt(v, width).Ok? && |EncodeInt(v, width).value| == width
    ensures EncodeInt(v, width).value[i] <==> v / Pow2(width - 1 - i) % 2 == 1
  {
    FixedIntRoundTrip(v, width);
    BitAt(EncodeInt(v, width).value, i);
  }

  /** The bits of an integer that fits. */
  function Num(v: nat, width: nat): (b: Bits) {
    seq(width, i requires 0 <= i < width => v / Pow2(width - 1 - i) % 2 == 1)
  }

  lemma NumIs(v: nat, width: nat)
    requires EncodeInt(v, width).Ok? && width > 0
    ensures EncodeInt(v, width).value == Num(v, width) && v < Pow2(width)
  {
    FixedIntRoundTrip(v, width);
    var e := EncodeInt(v, width).value;
    forall i | 0 <= i < width
      ensures e[i] == Num(v, width)[i]
    {
      IntegerBits(v, width, i);
    }
  }

  // ---- The vendor vector ---------------------------------------------------

  /** A flag, the first id, and for a real range the last one. */
  function EntryBits(r: Run): (b: Bits) {
    if r.first == r.last then [false] + Num(r.first, 16) else [true] + Num(r.first, 16) + Num(r.last, 16)
  }

  lemma EntryIs(r: Run)
    requires EncodeEntry(r).Ok?
    ensures EncodeEntry(r).value == EntryBits(r)
  {
    NumIs(r.first, 16);
    if !r.Single() {
      NumIs(r.last, 16);
    }
  }

  lemma {:induction false} EntriesAre(rs: seq<Run>)
    requires EncodeEntries(rs).Ok?
    ensures EncodeEntries(rs).value == FlatMap(rs, EntryBits)
  {
    if rs != [] {
      EntryIs(rs[0]);
      EntriesAre(rs[1..]);
    }
  }

  lemma FieldLayout(header: Bits, ids: set<nat>, n: nat, id: nat)
    requires |header| == 17 && 1 <= id <= n
    ensures (header + Field(ids, n))[16 + id] <==> id in ids
  {
    assert (header + Field(ids, n))[17 + (id - 1)] == Field(ids, n)[id - 1];
  }

  lemma RunsLayout(rs: seq<Run>)
    requires EncodeRuns(rs).Ok?
    ensures EncodeRuns(rs).value == Num(|rs|, 12) + FlatMap(rs, EntryBits)
  {
    NumIs(|rs|, 12);
    EntriesAre(rs);
  }

  /** The range form is taken only above 45 ids, and when its cost, as far as it is counted, is lower. */
  ghost predicate RangeForm(ids: set<nat>, maxId: nat) {
    var rs := Runs(ids, maxId);
    maxId > 45 && 16 * |rs| + 17 * RangeCount(rs) < maxId + 4
  }

  /** 16 bits for the maximum, the form, then a bit for every id, or 12 bits for the number of runs and the runs. */
  lemma VendorLayout(ids: set<nat>, maxId: nat)
    requires EncodeVendors(ids, maxId).Ok?
    ensures var rs, b := Runs(ids, maxId), EncodeVendors(ids, maxId).value;
            if RangeForm(ids, maxId) then
              b == Num(maxId, 16) + [true] + (Num(|rs|, 12) + FlatMap(rs, EntryBits))
            else
              && |b| == 17 + maxId && b[..17] == Num(maxId, 16) + [false]
              && forall id :: 1 <= id <= maxId ==> (b[16 + id] <==> id in ids)
  {
    NumIs(maxId, 16);
    if RangesChosen(ids, maxId) {
      RunsLayout(Runs(ids, maxId));
    } else {
      var header := Num(maxId, 16) + [false];
      assert EncodeVendors(ids, maxId) == Ok(header + Field(ids, maxId));
      forall id | 1 <= id <= maxId
        ensures (header + Field(ids, maxId))[16 + id] <==> id in ids
      {
        FieldLayout(header, ids, maxId, id);
      }
    }
  }

  // ---- The publisher restrictions ------------------------------------------

  /** The ranges of one restriction. */
  function RangesOf(vendors: set<nat>, gvl: set<nat>): (rs: seq<Run>) {
    var a := Sorted(vendors);
    Merged(a, gvl, |a|)
  }

  /** Six bits for the purpose, two for the type, twelve for the number of ranges, then the ranges. */
  function RestrictionBits(key: Restriction, rs: seq<Run>): (b: Bits)
    requires key.Valid()
  {
    Num(key.purposeId, 6) + Num(key.kind, 2) + Num(|rs|, 12) + FlatMap(rs, EntryBits)
  }

  lemma RestrictionLayout(key: Restriction, vendors: set<nat>, gvl: set<nat>)
    requires key.Valid() && EncodeOne(key, vendors, gvl).Ok?
    ensures EncodeOne(key, vendors, gvl).value == RestrictionBits(key, RangesOf(vendors, gvl))
  {
    var rs := RangesOf(vendors, gvl);
    NumIs(key.purposeId, 6);
    NumIs(key.kind, 2);
    NumIs(|rs|, 12);
    EntriesAre(rs);
  }

  ghost predicate ValidKeys(order: seq<Restriction>) {
    forall k :: k in order ==> k.Valid()
  }

  /** All restrictions in a row. */
  function AllBits(order: seq<Restriction>, t: Table, gvl: set<nat>): (b: Bits)
    requires ValidKeys(order)
  {
    if order == [] then []
    else RestrictionBits(order[0], RangesOf(VendorsOf(t, order[0]), gvl)) + AllBits(order[1..], t, gvl)
  }

  lemma {:induction false} EachLayout(order: seq<Restriction>, t: Table, gvl: set<nat>)
    requires ValidKeys(order) && EncodeEach(order, t, gvl).Ok?
    ensures EncodeEach(order, t, gvl).value == AllBits(order, t, gvl)
  {
    if order != [] {
      assert order[0] in order;
      RestrictionLayout(order[0], VendorsOf(t, order[0]), gvl);
      EachLayout(order[1..], t, gvl);
    }
  }

  /** Twelve bits for the number of restrictions, then the restrictions. */
  lemma RestrictionsLayout(order: seq<Restriction>, t: Table, gvl: set<nat>)
    requires ValidKeys(order) && EncodeRestrictions(order, t, gvl).Ok?
    ensures EncodeRestrictions(order, t, gvl).value == Num(|order|, 12) + AllBits(order, t, gvl)
  {
    NumIs(|order|, 12);
    EachLayout(order, t, gvl);
  }

  // ---- Segments and text ---------------------------------------------------

  /** The base64url digits in the order of their values. */
  lemma Alphabet(v: nat)
    ensures v < 26 ==> Base64Url.Digit(v) == "ABCDEFGHIJKLMNOPQRSTUVWXYZ"[v]
    ensures v < 26 ==> Base64Url.Digit(26 + v) == "abcdefghijklmnopqrstuvwxyz"[v]
    ensures v < 12 ==> Base64Url.Digit(52 + v) == "0123456789-_"[v]
  {
  }

  /** Each text digit stands for six bits. */
  lemma {:induction false} SextetAt(b: Bits, i: nat)
    requires |b| % 6 == 0 && 6 * i < |b|
    ensures |Sextets(b)| == |b| / 6
    ensures BitsValue(b[6 * i..6 * i + 6]) < 64
    ensures Sextets(b)[i] == Base64Url.Digit(BitsValue(b[6 * i..6 * i + 6]))
    decreases |b|
  {
    BitsBelow(b[6 * i..6 * i + 6]);
    Widths();
    if i > 0 {
      SextetAt(b[6..], i - 1);
      assert b[6..][6 * (i - 1)..6 * (i - 1) + 6] == b[6 * i..6 * i + 6];
    } else if |b| > 6 {
      SextetAt(b[6..], 0);
    }
  }

  lemma SegmentTypeBits()
    ensures EncodeInt(1, 3) == Ok([false, false, true])
  {
    NumIs(1, 3);
    assert Pow2(0) == 1 && Pow2(1) == 2 && Pow2(2) == 4;
    assert Num(1, 3) == [false, false, true];
  }

  lemma PaddedLength(n: nat)
    ensures (n + Padding(n)) % 6 == 0 && (n + Padding(n)) / 6 % 4 == 0
    ensures n <= 6 * ((n + Padding(n)) / 6) < n + 24
  {
  }

  /** The text has a digit for every six bits of whole groups of four. */
  lemma TextGroups(b: Bits)
    requires b != []
    ensures EncodeText(b) == Ok(Sextets(b + Zeros(Padding(|b|)))) && |EncodeText(b).value| % 4 == 0
    ensures |b| <= 6 * |EncodeText(b).value| < |b| + 24
  {
    var n := |b|;
    PaddedLength(n);
    SextetAt(b + Zeros(Padding(n)), 0);
  }

  /** Segment type 1 in three bits, then the vendors. */
  lemma DisclosedLayout(ids: set<nat>, maxId: nat)
    requires EncodeDisclosed(ids, maxId).Ok?
    ensures EncodeVendors(ids, maxId).Ok?
    ensures EncodeDisclosed(ids, maxId) == EncodeText([false, false, true] + EncodeVendors(ids, maxId).value)
  {
    SegmentTypeBits();
  }
}
