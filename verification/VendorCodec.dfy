/**
 The vendor vector codec (class `ce` of docs/theme/c15t@2.0.0-rc.3.js): a
 16-bit maximum id, one bit for the form, then either a bit field or a list of
 ranges. The encoder chooses the form with a cost it updates while it scans.
 */
module VendorCodec {
  import opened Prelude
  import opened TcBits
  import opened VendorVector
  import opened VendorRuns

  /** Below this many ids the range form is never considered. */
  const RANGE_THRESHOLD: nat := 2 * VENDOR_ID_BITS + SINGLE_OR_RANGE_BITS + NUM_ENTRIES_BITS

  const HEADER_BITS: nat := MAX_ID_BITS + ENCODING_TYPE_BITS

  // ---- Reference description of the encoding -------------------------------

  function Field(ids: set<nat>, n: nat): (b: Bits)
    ensures |b| == n
    ensures forall i :: 0 <= i < n ==> b[i] == (i + 1 in ids)
  {
    if n == 0 then [] else Field(ids, n - 1) + [n in ids]
  }

  function EncodeEntry(r: Run): (e: Result<Bits, TcError>) {
    var first :- EncodeInt(r.first, VENDOR_ID_BITS);
    if r.Single() then Ok([false] + first)
    else
      var last :- EncodeInt(r.last, VENDOR_ID_BITS);
      Ok([true] + first + last)
  }

  function EncodeEntries(rs: seq<Run>): (e: Result<Bits, TcError>) {
    if rs == [] then Ok([])
    else
      var head :- EncodeEntry(rs[0]);
      var tail :- EncodeEntries(rs[1..]);
      Ok(head + tail)
  }

  function EncodeRuns(rs: seq<Run>): (e: Result<Bits, TcError>) {
    var count :- EncodeInt(|rs|, NUM_ENTRIES_BITS);
    var entries :- EncodeEntries(rs);
    Ok(count + entries)
  }

  /** The closed form of the encoder's on-the-fly decision. */
  predicate RangesChosen(ids: set<nat>, maxId: nat) {
    var rs := Runs(ids, maxId);
    maxId > RANGE_THRESHOLD && 16 * |rs| + 17 * RangeCount(rs) < maxId + 4
  }

  function EncodeVendors(ids: set<nat>, maxId: nat): (e: Result<Bits, TcError>) {
    var header :- EncodeInt(maxId, MAX_ID_BITS);
    if RangesChosen(ids, maxId) then
      var body :- EncodeRuns(Runs(ids, maxId));
      Ok(header + [true] + body)
    else
      Ok(header + [false] + Field(ids, maxId))
  }

  // ---- The encoder ---------------------------------------------------------

  /** The run that is still open after scanning up to `k`. */
  function OpenRun(ids: set<nat>, k: nat): (o: Option<nat>) {
    if k in ids && k + 1 in ids then Some(RunStart(ids, k)) else None
  }

  /** The running cost after scanning up to `k` with the range form still in play. */
  function RunningCost(ids: set<nat>, k: nat): (c: nat) {
    HEADER_BITS + NUM_ENTRIES_BITS + 16 * |Runs(ids, k)|
    + 17 * (RangeCount(Runs(ids, k)) + if OpenRun(ids, k).Some? then 1 else 0)
  }

  lemma RunningCostStep(ids: set<nat>, k: nat)
    requires k > 0
    ensures k !in ids ==>
              && Runs(ids, k) == Runs(ids, k - 1) && OpenRun(ids, k) == OpenRun(ids, k - 1)
              && RunningCost(ids, k) == RunningCost(ids, k - 1)
    ensures k in ids && k + 1 in ids ==>
              && Runs(ids, k) == Runs(ids, k - 1)
              && OpenRun(ids, k) == (if OpenRun(ids, k - 1).Some? then OpenRun(ids, k - 1) else Some(k))
              && RunningCost(ids, k) == RunningCost(ids, k - 1) + (if OpenRun(ids, k - 1).Some? then 0 else 17)
    ensures k in ids && k + 1 !in ids ==>
              && OpenRun(ids, k).None? && RunningCost(ids, k) == RunningCost(ids, k - 1) + 16
              && Runs(ids, k) == Runs(ids, k - 1)
                 + [Run(if OpenRun(ids, k - 1).Some? then OpenRun(ids, k - 1).value else k, k)]
  {
    var rs, before := Runs(ids, k), Runs(ids, k - 1);
    if k in ids && k + 1 !in ids {
      assert rs[..|rs| - 1] == before;
    } else {
      assert rs == before;
    }
  }

  /** The decision taken at the last id is the closed form over all runs. */
  lemma DecisionClosedForm(ids: set<nat>, maxId: nat)
    requires IsMaximum(ids, maxId)
    ensures RangesChosen(ids, maxId) <==>
              maxId > RANGE_THRESHOLD && RunningCost(ids, maxId - 1) < HEADER_BITS + maxId
  {
    if maxId > 0 {
      RunningCostStep(ids, maxId);
    }
  }

  method BuildRangeEncoding(ranges: seq<Run>) returns (r: Result<Bits, TcError>)
    ensures r == EncodeRuns(ranges)
  {
    var count := EncodeInt(|ranges|, NUM_ENTRIES_BITS);
    if count.Err? {
      return count;
    }
    var out := count.value;
    for i := 0 to |ranges|
      invariant EncodeEntries(ranges[i..]).Err? ==> EncodeEntries(ranges) == EncodeEntries(ranges[i..])
      invariant EncodeEntries(ranges[i..]).Ok? ==>
                  EncodeRuns(ranges) == Ok(out + EncodeEntries(ranges[i..]).value)
    {
      var entry := EncodeEntry(ranges[i]);
      assert ranges[i..][1..] == ranges[i + 1..];
      if entry.Err? {
        return entry;
      }
      assert forall rest: Bits :: out + (entry.value + rest) == (out + entry.value) + rest;
      out := out + entry.value;
    }
    assert ranges[|ranges|..] == [] && out + [] == out;
    return Ok(out);
  }

  /** What the scan knows after id `k`: exact totals, unless the range form has already lost. */
  ghost predicate Tracks(ids: set<nat>, k: nat, limit: nat, cost: nat, ranges: seq<Run>, open: Option<nat>) {
    if cost < limit || RunningCost(ids, k) < limit
    then cost == RunningCost(ids, k) && ranges == Runs(ids, k) && open == OpenRun(ids, k)
    else true
  }

  /** The scan over all ids: both forms are built side by side, and the last id decides. */
  method Scan(v: Vector) returns (field: Bits, useRanges: bool, ranges: seq<Run>)
    requires v.Valid()
    ensures field == Field(v.ids, v.maxId)
    ensures useRanges <==> RangesChosen(v.ids, v.maxId)
    ensures useRanges ==> ranges == Runs(v.ids, v.maxId)
  {
    var ids, maxId := v.ids, v.maxId;
    var open: Option<nat> := None;
    field, useRanges, ranges := [], false, [];
    var limit := HEADER_BITS + maxId;
    var cost: nat := HEADER_BITS + NUM_ENTRIES_BITS;
    for l := 1 to maxId + 1
      invariant field == Field(ids, l - 1)
      invariant maxId > RANGE_THRESHOLD ==> Tracks(ids, l - 1, limit, cost, ranges, open)
      invariant useRanges <==> l > 1 && maxId > RANGE_THRESHOLD && RunningCost(ids, l - 2) < limit
      invariant useRanges ==> ranges == Runs(ids, l - 1)
    {
      RunningCostStep(ids, l);
      var present := l in ids;
      field := field + [present];
      useRanges := maxId > RANGE_THRESHOLD && cost < limit;
      if useRanges && present {
        if l + 1 in ids {
          if open.None? {
            open := Some(l);
            cost := cost + SINGLE_OR_RANGE_BITS + VENDOR_ID_BITS;
          }
        } else {
          ranges := ranges + [Run(if open.Some? then open.value else l, l)];
          cost := cost + VENDOR_ID_BITS;
          open := None;
        }
      }
    }
    DecisionClosedForm(ids, maxId);
  }

  /** The scanning encoder computes the reference encoding. */
  method Encode(v: Vector) returns (r: Result<Bits, TcError>)
    requires v.Valid()
    ensures r == EncodeVendors(v.ids, v.maxId)
  {
    var header :- EncodeInt(v.maxId, MAX_ID_BITS);
    var field, useRanges, ranges := Scan(v);
    if useRanges {
      var body :- BuildRangeEncoding(ranges);
      r := Ok(header + [true] + body);
    } else {
      r := Ok(header + [false] + field);
    }
  }

  // ---- When encoding succeeds ----------------------------------------------

  lemma {:induction false} EntriesFit(rs: seq<Run>)
    requires forall r :: r in rs ==> r.first <= r.last < 65536
    ensures EncodeEntries(rs).Ok?
  {
    if rs != [] {
      Widths();
      FixedIntRoundTrip(rs[0].first, VENDOR_ID_BITS);
      FixedIntRoundTrip(rs[0].last, VENDOR_ID_BITS);
      EntriesFit(rs[1..]);
    }
  }

  /** The one family that overflows the 12-bit entry count. */
  ghost predicate OverflowsEntryCount(ids: set<nat>, maxId: nat) {
    65533 <= maxId && |ids| == 4096 && !Adjacent(ids)
  }

  /**
   Encoding succeeds exactly when the maximum id fits in 16 bits and the ids are
   not 4096 pairwise non-adjacent ids reaching 65533 or beyond.
   */
  lemma EncodeSucceedsIff(ids: set<nat>, maxId: nat)
    requires IsMaximum(ids, maxId)
    ensures EncodeVendors(ids, maxId).Ok? <==> maxId < 65536 && !OverflowsEntryCount(ids, maxId)
  {
    Widths();
    FixedIntRoundTrip(maxId, MAX_ID_BITS);
    if maxId < 65536 {
      var rs := Runs(ids, maxId);
      RunsWellFormed(ids, maxId);
      EntriesFit(rs);
      FixedIntRoundTrip(|rs|, NUM_ENTRIES_BITS);
      SingleRuns(ids, maxId);
      assert (set x | x in ids && x <= maxId) == ids;
      if RangesChosen(ids, maxId) && |rs| >= 4096 {
        assert RangeCount(rs) == 0;
        NoRangesNoAdjacent(ids, maxId);
      }
    }
  }

  /** The ids 13, 29, 45, ...: `n` ids sixteen apart. */
  function Spaced(n: nat): (ids: set<nat>)
    ensures forall x :: x in ids ==> 13 <= x <= 16 * n - 3 && x % 16 == 13
    ensures |ids| == n
    ensures n > 0 ==> 16 * n - 3 in ids
  {
    if n == 0 then {} else Spaced(n - 1) + {16 * n - 3}
  }

  lemma NextRemainder(x: nat)
    requires x % 16 == 13
    ensures (x + 1) % 16 == 14
  {
    assert x == 16 * (x / 16) + 13;
  }

  lemma SpacedApart(n: nat)
    ensures !Adjacent(Spaced(n))
  {
    var ids := Spaced(n);
    forall x | x in ids
      ensures x + 1 !in ids
    {
      NextRemainder(x);
    }
  }

  /** The exception is inhabited: this vector is rejected although its maximum id fits. */
  lemma OverflowWitness(n: nat, maxId: nat)
    requires n == 4096 && maxId == 65533
    ensures IsMaximum(Spaced(n), maxId)
    ensures EncodeVendors(Spaced(n), maxId) == Err(EncodingError)
  {
    var ids := Spaced(n);
    SpacedApart(n);
    assert maxId in ids;
    EncodeSucceedsIff(ids, maxId);
    RejectionKind(ids, maxId);
  }

  lemma {:induction false} EntriesRejection(rs: seq<Run>)
    ensures EncodeEntries(rs).Err? ==> EncodeEntries(rs).error == EncodingError
  {
    if rs != [] {
      EntriesRejection(rs[1..]);
    }
  }

  lemma RejectionKind(ids: set<nat>, maxId: nat)
    ensures EncodeVendors(ids, maxId).Err? ==> EncodeVendors(ids, maxId).error == EncodingError
  {
    EntriesRejection(Runs(ids, maxId));
  }

  /** Every vector with maximum id at most 65532 encodes. */
  lemma EncodeAlwaysFits(ids: set<nat>, maxId: nat)
    requires IsMaximum(ids, maxId) && maxId <= 65532
    ensures EncodeVendors(ids, maxId).Ok?
  {
    EncodeSucceedsIff(ids, maxId);
  }

  // ---- Decoding ------------------------------------------------------------

  function DecodeEntry(b: Bits): (r: Result<Read<Run>, TcError>)
    ensures r.Ok? ==> r.value.value.first > 0 && |r.value.rest| < |b|
  {
    var flag := ReadBool(b);
    var first :- ReadInt(flag.rest, VENDOR_ID_BITS);
    if flag.value then
      var last :- ReadInt(first.rest, VENDOR_ID_BITS);
      if first.value == 0 then Err(ModelError) else Ok(Read(Run(first.value, last.value), last.rest))
    else if first.value == 0 then Err(ModelError)
    else Ok(Read(Run(first.value, first.value), first.rest))
  }

  function DecodeEntries(b: Bits, count: nat, acc: set<nat>): (r: Result<Read<set<nat>>, TcError>)
    ensures r.Ok? ==> |r.value.rest| <= |b|
    decreases count
  {
    if count == 0 then Ok(Read(acc, b))
    else
      var entry :- DecodeEntry(b);
      DecodeEntries(entry.rest, count - 1, acc + entry.value.Ids())
  }

  function FieldIds(b: Bits): (ids: set<nat>)
    ensures forall x: nat :: x in ids <==> 1 <= x <= |b| && b[x - 1]
  {
    if b == [] then {}
    else FieldIds(b[..|b| - 1]) + if b[|b| - 1] then {|b|} else {}
  }

  /** The ids of a vector and the number of bits it occupied. */
  datatype Decoded = Decoded(ids: set<nat>, bitLength: nat)

  function DecodeRangeForm(b: Bits): (r: Result<Read<set<nat>>, TcError>)
    ensures r.Ok? ==> |r.value.rest| <= |b|
  {
    var count :- ReadInt(b, NUM_ENTRIES_BITS);
    DecodeEntries(count.rest, count.value, {})
  }

  function DecodeBody(b: Bits, maxId: nat, version: nat): (r: Result<Read<set<nat>>, TcError>)
    ensures r.Ok? ==> |r.value.rest| <= |b|
  {
    var form :- ReadInt(b, ENCODING_TYPE_BITS);
    if form.value == 1 then
      if version == 1 then
        var deflt := ReadBool(form.rest);
        if deflt.value then Err(DecodingError) else DecodeRangeForm(deflt.rest)
      else DecodeRangeForm(form.rest)
    else if |form.rest| < maxId then Err(DecodingError)
    else Ok(Read(FieldIds(form.rest[..maxId]), form.rest[maxId..]))
  }

  function DecodeVendors(b: Bits, version: nat): (r: Result<Decoded, TcError>) {
    var maxId :- ReadInt(b, MAX_ID_BITS);
    var body :- DecodeBody(maxId.rest, maxId.value, version);
    Ok(Decoded(body.value, |b| - |body.rest|))
  }

  // ---- The decoder ---------------------------------------------------------

  /** Adds the ids first..last one by one, as the decoder does. */
  method SetRange(v: Vector, first: nat, last: nat) returns (r: Result<(), TcError>)
    requires v.Valid()
    modifies v
    ensures v.Valid()
    ensures r.Ok? <==> first > 0 || first > last
    ensures r.Ok? ==> v.ids == old(v.ids) + IdRange(first, last)
    ensures r.Err? ==> r.error == ModelError
  {
    var l := first;
    while l <= last
      invariant first <= l && (l <= last + 1 || l == first)
      invariant first == 0 ==> l == 0
      invariant v.Valid()
      invariant v.ids == old(v.ids) + if l == first then {} else IdRange(first, l - 1)
    {
      var outcome := v.Set(l);
      if outcome.Err? {
        return Err(outcome.error);
      }
      l := l + 1;
    }
    return Ok(());
  }

  /** Reads one entry at the cursor into the vector. */
  method DecodeEntryAt(b: Bits, cursor: nat, v: Vector) returns (r: Result<nat, TcError>)
    requires cursor <= |b| && v.Valid()
    modifies v
    ensures v.Valid()
    ensures var e := DecodeEntry(b[cursor..]);
            if e.Err? then r == Err(e.error)
            else && r.Ok? && cursor < r.value <= |b| && b[r.value..] == e.value.rest
                 && v.ids == old(v.ids) + e.value.value.Ids()
  {
    var pos := cursor;
    CursorReadBool(b, pos);
    var isRange := DecodeBool(Substr(b, pos, SINGLE_OR_RANGE_BITS));
    pos := pos + SINGLE_OR_RANGE_BITS;
    if pos > |b| {
      return Err(DecodingError);
    }
    CursorRead(b, pos, VENDOR_ID_BITS);
    var first :- DecodeInt(Substr(b, pos, VENDOR_ID_BITS), VENDOR_ID_BITS);
    pos := pos + VENDOR_ID_BITS;
    var last := first;
    if isRange {
      CursorRead(b, pos, VENDOR_ID_BITS);
      last :- DecodeInt(Substr(b, pos, VENDOR_ID_BITS), VENDOR_ID_BITS);
      pos := pos + VENDOR_ID_BITS;
    }
    var outcome := SetRange(v, first, last);
    if outcome.Err? {
      return Err(outcome.error);
    }
    return Ok(pos);
  }

  lemma EntriesUnfold(b: Bits, count: nat, acc: set<nat>)
    requires count > 0
    ensures var e := DecodeEntry(b);
            DecodeEntries(b, count, acc)
            == if e.Err? then Err(e.error) else DecodeEntries(e.value.rest, count - 1, acc + e.value.value.Ids())
  {
  }

  method DecodeRangesAt(b: Bits, cursor: nat, v: Vector) returns (r: Result<nat, TcError>)
    requires cursor <= |b| && v.Valid() && v.ids == {}
    modifies v
    ensures v.Valid()
    ensures var d := DecodeRangeForm(b[cursor..]);
            if d.Err? then r == Err(d.error)
            else r.Ok? && r.value <= |b| && b[r.value..] == d.value.rest && v.ids == d.value.value
  {
    CursorRead(b, cursor, NUM_ENTRIES_BITS);
    var count :- DecodeInt(Substr(b, cursor, NUM_ENTRIES_BITS), NUM_ENTRIES_BITS);
    var pos: nat := cursor + NUM_ENTRIES_BITS;
    for c := 0 to count
      invariant v.Valid() && pos <= |b|
      invariant DecodeRangeForm(b[cursor..]) == DecodeEntries(b[pos..], count - c, v.ids)
    {
      EntriesUnfold(b[pos..], count - c, v.ids);
      pos :- DecodeEntryAt(b, pos, v);
    }
    return Ok(pos);
  }

  method DecodeFieldAt(b: Bits, cursor: nat, maxId: nat, v: Vector) returns (r: Result<nat, TcError>)
    requires cursor <= |b| && v.Valid() && v.ids == {}
    modifies v
    ensures v.Valid()
    ensures r.Ok? <==> cursor + maxId <= |b|
    ensures r.Ok? ==> r.value == cursor + maxId && v.ids == FieldIds(b[cursor..cursor + maxId])
    ensures r.Err? ==> r.error == DecodingError
  {
    var field := Substr(b, cursor, maxId);
    if |field| != maxId {
      return Err(DecodingError);
    }
    for s := 0 to |field|
      invariant v.Valid() && v.ids == FieldIds(field[..s])
    {
      assert field[..s + 1][..s] == field[..s];
      if field[s] {
        var _ := v.Set(s + 1);
      }
    }
    assert field[..|field|] == field;
    return Ok(cursor + maxId);
  }

  method DecodeBodyAt(b: Bits, maxId: nat, version: nat, v: Vector) returns (r: Result<nat, TcError>)
    requires MAX_ID_BITS <= |b| && v.Valid() && v.ids == {}
    modifies v
    ensures v.Valid()
    ensures var d := DecodeBody(b[MAX_ID_BITS..], maxId, version);
            if d.Err? then r == Err(d.error)
            else r.Ok? && r.value <= |b| && b[r.value..] == d.value.rest && v.ids == d.value.value
  {
    CursorRead(b, MAX_ID_BITS, ENCODING_TYPE_BITS);
    var form :- DecodeInt(Substr(b, MAX_ID_BITS, ENCODING_TYPE_BITS), ENCODING_TYPE_BITS);
    var pos := MAX_ID_BITS + ENCODING_TYPE_BITS;
    if form == 1 {
      if version == 1 {
        CursorReadBool(b, pos);
        if DecodeBool(Substr(b, pos, 1)) {
          return Err(DecodingError);
        }
        if pos == |b| {
          return Err(DecodingError);
        }
        pos := pos + 1;
      }
      r := DecodeRangesAt(b, pos, v);
    } else {
      var rest := b[pos..];
      assert pos + maxId <= |b| ==> rest[..maxId] == b[pos..pos + maxId] && rest[maxId..] == b[pos + maxId..];
      r := DecodeFieldAt(b, pos, maxId, v);
    }
  }

  /** The cursor-based decoder builds the vector that the reference decoding describes. */
  method Decode(b: Bits, version: nat) returns (r: Result<Vector, TcError>)
    ensures DecodeVendors(b, version).Err? ==> r == Err(DecodeVendors(b, version).error)
    ensures DecodeVendors(b, version).Ok? ==>
              && r.Ok? && fresh(r.value) && r.value.Valid()
              && Decoded(r.value.ids, r.value.bitLength) == DecodeVendors(b, version).value
  {
    assert b[0..] == b;
    CursorRead(b, 0, MAX_ID_BITS);
    var maxId := DecodeInt(Substr(b, 0, MAX_ID_BITS), MAX_ID_BITS);
    if maxId.Err? {
      return Err(maxId.error);
    }
    var v := new Vector();
    var pos := DecodeBodyAt(b, maxId.value, version, v);
    if pos.Err? {
      return Err(pos.error);
    }
    v.bitLength := pos.value;
    return Ok(v);
  }

  // ---- Round trip ----------------------------------------------------------

  lemma EntryRoundTrip(r: Run, tail: Bits)
    requires EncodeEntry(r).Ok? && 1 <= r.first <= r.last
    ensures DecodeEntry(EncodeEntry(r).value + tail) == Ok(Read(r, tail))
  {
    var e, first := EncodeEntry(r).value, EncodeInt(r.first, VENDOR_ID_BITS).value;
    if r.Single() {
      ReadIntBack(r.first, VENDOR_ID_BITS, tail);
      assert (e + tail)[1..] == first + tail;
    } else {
      var last := EncodeInt(r.last, VENDOR_ID_BITS).value;
      ReadIntBack(r.first, VENDOR_ID_BITS, last + tail);
      ReadIntBack(r.last, VENDOR_ID_BITS, tail);
      assert (e + tail)[1..] == first + (last + tail);
    }
  }

  lemma EntriesFront(rs: seq<Run>, tail: Bits)
    requires rs != [] && EncodeEntries(rs).Ok?
    ensures EncodeEntry(rs[0]).Ok? && EncodeEntries(rs[1..]).Ok?
    ensures EncodeEntries(rs).value + tail == EncodeEntry(rs[0]).value + (EncodeEntries(rs[1..]).value + tail)
  {
    var head, rest := EncodeEntry(rs[0]).value, EncodeEntries(rs[1..]).value;
    assert (head + rest) + tail == head + (rest + tail);
  }

  lemma EntriesStep(r: Run, tail: Bits, count: nat, acc: set<nat>)
    requires EncodeEntry(r).Ok? && 1 <= r.first <= r.last && count > 0
    ensures DecodeEntries(EncodeEntry(r).value + tail, count, acc) == DecodeEntries(tail, count - 1, acc + r.Ids())
  {
    EntryRoundTrip(r, tail);
  }

  lemma {:induction false} EntriesRoundTrip(rs: seq<Run>, tail: Bits, acc: set<nat>)
    requires EncodeEntries(rs).Ok?
    requires forall r :: r in rs ==> 1 <= r.first <= r.last
    ensures DecodeEntries(EncodeEntries(rs).value + tail, |rs|, acc) == Ok(Read(acc + Covered(rs), tail))
    decreases |rs|
  {
    if rs == [] {
      assert acc + Covered(rs) == acc && [] + tail == tail;
    } else {
      EntriesFront(rs, tail);
      var rest := EncodeEntries(rs[1..]).value;
      EntriesStep(rs[0], rest + tail, |rs|, acc);
      EntriesRoundTrip(rs[1..], tail, acc + rs[0].Ids());
      CoveredPrepend(rs[0], rs[1..]);
      assert [rs[0]] + rs[1..] == rs;
      assert acc + rs[0].Ids() + Covered(rs[1..]) == acc + Covered(rs);
    }
  }

  lemma RangeFormRoundTrip(rs: seq<Run>, tail: Bits)
    requires EncodeRuns(rs).Ok?
    requires forall r :: r in rs ==> 1 <= r.first <= r.last
    ensures DecodeRangeForm(EncodeRuns(rs).value + tail) == Ok(Read(Covered(rs), tail))
  {
    var count, entries := EncodeInt(|rs|, NUM_ENTRIES_BITS).value, EncodeEntries(rs).value;
    ReadIntBack(|rs|, NUM_ENTRIES_BITS, entries + tail);
    assert EncodeRuns(rs).value + tail == count + (entries + tail);
    EntriesRoundTrip(rs, tail, {});
    assert {} + Covered(rs) == Covered(rs);
  }

  lemma FormBit(form: bool, rest: Bits)
    ensures ReadInt([form] + rest, ENCODING_TYPE_BITS) == Ok(Read(if form then 1 else 0, rest))
  {
    var b := [form] + rest;
    assert b[..1] == [form] && b[1..] == rest;
    assert [form][..|[form]| - 1] == [];
    assert BitsValue([form]) == if form then 1 else 0;
  }

  lemma BodyRoundTrip(ids: set<nat>, maxId: nat, tail: Bits)
    requires IsMaximum(ids, maxId)
    requires RangesChosen(ids, maxId) ==> EncodeRuns(Runs(ids, maxId)).Ok?
    ensures var body := if RangesChosen(ids, maxId) then EncodeRuns(Runs(ids, maxId)).value else Field(ids, maxId);
            DecodeBody([RangesChosen(ids, maxId)] + (body + tail), maxId, 2) == Ok(Read(ids, tail))
  {
    if RangesChosen(ids, maxId) {
      var rs := Runs(ids, maxId);
      FormBit(true, EncodeRuns(rs).value + tail);
      RunsWellFormed(ids, maxId);
      RangeFormRoundTrip(rs, tail);
      RunsExact(ids, maxId);
    } else {
      var field := Field(ids, maxId);
      FormBit(false, field + tail);
      assert (field + tail)[..maxId] == field && (field + tail)[maxId..] == tail;
      assert FieldIds(field) == ids;
    }
  }

  lemma Regroup(a: Bits, b: Bits, c: Bits, d: Bits)
    ensures a + b + c + d == a + (b + (c + d))
  {
  }

  /**
   Decoding an encoded vector, followed by anything, returns the same ids and the
   length of the encoding, whichever of the two forms was chosen.
   */
  lemma VendorRoundTrip(ids: set<nat>, maxId: nat, tail: Bits)
    requires IsMaximum(ids, maxId)
    requires EncodeVendors(ids, maxId).Ok?
    ensures var e := EncodeVendors(ids, maxId).value;
            DecodeVendors(e + tail, 2) == Ok(Decoded(ids, |e|))
  {
    var header, form := EncodeInt(maxId, MAX_ID_BITS).value, RangesChosen(ids, maxId);
    var body := if form then EncodeRuns(Runs(ids, maxId)).value else Field(ids, maxId);
    Regroup(header, [form], body, tail);
    ReadIntBack(maxId, MAX_ID_BITS, [form] + (body + tail));
    BodyRoundTrip(ids, maxId, tail);
  }
}
