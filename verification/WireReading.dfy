/**
 What the vendor decoder makes of any encoding, written by whomever (class `ce` of
 docs/theme/c15t@2.0.0-rc.3.js): entries in any order, overlapping or empty, and the flag of version 1.
 */
module WireReading {
  import opened Prelude
  import opened TcBits
  import opened VendorRuns
  import opened VendorCodec
  import opened WireLayout

  /** An entry as it lies on the wire; a span may be empty. */
  datatype Entry = One(id: nat) | Span(first: nat, last: nat) {
    predicate Fits() {
      match this
      case One(id) => id < 65536
      case Span(first, last) => first < 65536 && last < 65536
    }

    /** The decoder refuses the id zero, at the beginning of an entry. */
    predicate Positive() {
      match this
      case One(id) => id > 0
      case Span(first, _) => first > 0
    }

    function Bits(): (b: Bits) {
      match this
      case One(id) => [false] + Num(id, 16)
      case Span(first, last) => [true] + (Num(first, 16) + Num(last, 16))
    }

    ghost predicate Holds(x: nat) {
      match this
      case One(id) => x == id
      case Span(first, last) => first <= x <= last
    }

    function Ids(): (ids: set<nat>)
      ensures forall x: nat :: x in ids <==> Holds(x)
    {
      match this
      case One(id) => {id}
      case Span(first, last) => IdRange(first, last)
    }
  }

  function EntryBits(e: Entry): (b: Bits) {
    e.Bits()
  }

  lemma NumRead(v: nat, width: nat, tail: Bits)
    requires width > 0 && v < Pow2(width)
    ensures |Num(v, width)| == width && ReadInt(Num(v, width) + tail, width) == Ok(Read(v, tail))
  {
    FixedIntRoundTrip(v, width);
    NumIs(v, width);
    ReadIntBack(v, width, tail);
  }

  lemma EntryRead(e: Entry, tail: Bits)
    requires e.Fits()
    ensures !e.Positive() ==> DecodeEntry(e.Bits() + tail) == Err(ModelError)
    ensures e.Positive() ==>
              var d := DecodeEntry(e.Bits() + tail);
              d.Ok? && d.value.rest == tail && d.value.value.Ids() == e.Ids()
  {
    match e
    case One(id) => OneRead(id, tail);
    case Span(first, last) => SpanRead(first, last, tail);
  }

  lemma OneRead(id: nat, tail: Bits)
    requires id < 65536
    ensures DecodeEntry(One(id).Bits() + tail) == if id == 0 then Err(ModelError) else Ok(Read(Run(id, id), tail))
  {
    Widths();
    NumRead(id, VENDOR_ID_BITS, tail);
    assert (One(id).Bits() + tail)[1..] == Num(id, 16) + tail;
  }

  lemma SpanRead(first: nat, last: nat, tail: Bits)
    requires first < 65536 && last < 65536
    ensures DecodeEntry(Span(first, last).Bits() + tail)
            == if first == 0 then Err(ModelError) else Ok(Read(Run(first, last), tail))
  {
    Widths();
    NumRead(first, VENDOR_ID_BITS, Num(last, 16) + tail);
    NumRead(last, VENDOR_ID_BITS, tail);
    assert (Span(first, last).Bits() + tail)[1..] == Num(first, 16) + (Num(last, 16) + tail);
  }

  ghost predicate AllFit(es: seq<Entry>) {
    forall e :: e in es ==> e.Fits()
  }

  ghost predicate AllPositive(es: seq<Entry>) {
    forall e :: e in es ==> e.Positive()
  }

  /** The entries have been read up to the tail, or one of them begins with zero. */
  ghost predicate AllRead(d: Result<Read<set<nat>>, TcError>, es: seq<Entry>, tail: Bits, acc: set<nat>) {
    if AllPositive(es) then
      && d.Ok? && d.value.rest == tail
      && forall x: nat :: x in d.value.value <==> x in acc || exists e :: e in es && e.Holds(x)
    else d == Err(ModelError)
  }

  lemma AllReadCons(d: Result<Read<set<nat>>, TcError>, e: Entry, es: seq<Entry>, tail: Bits, acc: set<nat>)
    requires e.Positive() && AllRead(d, es, tail, acc + e.Ids())
    ensures AllRead(d, [e] + es, tail, acc)
  {
    assert forall f :: f in [e] + es <==> f == e || f in es;
  }

  lemma EntriesReadCons(e: Entry, es: seq<Entry>, more: Bits, tail: Bits, acc: set<nat>)
    requires e.Fits()
    requires e.Positive() ==> AllRead(DecodeEntries(more, |es|, acc + e.Ids()), es, tail, acc + e.Ids())
    ensures AllRead(DecodeEntries(e.Bits() + more, |es| + 1, acc), [e] + es, tail, acc)
  {
    EntryRead(e, more);
    EntriesUnfold(e.Bits() + more, |es| + 1, acc);
    if e.Positive() {
      AllReadCons(DecodeEntries(more, |es|, acc + e.Ids()), e, es, tail, acc);
    } else {
      assert ([e] + es)[0] == e;
    }
  }

  lemma EntriesFrontBits(es: seq<Entry>, tail: Bits)
    requires es != []
    ensures FlatMap(es, EntryBits) + tail == es[0].Bits() + (FlatMap(es[1..], EntryBits) + tail)
  {
    var head, rest := es[0].Bits(), FlatMap(es[1..], EntryBits);
    assert (head + rest) + tail == head + (rest + tail);
  }

  lemma EntriesReadFront(es: seq<Entry>, e: Entry, rest: seq<Entry>, tail: Bits, acc: set<nat>)
    requires es == [e] + rest && e.Fits()
    requires e.Positive() ==>
               AllRead(DecodeEntries(FlatMap(rest, EntryBits) + tail, |rest|, acc + e.Ids()), rest, tail, acc + e.Ids())
    ensures AllRead(DecodeEntries(FlatMap(es, EntryBits) + tail, |es|, acc), es, tail, acc)
  {
    EntriesReadCons(e, rest, FlatMap(rest, EntryBits) + tail, tail, acc);
    EntriesFrontBits(es, tail);
    assert es[1..] == rest;
  }

  /** The ids of the entries, read in any order, on top of those already there. */
  lemma {:induction false} EntriesRead(es: seq<Entry>, tail: Bits, acc: set<nat>)
    requires AllFit(es)
    ensures AllRead(DecodeEntries(FlatMap(es, EntryBits) + tail, |es|, acc), es, tail, acc)
    decreases |es|
  {
    if es == [] {
      assert [] + tail == tail;
    } else {
      if es[0].Positive() {
        EntriesRead(es[1..], tail, acc + es[0].Ids());
      }
      EntriesReadFront(es, es[0], es[1..], tail, acc);
    }
  }

  /** Twelve bits for the number of entries, then the entries. */
  function Listed(es: seq<Entry>): (b: Bits) {
    Num(|es|, 12) + FlatMap(es, EntryBits)
  }

  ghost predicate ReadsAs(d: Result<Decoded, TcError>, es: seq<Entry>, length: nat) {
    if AllPositive(es) then
      && d.Ok? && d.value.bitLength == length
      && forall x: nat :: x in d.value.ids <==> exists e :: e in es && e.Holds(x)
    else d == Err(ModelError)
  }

  lemma ListRead(es: seq<Entry>, tail: Bits)
    requires AllFit(es) && |es| < 4096
    ensures DecodeRangeForm(Listed(es) + tail) == DecodeEntries(FlatMap(es, EntryBits) + tail, |es|, {})
  {
    Widths();
    NumRead(|es|, NUM_ENTRIES_BITS, FlatMap(es, EntryBits) + tail);
    assert Listed(es) + tail == Num(|es|, 12) + (FlatMap(es, EntryBits) + tail);
  }

  lemma HeaderRead(maxId: nat, rest: Bits, version: nat)
    requires maxId < 65536
    ensures |Num(maxId, 16)| == 16
    ensures var body := DecodeBody(rest, maxId, version);
            DecodeVendors(Num(maxId, 16) + rest, version)
            == if body.Err? then Err(body.error) else Ok(Decoded(body.value.value, 16 + |rest| - |body.value.rest|))
  {
    Widths();
    NumRead(maxId, MAX_ID_BITS, rest);
  }

  /**
   A list of entries is read as the union of its entries, whatever the maximum in front says; in
   version 1 a flag stands before it, which must not be set.
   */
  lemma RangeFormReads(es: seq<Entry>, maxId: nat, tail: Bits, version: nat)
    requires AllFit(es) && |es| < 4096 && maxId < 65536
    ensures var list := Listed(es) + tail;
            if version == 1 then
              && ReadsAs(DecodeVendors(Num(maxId, 16) + ([true] + ([false] + list)), 1), es, 18 + |Listed(es)|)
              && DecodeVendors(Num(maxId, 16) + ([true] + ([true] + list)), 1) == Err(DecodingError)
            else ReadsAs(DecodeVendors(Num(maxId, 16) + ([true] + list), version), es, 17 + |Listed(es)|)
  {
    var list := Listed(es) + tail;
    ListRead(es, tail);
    EntriesRead(es, tail, {});
    if version == 1 {
      HeaderRead(maxId, [true] + ([false] + list), 1);
      FormBit(true, [false] + list);
      assert ([false] + list)[1..] == list;
      HeaderRead(maxId, [true] + ([true] + list), 1);
      FormBit(true, [true] + list);
    } else {
      HeaderRead(maxId, [true] + list, version);
      FormBit(true, list);
    }
  }

  /** A bit field is read bit by bit, in either version; it must be complete. */
  lemma FieldReads(field: Bits, maxId: nat, tail: Bits, version: nat)
    requires maxId < 65536
    ensures |field| == maxId ==>
              var d := DecodeVendors(Num(maxId, 16) + ([false] + (field + tail)), version);
              && d.Ok? && d.value.bitLength == 17 + maxId
              && forall x: nat :: x in d.value.ids <==> 1 <= x <= maxId && field[x - 1]
    ensures |field| < maxId ==> DecodeVendors(Num(maxId, 16) + ([false] + field), version) == Err(DecodingError)
  {
    if |field| == maxId {
      HeaderRead(maxId, [false] + (field + tail), version);
      FormBit(false, field + tail);
      assert (field + tail)[..maxId] == field && (field + tail)[maxId..] == tail;
    } else {
      HeaderRead(maxId, [false] + field, version);
      FormBit(false, field);
    }
  }
}
