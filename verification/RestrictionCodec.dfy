/**
 Publisher restrictions (classes `he` and `Ve` of docs/theme/c15t@2.0.0-rc.3.js):
 per restriction a set of vendors, written as ranges that may run across ids
 missing from the global vendor list.
 */
module RestrictionCodec {
  import opened Prelude
  import opened TcBits
  import opened VendorRuns
  import opened VendorCodec
  import opened RestrictionRanges

  const NOT_ALLOWED := 0
  const REQUIRE_CONSENT := 1
  const REQUIRE_LI := 2

  datatype Restriction = Restriction(purposeId: int, kind: int) {
    predicate Valid() {
      purposeId > 0 && NOT_ALLOWED <= kind <= REQUIRE_LI
    }
  }

  datatype Vendor = Vendor(purposes: set<int>, legIntPurposes: set<int>, flexiblePurposes: set<int>)

  /** The global vendor list; vendor ids start at one. */
  type Gvl = m: map<nat, Vendor> | 0 !in m

  type Table = map<Restriction, set<nat>>

  /** The vendors under a restriction; none when the restriction is absent. */
  function VendorsOf(t: Table, key: Restriction): (vendors: set<nat>) {
    if key in t then t[key] else {}
  }

  // ---- The restriction vector ----------------------------------------------

  predicate IsOkToHave(gvl: Option<Gvl>, key: Restriction, vendor: nat) {
    if gvl.None? then true
    else if vendor !in gvl.value then false
    else
      var v := gvl.value[vendor];
      if key.kind == NOT_ALLOWED then key.purposeId in v.legIntPurposes || key.purposeId in v.purposes
      else if v.flexiblePurposes == {} then false
      else if key.kind == REQUIRE_CONSENT then
        key.purposeId in v.flexiblePurposes && key.purposeId in v.legIntPurposes
      else if key.kind == REQUIRE_LI then
        key.purposeId in v.flexiblePurposes && key.purposeId in v.purposes
      else true
  }

  /** On what grounds a vendor may process data for a purpose. */
  datatype LegalBasis = Consent | LegitimateInterest

  /** The list has the vendor, and the vendor declares this basis for the purpose. */
  ghost predicate Declared(list: Gvl, vendor: nat, purpose: int, basis: LegalBasis) {
    && vendor in list
    && match basis
       case Consent => purpose in list[vendor].purposes
       case LegitimateInterest => purpose in list[vendor].legIntPurposes
  }

  ghost predicate Flexible(list: Gvl, vendor: nat, purpose: int) {
    vendor in list && purpose in list[vendor].flexiblePurposes
  }

  /**
   A restriction is meaningful for a vendor when it changes the vendor's basis: forbidding (0) needs
   any declared basis, and requiring consent (1) or legitimate interest (2) needs a flexible purpose
   declared on the other one.
   */
  ghost predicate ChangesBasis(list: Gvl, vendor: nat, key: Restriction) {
    || (key.kind == 0 && exists basis :: Declared(list, vendor, key.purposeId, basis))
    || (key.kind == 1 && Flexible(list, vendor, key.purposeId) && Declared(list, vendor, key.purposeId, LegitimateInterest))
    || (key.kind == 2 && Flexible(list, vendor, key.purposeId) && Declared(list, vendor, key.purposeId, Consent))
  }

  /** What installing the vendor list leaves of the vendors of a restriction. */
  ghost function Allowed(list: Gvl, key: Restriction, vendors: set<nat>): (r: set<nat>) {
    set v | v in vendors && ChangesBasis(list, v, key)
  }

  /**
   Besides the vendors whose basis is changed, a type of restriction that does not exist gets past the
   list for a vendor with any flexible purpose.
   */
  ghost predicate PassesList(list: Gvl, key: Restriction, vendor: nat) {
    || ChangesBasis(list, vendor, key)
    || (!(0 <= key.kind <= 2) && vendor in list && list[vendor].flexiblePurposes != {})
  }

  lemma OkToHaveIff(list: Gvl, key: Restriction, vendor: nat)
    ensures IsOkToHave(Some(list), key, vendor) <==> PassesList(list, key, vendor)
  {
    if vendor in list {
      var p, v := key.purposeId, list[vendor];
      assert Declared(list, vendor, p, Consent) <==> p in v.purposes;
      assert Declared(list, vendor, p, LegitimateInterest) <==> p in v.legIntPurposes;
    }
  }

  class RestrictionVector {
    var order: seq<Restriction>
    var table: Table
    var gvl: Option<Gvl>
    var bitLength: nat

    /** Keys are valid and listed once; with a vendor list in place no vendor is zero. */
    ghost predicate Valid()
      reads this
    {
      && NoDuplicates(order)
      && (forall k :: k in order <==> k in table)
      && (forall k :: k in table ==> k.Valid())
      && (gvl.Some? ==> forall k :: k in table ==> 0 !in table[k])
    }

    constructor ()
      ensures Valid() && order == [] && table == map[] && gvl == None && bitLength == 0
    {
      order, table, gvl, bitLength := [], map[], None, 0;
    }

    method Add(vendor: nat, key: Restriction) returns (r: Result<(), TcError>)
      requires Valid()
      modifies this
      ensures Valid() && gvl == old(gvl)
      ensures r == if key.Valid() || (gvl.Some? && !PassesList(gvl.value, key, vendor)) then Ok(()) else Err(InvalidRestriction)
      ensures var added := key.Valid() && (gvl.None? || ChangesBasis(gvl.value, vendor, key));
              && table == (if added then old(table)[key := VendorsOf(old(table), key) + {vendor}] else old(table))
              && order == old(order) + (if added && key !in old(table) then [key] else [])
              && bitLength == if added && key !in old(table) then 0 else old(bitLength)
    {
      if gvl.Some? {
        OkToHaveIff(gvl.value, key, vendor);
      }
      if IsOkToHave(gvl, key, vendor) {
        if !key.Valid() {
          return Err(InvalidRestriction);
        }
        if key !in table {
          order, bitLength := order + [key], 0;
          table := table[key := {}];
        }
        table := table[key := table[key] + {vendor}];
      }
      return Ok(());
    }

    /** The first vendor list to arrive is kept, and drops the vendors it does not allow. */
    method SetGvl(list: Gvl)
      requires Valid()
      modifies this
      ensures Valid() && order == old(order)
      ensures old(gvl).Some? ==> gvl == old(gvl) && table == old(table)
      ensures old(gvl).None? ==>
                && gvl == Some(list) && table.Keys == old(table).Keys
                && forall k :: k in table ==> table[k] == Allowed(list, k, old(table)[k])
    {
      if gvl.None? {
        forall k, v | k in table && v in table[k]
          ensures IsOkToHave(Some(list), k, v) <==> ChangesBasis(list, v, k)
        {
          OkToHaveIff(list, k, v);
        }
        gvl := Some(list);
        table := map k | k in table :: set v | v in table[k] && IsOkToHave(Some(list), k, v);
      }
    }

    /**
     Restricts every id up to the last one of the vendor list, in the list's own order and listed or
     not; an empty list gives a new restriction the vendor 1.
     */
    method RestrictPurposeToLegalBasis(key: Restriction, listed: seq<nat>) returns (r: Result<(), TcError>)
      requires Valid() && (gvl.Some? ==> Elements(listed) == gvl.value.Keys)
      modifies this
      ensures Valid() && gvl == old(gvl)
      ensures r == if gvl.None? then Err(MissingVendorList) else if key.Valid() then Ok(()) else Err(InvalidRestriction)
      ensures r.Err? ==> table == old(table) && order == old(order) && bitLength == old(bitLength)
      ensures r.Ok? ==>
                && table == old(table)[key := VendorsOf(old(table), key) + UpToLast(listed, key in old(table))]
                && order == old(order) + (if key in old(table) then [] else [key])
                && bitLength == if key in old(table) then old(bitLength) else 0
    {
      if gvl.None? {
        return Err(MissingVendorList);
      }
      if !key.Valid() {
        return Err(InvalidRestriction);
      }
      if key !in table {
        order, bitLength := order + [key], 0;
        table := table[key := UpToLast(listed, false)];
        assert {} + UpToLast(listed, false) == UpToLast(listed, false);
      } else {
        table := table[key := table[key] + UpToLast(listed, true)];
      }
      return Ok(());
    }
  }

  /** The ids up to the last listed one. */
  function UpToLast(listed: seq<nat>, known: bool): (ids: set<nat>)
    ensures forall id: nat :: id in ids <==>
              if listed == [] then id == 1 && !known else 1 <= id <= listed[|listed| - 1]
  {
    if listed != [] then IdRange(1, listed[|listed| - 1]) else if known then {} else {1}
  }

  // ---- Reference description of the encoding -------------------------------

  function Ranges(vendors: set<nat>, gvl: set<nat>): (rs: seq<Run>) {
    var a := Sorted(vendors);
    Merged(a, gvl, |a|)
  }

  function EncodeOne(key: Restriction, vendors: set<nat>, gvl: set<nat>): (e: Result<Bits, TcError>) {
    var purpose :- EncodeInt(key.purposeId, PURPOSE_ID_BITS);
    var kind :- EncodeInt(key.kind, RESTRICTION_TYPE_BITS);
    var entries :- EncodeEntries(Ranges(vendors, gvl));
    var count :- EncodeInt(|Ranges(vendors, gvl)|, NUM_ENTRIES_BITS);
    Ok(purpose + kind + count + entries)
  }

  function EncodeEach(order: seq<Restriction>, t: Table, gvl: set<nat>): (e: Result<Bits, TcError>) {
    if order == [] then Ok([])
    else
      var head :- EncodeOne(order[0], VendorsOf(t, order[0]), gvl);
      var tail :- EncodeEach(order[1..], t, gvl);
      Ok(head + tail)
  }

  function EncodeRestrictions(order: seq<Restriction>, t: Table, gvl: set<nat>): (e: Result<Bits, TcError>) {
    var count :- EncodeInt(|order|, NUM_RESTRICTIONS_BITS);
    var body :- EncodeEach(order, t, gvl);
    Ok(count + body)
  }

  // ---- The encoder ---------------------------------------------------------

  /** Both parts in a row, or the first failure. */
  function Both(a: Result<Bits, TcError>, b: Result<Bits, TcError>): (r: Result<Bits, TcError>) {
    if a.Err? then a else if b.Err? then b else Ok(a.value + b.value)
  }

  lemma BothAssociates(a: Result<Bits, TcError>, b: Result<Bits, TcError>, c: Result<Bits, TcError>)
    ensures Both(Both(a, b), c) == Both(a, Both(b, c))
  {
    if a.Ok? && b.Ok? && c.Ok? {
      assert (a.value + b.value) + c.value == a.value + (b.value + c.value);
    }
  }

  lemma BothFirstEmpty(r: Result<Bits, TcError>)
    ensures Both(Ok([]), r) == r
  {
    if r.Ok? {
      assert [] + r.value == r.value;
    }
  }

  lemma EncodeEntriesCons(r: Run, rest: seq<Run>)
    ensures EncodeEntries([r] + rest) == Both(EncodeEntry(r), EncodeEntries(rest))
  {
    assert ([r] + rest)[1..] == rest;
  }

  lemma {:induction false} EncodeEntriesConcat(rs: seq<Run>, more: seq<Run>)
    ensures EncodeEntries(rs + more) == Both(EncodeEntries(rs), EncodeEntries(more))
  {
    if rs == [] {
      assert rs + more == more;
      BothFirstEmpty(EncodeEntries(more));
    } else {
      EncodeEntriesConcat(rs[1..], more);
      EncodeEntriesCons(rs[0], rs[1..] + more);
      EncodeEntriesCons(rs[0], rs[1..]);
      assert rs + more == [rs[0]] + (rs[1..] + more);
      assert rs == [rs[0]] + rs[1..];
      BothAssociates(EncodeEntry(rs[0]), EncodeEntries(rs[1..]), EncodeEntries(more));
    }
  }

  lemma EncodeSingleEntry(r: Run)
    ensures EncodeEntry(r).Err? ==> EncodeEntries([r]) == EncodeEntry(r)
    ensures EncodeEntry(r).Ok? ==> EncodeEntries([r]) == EncodeEntry(r)
  {
    assert [r][1..] == [];
    assert EncodeEntries([]) == Ok([]);
    if EncodeEntry(r).Ok? {
      assert EncodeEntry(r).value + [] == EncodeEntry(r).value;
    }
  }

  /** Ranges closed early stay in front of the ranges closed later. */
  lemma {:induction false} MergedPrefix(a: seq<nat>, gvl: set<nat>, k: nat, n: nat)
    requires k <= n <= |a|
    ensures Merged(a, gvl, k) <= Merged(a, gvl, n)
    decreases n
  {
    if k < n {
      MergedPrefix(a, gvl, k, n - 1);
    }
  }

  lemma MergedFailure(a: seq<nat>, gvl: set<nat>, k: nat)
    requires k <= |a| && EncodeEntries(Merged(a, gvl, k)).Err?
    ensures EncodeEntries(Merged(a, gvl, |a|)) == EncodeEntries(Merged(a, gvl, k))
  {
    MergedPrefix(a, gvl, k, |a|);
    var rs, all := Merged(a, gvl, k), Merged(a, gvl, |a|);
    assert all == rs + all[|rs|..];
    EncodeEntriesConcat(rs, all[|rs|..]);
  }

  /** The first vendor of the range being collected, zero between ranges. */
  function OpenStart(a: seq<nat>, gvl: set<nat>, p: nat): (s: nat)
    requires p <= |a|
  {
    if p == 0 || Closes(a, gvl, p - 1) then 0 else a[GroupStart(a, gvl, p - 1)]
  }

  /** One vendor of the scan: its range stays open, or is closed and written. */
  lemma MergedStep(a: seq<nat>, gvl: set<nat>, p: nat, out: Bits)
    requires p < |a| && EncodeEntries(Merged(a, gvl, p)) == Ok(out)
    ensures !Closes(a, gvl, p) ==> Merged(a, gvl, p + 1) == Merged(a, gvl, p)
    ensures Closes(a, gvl, p) ==>
              var r := Run(a[GroupStart(a, gvl, p)], a[p]);
              && Merged(a, gvl, p + 1) == Merged(a, gvl, p) + [r]
              && EncodeEntries(Merged(a, gvl, p + 1))
                 == if EncodeEntry(r).Ok? then Ok(out + EncodeEntry(r).value) else EncodeEntry(r)
  {
    if Closes(a, gvl, p) {
      var r := Run(a[GroupStart(a, gvl, p)], a[p]);
      EncodeSingleEntry(r);
      EncodeEntriesConcat(Merged(a, gvl, p), [r]);
    }
  }

  lemma OpenStartStep(a: seq<nat>, gvl: set<nat>, p: nat)
    requires p < |a| && (0 !in a || p == 0)
    ensures (if OpenStart(a, gvl, p) == 0 then a[p] else OpenStart(a, gvl, p)) == a[GroupStart(a, gvl, p)]
    ensures 0 !in a ==> a[GroupStart(a, gvl, p)] != 0
    ensures OpenStart(a, gvl, p + 1) == if Closes(a, gvl, p) then 0 else a[GroupStart(a, gvl, p)]
  {
    assert a[GroupStart(a, gvl, p)] in a;
    if p > 0 && !Closes(a, gvl, p - 1) {
      assert a[GroupStart(a, gvl, p - 1)] in a;
    }
  }

  /** The vendor list, empty while there is none. */
  function ListOf(gvl: Option<set<nat>>): (ids: set<nat>) {
    if gvl.Some? then gvl.value else {}
  }

  /**
   Collects the ranges of one restriction; zero marks that no range is open. The vendor list is
   needed as soon as there is a second vendor.
   */
  method EncodeVendorRanges(a: seq<nat>, gvl: Option<set<nat>>) returns (count: nat, r: Result<Bits, TcError>)
    requires StrictlyAscending(a) && (gvl.Some? ==> 0 !in a)
    ensures gvl.None? && |a| > 1 ==> r == Err(MissingVendorList)
    ensures gvl.Some? || |a| <= 1 ==> r == EncodeEntries(Merged(a, ListOf(gvl), |a|))
    ensures r.Ok? ==> count == |Merged(a, ListOf(gvl), |a|)|
  {
    var start, out := 0, [];
    count := 0;
    ghost var list := ListOf(gvl);
    for p := 0 to |a|
      invariant start == OpenStart(a, list, p)
      invariant gvl.None? ==> p == 0 || |a| == 1
      invariant count == |Merged(a, list, p)| + if start != 0 then 1 else 0
      invariant EncodeEntries(Merged(a, list, p)) == Ok(out)
    {
      var d := a[p];
      OpenStartStep(a, list, p);
      MergedStep(a, list, p, out);
      if start == 0 {
        count := count + 1;
        start := d;
      }
      assert start == a[GroupStart(a, list, p)];
      assert !Closes(a, list, p) ==> count == |Merged(a, list, p + 1)| + 1;
      assert Closes(a, list, p) ==> count == |Merged(a, list, p + 1)|;
      var closes := p == |a| - 1;
      if !closes {
        if gvl.None? {
          return count, Err(MissingVendorList);
        }
        closes := a[p + 1] > NextListed(gvl.value, d, a[|a| - 1]);
      }
      if closes {
        var entry := EncodeEntry(Run(start, d));
        if entry.Err? {
          MergedFailure(a, list, p + 1);
          return count, entry;
        }
        out := out + entry.value;
        start := 0;
      }
    }
    r := Ok(out);
  }

  /** What is written for one restriction, with or without a vendor list. */
  function EncodeOneAny(key: Restriction, vendors: set<nat>, gvl: Option<set<nat>>): (e: Result<Bits, TcError>) {
    if gvl.Some? || |Sorted(vendors)| <= 1 then EncodeOne(key, vendors, ListOf(gvl))
    else
      var purpose :- EncodeInt(key.purposeId, PURPOSE_ID_BITS);
      var kind :- EncodeInt(key.kind, RESTRICTION_TYPE_BITS);
      Err(MissingVendorList)
  }

  function EncodeEachAny(order: seq<Restriction>, t: Table, gvl: Option<set<nat>>): (e: Result<Bits, TcError>) {
    if order == [] then Ok([])
    else
      var head :- EncodeOneAny(order[0], VendorsOf(t, order[0]), gvl);
      var tail :- EncodeEachAny(order[1..], t, gvl);
      Ok(head + tail)
  }

  function EncodeAny(order: seq<Restriction>, t: Table, gvl: Option<set<nat>>): (e: Result<Bits, TcError>) {
    var count :- EncodeInt(|order|, NUM_RESTRICTIONS_BITS);
    var body :- EncodeEachAny(order, t, gvl);
    Ok(count + body)
  }

  lemma {:induction false} EncodeEachListed(order: seq<Restriction>, t: Table, gvl: Option<set<nat>>)
    requires gvl.Some? || forall k :: k in order ==> |Sorted(VendorsOf(t, k))| <= 1
    ensures EncodeEachAny(order, t, gvl) == EncodeEach(order, t, ListOf(gvl))
  {
    if order != [] {
      assert order[0] in order;
      EncodeEachListed(order[1..], t, gvl);
    }
  }

  /** With a vendor list, or with at most one vendor for each restriction, the list is not missed. */
  lemma ListNotMissed(order: seq<Restriction>, t: Table, gvl: Option<set<nat>>)
    requires gvl.Some? || forall k :: k in order ==> |Sorted(VendorsOf(t, k))| <= 1
    ensures EncodeAny(order, t, gvl) == EncodeRestrictions(order, t, ListOf(gvl))
  {
    EncodeEachListed(order, t, gvl);
  }

  lemma {:induction false} EachMissesList(order: seq<Restriction>, t: Table, k: Restriction)
    requires k in order && |Sorted(VendorsOf(t, k))| > 1
    ensures EncodeEachAny(order, t, None).Err?
  {
    if order[0] != k {
      EachMissesList(order[1..], t, k);
    }
  }

  /** Without a vendor list, exactly the vectors with at most one vendor for each restriction are encoded, as with any list. */
  lemma WithoutListIff(order: seq<Restriction>, t: Table)
    ensures EncodeAny(order, t, None).Ok? <==>
            && (forall k :: k in order ==> |Sorted(VendorsOf(t, k))| <= 1)
            && EncodeRestrictions(order, t, {}).Ok?
    ensures EncodeAny(order, t, None).Ok? ==> EncodeAny(order, t, None) == EncodeRestrictions(order, t, {})
  {
    if k :| k in order && |Sorted(VendorsOf(t, k))| > 1 {
      EachMissesList(order, t, k);
    } else {
      ListNotMissed(order, t, None);
    }
  }

  method EncodeRestriction(key: Restriction, vendors: set<nat>, gvl: Option<set<nat>>) returns (r: Result<Bits, TcError>)
    requires gvl.Some? ==> 0 !in vendors
    ensures r == EncodeOneAny(key, vendors, gvl)
  {
    var purpose :- EncodeInt(key.purposeId, PURPOSE_ID_BITS);
    var kind :- EncodeInt(key.kind, RESTRICTION_TYPE_BITS);
    var count, entries := EncodeVendorRanges(Sorted(vendors), gvl);
    if entries.Err? {
      return entries;
    }
    var n :- EncodeInt(count, NUM_ENTRIES_BITS);
    return Ok(purpose + kind + n + entries.value);
  }

  lemma EachAnyCons(order: seq<Restriction>, t: Table, gvl: Option<set<nat>>)
    requires order != []
    ensures EncodeEachAny(order, t, gvl)
            == Both(EncodeOneAny(order[0], VendorsOf(t, order[0]), gvl), EncodeEachAny(order[1..], t, gvl))
  {
  }

  lemma BothAfter(out: Bits, one: Bits, rest: Result<Bits, TcError>)
    ensures rest.Err? ==> Both(Ok(one), rest) == rest
    ensures rest.Ok? ==> Both(Ok(one), rest).Ok? && out + Both(Ok(one), rest).value == (out + one) + rest.value
  {
    if rest.Ok? {
      assert out + (one + rest.value) == (out + one) + rest.value;
    }
  }

  method Encode(v: RestrictionVector) returns (r: Result<Bits, TcError>)
    requires v.Valid()
    ensures r == EncodeAny(v.order, v.table, if v.gvl.Some? then Some(v.gvl.value.Keys) else None)
  {
    var gvl := if v.gvl.Some? then Some(v.gvl.value.Keys) else None;
    var out :- EncodeInt(|v.order|, NUM_RESTRICTIONS_BITS);
    for i := 0 to |v.order|
      invariant EncodeEachAny(v.order[i..], v.table, gvl).Err? ==>
                  EncodeAny(v.order, v.table, gvl) == EncodeEachAny(v.order[i..], v.table, gvl)
      invariant EncodeEachAny(v.order[i..], v.table, gvl).Ok? ==>
                  EncodeAny(v.order, v.table, gvl) == Ok(out + EncodeEachAny(v.order[i..], v.table, gvl).value)
    {
      var key := v.order[i];
      assert v.order[i..][1..] == v.order[i + 1..];
      EachAnyCons(v.order[i..], v.table, gvl);
      var one := EncodeRestriction(key, v.table[key], gvl);
      if one.Err? {
        return one;
      }
      BothAfter(out, one.value, EncodeEachAny(v.order[i + 1..], v.table, gvl));
      out := out + one.value;
    }
    assert v.order[|v.order|..] == [] && out + [] == out;
    return Ok(out);
  }

  // ---- Decoding ------------------------------------------------------------

  function ReadRange(b: Bits): (r: Result<Read<Run>, TcError>)
    ensures r.Ok? ==> r.value.value.first <= r.value.value.last && |r.value.rest| < |b|
  {
    var flag := ReadBool(b);
    var first :- ReadInt(flag.rest, VENDOR_ID_BITS);
    if flag.value then
      var last :- ReadInt(first.rest, VENDOR_ID_BITS);
      if last.value < first.value then Err(DecodingError)
      else Ok(Read(Run(first.value, last.value), last.rest))
    else Ok(Read(Run(first.value, first.value), first.rest))
  }

  function DecodeRanges(b: Bits, count: nat, key: Restriction, t: Table): (r: Result<Read<Table>, TcError>)
    ensures r.Ok? ==> |r.value.rest| <= |b|
    decreases count
  {
    if count == 0 then Ok(Read(t, b))
    else
      var range :- ReadRange(b);
      if !key.Valid() then Err(InvalidRestriction)
      else DecodeRanges(range.rest, count - 1, key, t[key := VendorsOf(t, key) + range.value.Ids()])
  }

  function DecodeOne(b: Bits, t: Table): (r: Result<Read<Table>, TcError>)
    ensures r.Ok? ==> |r.value.rest| <= |b|
  {
    var purpose :- ReadInt(b, PURPOSE_ID_BITS);
    var kind :- ReadInt(purpose.rest, RESTRICTION_TYPE_BITS);
    var count :- ReadInt(kind.rest, NUM_ENTRIES_BITS);
    DecodeRanges(count.rest, count.value, Restriction(purpose.value, kind.value), t)
  }

  function DecodeEach(b: Bits, count: nat, t: Table): (r: Result<Read<Table>, TcError>)
    ensures r.Ok? ==> |r.value.rest| <= |b|
    decreases count
  {
    if count == 0 then Ok(Read(t, b))
    else
      var one :- DecodeOne(b, t);
      DecodeEach(one.rest, count - 1, one.value)
  }

  /** The restrictions read, and the number of bits they occupied. */
  datatype DecodedTable = DecodedTable(table: Table, bitLength: nat)

  function DecodeRestrictions(b: Bits): (r: Result<DecodedTable, TcError>) {
    var count :- ReadInt(b, NUM_RESTRICTIONS_BITS);
    var each :- DecodeEach(count.rest, count.value, map[]);
    Ok(DecodedTable(each.value, |b| - |each.rest|))
  }

  // ---- The decoder ---------------------------------------------------------

  /** Adds first..last one by one, as the decoder does. */
  method AddRange(v: RestrictionVector, range: Run, key: Restriction) returns (r: Result<(), TcError>)
    requires v.Valid() && v.gvl == None && range.first <= range.last
    modifies v
    ensures v.Valid() && v.gvl == None
    ensures r == if key.Valid() then Ok(()) else Err(InvalidRestriction)
    ensures r.Ok? ==> v.table == old(v.table)[key := VendorsOf(old(v.table), key) + range.Ids()]
  {
    var m := range.first;
    while m <= range.last
      invariant range.first <= m <= range.last + 1
      invariant v.Valid() && v.gvl == None
      invariant if m == range.first then v.table == old(v.table)
                else key.Valid() && v.table == old(v.table)[key := VendorsOf(old(v.table), key) + IdRange(range.first, m - 1)]
    {
      var outcome := v.Add(m, key);
      if outcome.Err? {
        return outcome;
      }
      assert m > range.first ==>
          VendorsOf(old(v.table), key) + IdRange(range.first, m - 1) + {m}
          == VendorsOf(old(v.table), key) + IdRange(range.first, m);
      m := m + 1;
    }
    return Ok(());
  }

  method ReadRangeAt(b: Bits, cursor: nat) returns (r: Result<(Run, nat), TcError>)
    requires cursor <= |b|
    ensures var e := ReadRange(b[cursor..]);
            if e.Err? then r == Err(e.error)
            else && r.Ok? && r.value.0 == e.value.value
                 && cursor < r.value.1 <= |b| && b[r.value.1..] == e.value.rest
  {
    var pos := cursor;
    CursorReadBool(b, pos);
    var isRange := DecodeBool(Substr(b, pos, SINGLE_OR_RANGE_BITS));
    pos := pos + SINGLE_OR_RANGE_BITS;
    if pos > |b| {
      return Err(DecodingError);
    }
    CursorRead(b, pos, VENDOR_ID_BITS);
    var first :- DecodeInt(Substr(b, pos, VENDOR_ID_BITS), VENDOR_ID_BITS);
    pos := pos + VENDOR_ID_BITS;
    var last := first;
    if isRange {
      CursorRead(b, pos, VENDOR_ID_BITS);
      last :- DecodeInt(Substr(b, pos, VENDOR_ID_BITS), VENDOR_ID_BITS);
      pos := pos + VENDOR_ID_BITS;
      if last < first {
        return Err(DecodingError);
      }
    }
    return Ok((Run(first, last), pos));
  }

  lemma RangesUnfold(b: Bits, count: nat, key: Restriction, t: Table)
    requires count > 0
    ensures var range := ReadRange(b);
            DecodeRanges(b, count, key, t)
            == if range.Err? then Err(range.error)
               else if !key.Valid() then Err(InvalidRestriction)
               else DecodeRanges(range.value.rest, count - 1, key, t[key := VendorsOf(t, key) + range.value.value.Ids()])
  {
  }

  method DecodeRangesAt(b: Bits, cursor: nat, count: nat, key: Restriction, v: RestrictionVector)
      returns (r: Result<nat, TcError>)
    requires cursor <= |b| && v.Valid() && v.gvl == None
    modifies v
    ensures v.Valid() && v.gvl == None
    ensures var d := DecodeRanges(b[cursor..], count, key, old(v.table));
            if d.Err? then r == Err(d.error)
            else r.Ok? && r.value <= |b| && b[r.value..] == d.value.rest && v.table == d.value.value
  {
    var pos: nat := cursor;
    ghost var whole := DecodeRanges(b[cursor..], count, key, v.table);
    for c := 0 to count
      invariant v.Valid() && v.gvl == None && pos <= |b|
      invariant whole == DecodeRanges(b[pos..], count - c, key, v.table)
    {
      RangesUnfold(b[pos..], count - c, key, v.table);
      var range :- ReadRangeAt(b, pos);
      var outcome := AddRange(v, range.0, key);
      if outcome.Err? {
        return Err(outcome.error);
      }
      pos := range.1;
    }
    return Ok(pos);
  }

  method DecodeRestrictionAt(b: Bits, cursor: nat, v: RestrictionVector) returns (r: Result<nat, TcError>)
    requires cursor <= |b| && v.Valid() && v.gvl == None
    modifies v
    ensures v.Valid() && v.gvl == None
    ensures var d := DecodeOne(b[cursor..], old(v.table));
            if d.Err? then r == Err(d.error)
            else r.Ok? && r.value <= |b| && b[r.value..] == d.value.rest && v.table == d.value.value
  {
    var pos := cursor;
    CursorRead(b, pos, PURPOSE_ID_BITS);
    var purpose :- DecodeInt(Substr(b, pos, PURPOSE_ID_BITS), PURPOSE_ID_BITS);
    pos := pos + PURPOSE_ID_BITS;
    CursorRead(b, pos, RESTRICTION_TYPE_BITS);
    var kind :- DecodeInt(Substr(b, pos, RESTRICTION_TYPE_BITS), RESTRICTION_TYPE_BITS);
    pos := pos + RESTRICTION_TYPE_BITS;
    CursorRead(b, pos, NUM_ENTRIES_BITS);
    var count :- DecodeInt(Substr(b, pos, NUM_ENTRIES_BITS), NUM_ENTRIES_BITS);
    pos := pos + NUM_ENTRIES_BITS;
    r := DecodeRangesAt(b, pos, count, Restriction(purpose, kind), v);
  }

  lemma EachUnfold(b: Bits, count: nat, t: Table)
    requires count > 0
    ensures var one := DecodeOne(b, t);
            DecodeEach(b, count, t)
            == if one.Err? then Err(one.error) else DecodeEach(one.value.rest, count - 1, one.value.value)
  {
  }

  method DecodeEachAt(b: Bits, cursor: nat, count: nat, v: RestrictionVector) returns (r: Result<nat, TcError>)
    requires cursor <= |b| && v.Valid() && v.gvl == None
    modifies v
    ensures v.Valid() && v.gvl == None
    ensures var d := DecodeEach(b[cursor..], count, old(v.table));
            if d.Err? then r == Err(d.error)
            else r.Ok? && r.value <= |b| && b[r.value..] == d.value.rest && v.table == d.value.value
  {
    var pos: nat := cursor;
    ghost var whole := DecodeEach(b[cursor..], count, v.table);
    for i := 0 to count
      invariant v.Valid() && v.gvl == None && pos <= |b|
      invariant whole == DecodeEach(b[pos..], count - i, v.table)
    {
      EachUnfold(b[pos..], count - i, v.table);
      pos :- DecodeRestrictionAt(b, pos, v);
    }
    return Ok(pos);
  }

  /** The cursor-based decoder builds the restrictions that the reference decoding describes. */
  method Decode(b: Bits) returns (r: Result<RestrictionVector, TcError>)
    ensures DecodeRestrictions(b).Err? ==> r == Err(DecodeRestrictions(b).error)
    ensures DecodeRestrictions(b).Ok? ==>
              && r.Ok? && fresh(r.value) && r.value.Valid()
              && DecodedTable(r.value.table, r.value.bitLength) == DecodeRestrictions(b).value
  {
    assert b[0..] == b;
    CursorRead(b, 0, NUM_RESTRICTIONS_BITS);
    var count := DecodeInt(Substr(b, 0, NUM_RESTRICTIONS_BITS), NUM_RESTRICTIONS_BITS);
    if count.Err? {
      return Err(count.error);
    }
    var v := new RestrictionVector();
    var pos := DecodeEachAt(b, NUM_RESTRICTIONS_BITS, count.value, v);
    if pos.Err? {
      return Err(pos.error);
    }
    v.bitLength := pos.value;
    return Ok(v);
  }

  // ---- Round trip ----------------------------------------------------------

  lemma RangeRoundTrip(range: Run, tail: Bits)
    requires EncodeEntry(range).Ok? && range.first <= range.last
    ensures ReadRange(EncodeEntry(range).value + tail) == Ok(Read(range, tail))
  {
    var e, first := EncodeEntry(range).value, EncodeInt(range.first, VENDOR_ID_BITS).value;
    if range.Single() {
      ReadIntBack(range.first, VENDOR_ID_BITS, tail);
      assert (e + tail)[1..] == first + tail;
    } else {
      var last := EncodeInt(range.last, VENDOR_ID_BITS).value;
      ReadIntBack(range.first, VENDOR_ID_BITS, last + tail);
      ReadIntBack(range.last, VENDOR_ID_BITS, tail);
      assert (e + tail)[1..] == first + (last + tail);
    }
  }

  /** What reading a list of ranges does to the table. */
  function AddRanges(t: Table, key: Restriction, rs: seq<Run>): (u: Table) {
    if rs == [] then t else t[key := VendorsOf(t, key) + Covered(rs)]
  }

  lemma RangesStep(range: Run, tail: Bits, count: nat, key: Restriction, t: Table)
    requires EncodeEntry(range).Ok? && range.first <= range.last && count > 0 && key.Valid()
    ensures DecodeRanges(EncodeEntry(range).value + tail, count, key, t)
            == DecodeRanges(tail, count - 1, key, t[key := VendorsOf(t, key) + range.Ids()])
  {
    RangeRoundTrip(range, tail);
  }

  lemma AddRangesStep(t: Table, key: Restriction, rs: seq<Run>)
    requires rs != []
    ensures AddRanges(t[key := VendorsOf(t, key) + rs[0].Ids()], key, rs[1..]) == AddRanges(t, key, rs)
  {
    CoveredPrepend(rs[0], rs[1..]);
    assert [rs[0]] + rs[1..] == rs;
    assert VendorsOf(t, key) + rs[0].Ids() + Covered(rs[1..]) == VendorsOf(t, key) + Covered(rs);
    if rs[1..] == [] {
      assert Covered(rs) == rs[0].Ids();
    }
  }

  lemma {:induction false} RangesRoundTrip(rs: seq<Run>, tail: Bits, key: Restriction, t: Table)
    requires EncodeEntries(rs).Ok? && key.Valid()
    requires forall r :: r in rs ==> r.first <= r.last
    ensures DecodeRanges(EncodeEntries(rs).value + tail, |rs|, key, t) == Ok(Read(AddRanges(t, key, rs), tail))
    decreases |rs|
  {
    if rs == [] {
      assert [] + tail == tail;
    } else {
      EntriesFront(rs, tail);
      var rest := EncodeEntries(rs[1..]).value;
      RangesStep(rs[0], rest + tail, |rs|, key, t);
      RangesRoundTrip(rs[1..], tail, key, t[key := VendorsOf(t, key) + rs[0].Ids()]);
      AddRangesStep(t, key, rs);
    }
  }

  lemma OneRoundTrip(key: Restriction, vendors: set<nat>, gvl: set<nat>, tail: Bits, t: Table)
    requires EncodeOne(key, vendors, gvl).Ok? && key.Valid()
    ensures DecodeOne(EncodeOne(key, vendors, gvl).value + tail, t)
            == Ok(Read(AddRanges(t, key, Ranges(vendors, gvl)), tail))
  {
    var rs := Ranges(vendors, gvl);
    var purpose, kind := EncodeInt(key.purposeId, PURPOSE_ID_BITS).value, EncodeInt(key.kind, RESTRICTION_TYPE_BITS).value;
    var count, entries := EncodeInt(|rs|, NUM_ENTRIES_BITS).value, EncodeEntries(rs).value;
    Regroup(purpose, kind, count, entries + tail);
    assert purpose + kind + count + entries + tail == purpose + kind + count + (entries + tail);
    ReadIntBack(key.purposeId, PURPOSE_ID_BITS, kind + (count + (entries + tail)));
    ReadIntBack(key.kind, RESTRICTION_TYPE_BITS, count + (entries + tail));
    ReadIntBack(|rs|, NUM_ENTRIES_BITS, entries + tail);
    MergedWellFormed(Sorted(vendors), gvl, |Sorted(vendors)|);
    RangesRoundTrip(rs, tail, key, t);
  }

  /** What reading all restrictions does to the table. */
  function ReadTable(order: seq<Restriction>, t: Table, gvl: set<nat>, acc: Table): (u: Table) {
    if order == [] then acc
    else ReadTable(order[1..], t, gvl, AddRanges(acc, order[0], Ranges(VendorsOf(t, order[0]), gvl)))
  }

  lemma EachStep(bits: Bits, key: Restriction, vendors: set<nat>, gvl: set<nat>, tail: Bits, count: nat, acc: Table)
    requires EncodeOne(key, vendors, gvl).Ok? && key.Valid() && bits == EncodeOne(key, vendors, gvl).value + tail
    ensures DecodeEach(bits, count + 1, acc) == DecodeEach(tail, count, AddRanges(acc, key, Ranges(vendors, gvl)))
  {
    OneRoundTrip(key, vendors, gvl, tail, acc);
    EachUnfold(bits, count + 1, acc);
  }

  lemma EachFront(order: seq<Restriction>, t: Table, gvl: set<nat>, tail: Bits)
    requires order != [] && EncodeEach(order, t, gvl).Ok?
    ensures EncodeOne(order[0], VendorsOf(t, order[0]), gvl).Ok? && EncodeEach(order[1..], t, gvl).Ok?
    ensures EncodeEach(order, t, gvl).value + tail
            == EncodeOne(order[0], VendorsOf(t, order[0]), gvl).value + (EncodeEach(order[1..], t, gvl).value + tail)
  {
    var head, rest := EncodeOne(order[0], VendorsOf(t, order[0]), gvl).value, EncodeEach(order[1..], t, gvl).value;
    assert (head + rest) + tail == head + (rest + tail);
  }

  lemma ReadTableStep(order: seq<Restriction>, t: Table, gvl: set<nat>, acc: Table)
    requires order != []
    ensures ReadTable(order, t, gvl, acc)
            == ReadTable(order[1..], t, gvl, AddRanges(acc, order[0], Ranges(VendorsOf(t, order[0]), gvl)))
  {
  }

  lemma EachCons(order: seq<Restriction>, t: Table, gvl: set<nat>, tail: Bits, acc: Table, next: Table, r: Result<Read<Table>, TcError>)
    requires order != [] && EncodeEach(order, t, gvl).Ok? && order[0].Valid()
    requires next == AddRanges(acc, order[0], Ranges(VendorsOf(t, order[0]), gvl))
    requires EncodeEach(order[1..], t, gvl).Ok?
    requires DecodeEach(EncodeEach(order[1..], t, gvl).value + tail, |order[1..]|, next) == r
    ensures DecodeEach(EncodeEach(order, t, gvl).value + tail, |order|, acc) == r
  {
    var bits, more := EncodeEach(order, t, gvl).value + tail, EncodeEach(order[1..], t, gvl).value + tail;
    EachFront(order, t, gvl, tail);
    EachStep(bits, order[0], VendorsOf(t, order[0]), gvl, more, |order[1..]|, acc);
  }

  lemma {:induction false} EachRoundTrip(order: seq<Restriction>, t: Table, gvl: set<nat>, tail: Bits, acc: Table)
    requires EncodeEach(order, t, gvl).Ok?
    requires forall k :: k in order ==> k.Valid()
    ensures DecodeEach(EncodeEach(order, t, gvl).value + tail, |order|, acc)
            == Ok(Read(ReadTable(order, t, gvl, acc), tail))
    decreases |order|
  {
    if order == [] {
      assert [] + tail == tail;
    } else {
      var next := AddRanges(acc, order[0], Ranges(VendorsOf(t, order[0]), gvl));
      EachFront(order, t, gvl, tail);
      EachRoundTrip(order[1..], t, gvl, tail, next);
      EachCons(order, t, gvl, tail, acc, next, Ok(Read(ReadTable(order[1..], t, gvl, next), tail)));
      ReadTableStep(order, t, gvl, acc);
    }
  }

  /** Each restriction ends up with the filled form of its own vendors. */
  lemma {:induction false} ReadTableVendors(order: seq<Restriction>, t: Table, gvl: set<nat>, acc: Table, k: Restriction)
    requires NoDuplicates(order)
    ensures VendorsOf(ReadTable(order, t, gvl, acc), k)
            == VendorsOf(acc, k) + if k in order then Filled(VendorsOf(t, k), gvl) else {}
    decreases |order|
  {
    if order != [] {
      var rs := Ranges(VendorsOf(t, order[0]), gvl);
      ReadTableVendors(order[1..], t, gvl, AddRanges(acc, order[0], rs), k);
      assert forall j :: 0 < j < |order| ==> order[0] != order[j];
      assert k in order <==> k == order[0] || k in order[1..];
    }
  }

  /** A list of ranges can be written exactly when its ids fit in 16 bits. */
  lemma {:induction false} EntriesFitIff(rs: seq<Run>)
    ensures EncodeEntries(rs).Ok? <==> forall r :: r in rs ==> r.first < 65536 && r.last < 65536
  {
    if rs != [] {
      Widths();
      FixedIntRoundTrip(rs[0].first, VENDOR_ID_BITS);
      FixedIntRoundTrip(rs[0].last, VENDOR_ID_BITS);
      EntriesFitIff(rs[1..]);
      assert rs == [rs[0]] + rs[1..];
    }
  }

  /** One restriction can be written exactly when each of its fields fits its width. */
  lemma EncodeOneSucceedsIff(key: Restriction, vendors: set<nat>, gvl: set<nat>)
    requires key.Valid()
    ensures EncodeOne(key, vendors, gvl).Ok? <==>
              && key.purposeId < 64 && |Ranges(vendors, gvl)| < 4096
              && forall v :: v in vendors ==> v < 65536
  {
    var a, rs := Sorted(vendors), Ranges(vendors, gvl);
    Widths();
    FixedIntRoundTrip(key.purposeId, PURPOSE_ID_BITS);
    FixedIntRoundTrip(key.kind, RESTRICTION_TYPE_BITS);
    FixedIntRoundTrip(|rs|, NUM_ENTRIES_BITS);
    EntriesFitIff(rs);
    MergedWellFormed(a, gvl, |a|);
    if EncodeEntries(rs).Ok? {
      forall v | v in vendors
        ensures v < 65536
      {
        FilledAgreesOnGvl(vendors, gvl);
        var r := CoveringRun(rs, v);
      }
    }
  }

  lemma ReadTableAgrees(order: seq<Restriction>, t: Table, gvl: set<nat>, k: Restriction)
    requires NoDuplicates(order) && forall key :: key in order <==> key in t
    ensures var u := ReadTable(order, t, gvl, map[]);
            && VendorsOf(t, k) <= VendorsOf(u, k)
            && VendorsOf(u, k) * gvl == VendorsOf(t, k) * gvl
            && (VendorsOf(t, k) == {} ==> VendorsOf(u, k) == {})
  {
    ReadTableVendors(order, t, gvl, map[], k);
    FilledAgreesOnGvl(VendorsOf(t, k), gvl);
    var u := ReadTable(order, t, gvl, map[]);
    assert VendorsOf(u, k) == if k in order then Filled(VendorsOf(t, k), gvl) else {};
  }

  /**
   Decoding an encoded restriction vector, followed by anything, yields for each
   restriction a superset of its vendors that agrees with them on the whole vendor
   list, invents no restriction, and reports the length of the encoding.
   */
  lemma RestrictionRoundTrip(order: seq<Restriction>, t: Table, gvl: set<nat>, tail: Bits)
    requires NoDuplicates(order) && forall k :: k in order <==> k in t
    requires forall k :: k in order ==> k.Valid()
    requires EncodeRestrictions(order, t, gvl).Ok?
    ensures var e := EncodeRestrictions(order, t, gvl).value;
            var d := DecodeRestrictions(e + tail);
            && d.Ok? && d.value.bitLength == |e|
            && forall k: Restriction ::
                 && VendorsOf(t, k) <= VendorsOf(d.value.table, k)
                 && VendorsOf(d.value.table, k) * gvl == VendorsOf(t, k) * gvl
                 && (VendorsOf(t, k) == {} ==> VendorsOf(d.value.table, k) == {})
  {
    var count, body := EncodeInt(|order|, NUM_RESTRICTIONS_BITS).value, EncodeEach(order, t, gvl).value;
    ReadIntBack(|order|, NUM_RESTRICTIONS_BITS, body + tail);
    assert count + body + tail == count + (body + tail);
    EachRoundTrip(order, t, gvl, tail, map[]);
    var u := ReadTable(order, t, gvl, map[]);
    forall k: Restriction
      ensures VendorsOf(t, k) <= VendorsOf(u, k)
      ensures VendorsOf(u, k) * gvl == VendorsOf(t, k) * gvl
      ensures VendorsOf(t, k) == {} ==> VendorsOf(u, k) == {}
    {
      ReadTableAgrees(order, t, gvl, k);
    }
  }

  /** A list of restrictions can be written exactly when each of them can. */
  lemma {:induction false} EachSucceedsIff(order: seq<Restriction>, t: Table, gvl: set<nat>)
    requires forall k :: k in order ==> k.Valid()
    ensures EncodeEach(order, t, gvl).Ok? <==> forall k :: k in order ==> Writable(k, VendorsOf(t, k), gvl)
    decreases |order|
  {
    if order != [] {
      EncodeOneSucceedsIff(order[0], VendorsOf(t, order[0]), gvl);
      EachSucceedsIff(order[1..], t, gvl);
      assert forall k :: k in order <==> k == order[0] || k in order[1..];
    }
  }

  /** Every field of the restriction fits its width. */
  ghost predicate Writable(key: Restriction, vendors: set<nat>, gvl: set<nat>) {
    key.purposeId < 64 && |Ranges(vendors, gvl)| < 4096 && forall v :: v in vendors ==> v < 65536
  }

  /** A restriction vector can be written exactly when there are fewer than 4096 restrictions and each can be. */
  lemma EncodeSucceedsIff(order: seq<Restriction>, t: Table, gvl: set<nat>)
    requires forall k :: k in order ==> k.Valid()
    ensures EncodeRestrictions(order, t, gvl).Ok? <==>
              |order| < 4096 && forall k :: k in order ==> Writable(k, VendorsOf(t, k), gvl)
  {
    Widths();
    FixedIntRoundTrip(|order|, NUM_RESTRICTIONS_BITS);
    EachSucceedsIff(order, t, gvl);
  }

  /**
   When the vendor list allows every restricted vendor, decoding an encoding and then installing the
   list gives back exactly the original vendors.
   */
  lemma ExactRoundTrip(order: seq<Restriction>, t: Table, list: Gvl, tail: Bits)
    requires NoDuplicates(order) && forall k :: k in order <==> k in t
    requires forall k :: k in order ==> k.Valid()
    requires forall k :: k in t ==> Allowed(list, k, t[k]) == t[k]
    requires EncodeRestrictions(order, t, list.Keys).Ok?
    ensures var d := DecodeRestrictions(EncodeRestrictions(order, t, list.Keys).value + tail);
            d.Ok? && forall k: Restriction :: Allowed(list, k, VendorsOf(d.value.table, k)) == VendorsOf(t, k)
  {
    RestrictionRoundTrip(order, t, list.Keys, tail);
    var u := DecodeRestrictions(EncodeRestrictions(order, t, list.Keys).value + tail).value.table;
    forall k: Restriction
      ensures Allowed(list, k, VendorsOf(u, k)) == VendorsOf(t, k)
    {
      AllowedAgrees(list, k, VendorsOf(u, k), VendorsOf(t, k));
      assert Allowed(list, k, VendorsOf(t, k)) == VendorsOf(t, k);
    }
  }

  /** The list decides only about vendors it lists. */
  lemma AllowedAgrees(list: Gvl, key: Restriction, a: set<nat>, b: set<nat>)
    requires a * list.Keys == b * list.Keys
    ensures Allowed(list, key, a) == Allowed(list, key, b)
  {
    forall v: nat
      ensures v in Allowed(list, key, a) <==> v in Allowed(list, key, b)
    {
      assert v in a * list.Keys <==> v in b * list.Keys;
    }
  }
}
