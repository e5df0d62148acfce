/**
 Which form of a vendor vector is really shorter (class `ce` of docs/theme/c15t@2.0.0-rc.3.js). The
 encoder's running cost leaves out one bit of every single entry, and is compared before the last
 id is paid for.
 */
module VendorLengths {
  import opened TcBits
  import opened VendorVector
  import opened VendorRuns
  import opened VendorCodec

  function Singles(rs: seq<Run>): (n: nat) {
    |rs| - RangeCount(rs)
  }

  /** The length of the range form after the form bit. */
  function RangeFormLength(rs: seq<Run>): (n: nat) {
    NUM_ENTRIES_BITS + (SINGLE_OR_RANGE_BITS + VENDOR_ID_BITS) * |rs| + VENDOR_ID_BITS * RangeCount(rs)
  }

  lemma {:induction false} RangeCountPrepend(r: Run, rs: seq<Run>)
    ensures RangeCount([r] + rs) == RangeCount(rs) + if r.Single() then 0 else 1
  {
    if rs == [] {
      assert [r] + rs == [r] && [r][..0] == [];
    } else {
      RangeCountPrepend(r, rs[..|rs| - 1]);
      assert ([r] + rs)[..|rs|] == [r] + rs[..|rs| - 1];
    }
  }

  lemma {:induction false} EntriesLength(rs: seq<Run>)
    requires EncodeEntries(rs).Ok?
    ensures |EncodeEntries(rs).value| == 17 * |rs| + 16 * RangeCount(rs)
  {
    if rs != [] {
      EntriesLength(rs[1..]);
      RangeCountPrepend(rs[0], rs[1..]);
      assert [rs[0]] + rs[1..] == rs;
      FixedIntRoundTrip(rs[0].first, VENDOR_ID_BITS);
      FixedIntRoundTrip(rs[0].last, VENDOR_ID_BITS);
    }
  }

  /** What the encoder writes after the header: 17 bits, then the chosen form. */
  lemma EncodedLength(ids: set<nat>, maxId: nat)
    requires IsMaximum(ids, maxId) && EncodeVendors(ids, maxId).Ok?
    ensures |EncodeVendors(ids, maxId).value|
            == HEADER_BITS + if RangesChosen(ids, maxId) then RangeFormLength(Runs(ids, maxId)) else maxId
  {
    var rs := Runs(ids, maxId);
    FixedIntRoundTrip(maxId, MAX_ID_BITS);
    if RangesChosen(ids, maxId) {
      EntriesLength(rs);
      FixedIntRoundTrip(|rs|, NUM_ENTRIES_BITS);
    }
  }

  /** By how many bits the other form would have been shorter. */
  function Excess(ids: set<nat>, maxId: nat): (d: int) {
    var ranges := RangeFormLength(Runs(ids, maxId));
    if RangesChosen(ids, maxId) then ranges - maxId else maxId - ranges
  }

  lemma HasRun(ids: set<nat>, maxId: nat)
    requires IsMaximum(ids, maxId) && maxId > 0
    ensures |Runs(ids, maxId)| > 0
  {
    RunsExact(ids, maxId);
  }

  /** Exactly when the chosen form is no longer than the other. */
  lemma ChosenIsShortestIff(ids: set<nat>, maxId: nat)
    requires IsMaximum(ids, maxId)
    ensures var rs := Runs(ids, maxId);
            Excess(ids, maxId) <= 0 <==>
              if maxId <= RANGE_THRESHOLD then maxId <= RangeFormLength(rs)
              else RangeFormLength(rs) <= maxId || maxId + 4 <= 16 * |rs| + 17 * RangeCount(rs)
  {
    var runs, ranges := |Runs(ids, maxId)|, RangeCount(Runs(ids, maxId));
    assert ranges <= runs;
    assert RangeFormLength(Runs(ids, maxId)) == 12 + 17 * runs + 16 * ranges;
  }

  /** It is longer by at most 15 bits and one for every single entry. */
  lemma ExcessBounded(ids: set<nat>, maxId: nat)
    requires IsMaximum(ids, maxId)
    ensures Excess(ids, maxId) <= 15 + Singles(Runs(ids, maxId))
  {
    if maxId > 0 {
      HasRun(ids, maxId);
    }
  }

  /** That bound is reached by any `n` non-adjacent ids, four or more, with maximum 16 * n - 3. */
  lemma ExcessReached(ids: set<nat>, maxId: nat, n: nat)
    requires IsMaximum(ids, maxId) && !Adjacent(ids) && |ids| == n >= 4 && maxId == 16 * n - 3
    ensures RangesChosen(ids, maxId) && Excess(ids, maxId) == 15 + n == 15 + Singles(Runs(ids, maxId))
  {
    SingleRuns(ids, maxId);
    assert (set x | x in ids && x <= maxId) == ids;
  }

  /** There are such ids for every `n`: sixteen apart. */
  lemma ExcessInhabited(n: nat) returns (ids: set<nat>)
    requires n >= 4
    ensures IsMaximum(ids, 16 * n - 3) && !Adjacent(ids) && |ids| == n
  {
    ids := Spaced(n);
    SpacedApart(n);
    assert 16 * n - 3 in ids;
  }
}
