/**
 Maximal runs of consecutive ids: the reference description of what the range
 form of a vendor vector lists, independent of the encoder's running state.
 */
module VendorRuns {
  import opened VendorVector

  function IdRange(first: nat, last: nat): (ids: set<nat>)
    ensures forall x :: x in ids <==> first <= x <= last
    decreases last - first
  {
    if first > last then {}
    else if first == last then {first}
    else IdRange(first, last - 1) + {last}
  }

  /** The ids first, first + 1, ..., last. */
  datatype Run = Run(first: nat, last: nat) {
    function Ids(): (ids: set<nat>)
      ensures forall x :: x in ids <==> first <= x <= last
    {
      IdRange(first, last)
    }

    predicate Single() {
      first == last
    }
  }

  /** The first id of the run that `k` belongs to. */
  function RunStart(ids: set<nat>, k: nat): (s: nat)
    requires k in ids
    ensures s <= k && s in ids
    ensures forall x :: s <= x <= k ==> x in ids
    ensures s > 0 ==> s - 1 !in ids
  {
    if k > 0 && k - 1 in ids then RunStart(ids, k - 1) else k
  }

  /** The runs whose last id is at most `k`, in ascending order. */
  function Runs(ids: set<nat>, k: nat): (rs: seq<Run>)
    ensures forall i :: 0 <= i < |rs| ==> rs[i].last <= k
  {
    if k == 0 then []
    else Runs(ids, k - 1) + if k in ids && k + 1 !in ids then [Run(RunStart(ids, k), k)] else []
  }

  /** How many of the runs span more than one id. */
  function RangeCount(rs: seq<Run>): (n: nat)
    ensures n <= |rs|
  {
    if rs == [] then 0
    else RangeCount(rs[..|rs| - 1]) + if rs[|rs| - 1].Single() then 0 else 1
  }

  /** The ids covered by a list of runs. */
  function Covered(rs: seq<Run>): (ids: set<nat>) {
    if rs == [] then {} else Covered(rs[..|rs| - 1]) + rs[|rs| - 1].Ids()
  }

  lemma CoveredAppend(rs: seq<Run>, r: Run)
    ensures Covered(rs + [r]) == Covered(rs) + r.Ids()
  {
    assert (rs + [r])[..|rs|] == rs;
  }

  lemma {:induction false} CoveredPrepend(r: Run, rs: seq<Run>)
    ensures Covered([r] + rs) == r.Ids() + Covered(rs)
  {
    if rs == [] {
      CoveredAppend([], r);
      assert [r] + rs == [] + [r];
    } else {
      CoveredPrepend(r, rs[..|rs| - 1]);
      assert [r] + rs == ([r] + rs[..|rs| - 1]) + [rs[|rs| - 1]];
      CoveredAppend([r] + rs[..|rs| - 1], rs[|rs| - 1]);
    }
  }

  /** An id is covered by one of the runs. */
  lemma {:induction false} CoveringRun(rs: seq<Run>, x: nat) returns (r: Run)
    requires x in Covered(rs)
    ensures r in rs && x in r.Ids()
  {
    if x in rs[|rs| - 1].Ids() {
      r := rs[|rs| - 1];
    } else {
      r := CoveringRun(rs[..|rs| - 1], x);
    }
  }

  ghost predicate Adjacent(ids: set<nat>) {
    exists x :: x in ids && x + 1 in ids
  }

  lemma RunsWellFormed(ids: set<nat>, k: nat)
    ensures forall r :: r in Runs(ids, k) ==> r.first <= r.last <= k && r.first in ids && r.last in ids
  {
  }

  /** The runs up to `k` cover exactly the ids of those runs, none outside the set. */
  lemma {:induction false} RunsCover(ids: set<nat>, k: nat, x: nat)
    requires 0 !in ids
    ensures x in Covered(Runs(ids, k)) ==> x in ids
    ensures x in ids && x <= k && k + 1 !in ids ==> x in Covered(Runs(ids, k))
    decreases k
  {
    if k > 0 {
      var before, rs := Runs(ids, k - 1), Runs(ids, k);
      RunsCover(ids, k - 1, x);
      if k in ids && k + 1 !in ids {
        var r := Run(RunStart(ids, k), k);
        assert rs == before + [r];
        CoveredAppend(before, r);
        if x in ids && x <= k && x !in Covered(before) {
          RunsReach(ids, k - 1, x);
        }
      } else {
        assert rs == before;
        if k !in ids && x in ids && x <= k {
          assert x <= k - 1;
        }
      }
    }
  }

  /** An id not yet covered belongs to the run that is still open. */
  lemma {:induction false} RunsReach(ids: set<nat>, k: nat, x: nat)
    requires 0 !in ids && x in ids && x <= k + 1 && k + 1 in ids
    ensures x in Covered(Runs(ids, k)) || RunStart(ids, k + 1) <= x
    decreases k
  {
    if k > 0 && x <= k {
      if k in ids {
        RunsReach(ids, k - 1, x);
        assert Runs(ids, k) == Runs(ids, k - 1);
      } else {
        assert Runs(ids, k) == Runs(ids, k - 1);
        RunsCover(ids, k - 1, x);
      }
    }
  }

  /** The runs of a vector cover exactly its ids. */
  lemma RunsExact(ids: set<nat>, maxId: nat)
    requires IsMaximum(ids, maxId)
    ensures Covered(Runs(ids, maxId)) == ids
  {
    forall x: nat
      ensures x in Covered(Runs(ids, maxId)) <==> x in ids
    {
      RunsCover(ids, maxId, x);
    }
  }

  /** The runs are single ids exactly when no two ids are adjacent; there is then one per id. */
  lemma {:induction false} SingleRuns(ids: set<nat>, k: nat)
    requires 0 !in ids
    ensures !Adjacent(ids) ==> RangeCount(Runs(ids, k)) == 0
    ensures !Adjacent(ids) ==> |Runs(ids, k)| == |set x | x in ids && x <= k|
  {
    if k == 0 {
      assert (set x | x in ids && x <= k) == {};
    } else {
      SingleRuns(ids, k - 1);
      var upper, lower := set x | x in ids && x <= k, set x | x in ids && x <= k - 1;
      assert upper == lower + if k in ids then {k} else {};
      var rs := Runs(ids, k);
      if k in ids && k + 1 !in ids {
        assert rs[..|rs| - 1] == Runs(ids, k - 1);
      } else {
        assert rs == Runs(ids, k - 1);
      }
    }
  }

  /** A non-singleton run survives in the count of everything that extends its prefix. */
  lemma {:induction false} RangeCountZero(rs: seq<Run>)
    requires RangeCount(rs) == 0
    ensures forall r :: r in rs ==> r.Single()
  {
    if rs != [] {
      RangeCountZero(rs[..|rs| - 1]);
      assert rs == rs[..|rs| - 1] + [rs[|rs| - 1]];
    }
  }

  /** Without a range entry no two ids are adjacent. */
  lemma NoRangesNoAdjacent(ids: set<nat>, maxId: nat)
    requires IsMaximum(ids, maxId) && RangeCount(Runs(ids, maxId)) == 0
    ensures !Adjacent(ids)
  {
    var rs := Runs(ids, maxId);
    RangeCountZero(rs);
    RunsExact(ids, maxId);
    forall x: nat | x in ids
      ensures x + 1 !in ids
    {
      assert x in Covered(rs);
      var r := CoveringRun(rs, x);
      assert r.last == x;
      RunsMaximal(ids, maxId, r);
    }
  }

  /** A run consists of ids, and cannot be extended at either end. */
  lemma {:induction false} RunsMaximal(ids: set<nat>, k: nat, r: Run)
    requires r in Runs(ids, k)
    ensures r.first <= r.last && r.Ids() <= ids
    ensures r.last + 1 !in ids && (r.first > 0 ==> r.first - 1 !in ids)
  {
    if r in Runs(ids, k - 1) {
      RunsMaximal(ids, k - 1, r);
    }
  }
}
