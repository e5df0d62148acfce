/**
 How the restriction encoder groups the sorted vendors of one restriction into
 ranges: neighbours are merged when no vendor of the global vendor list (GVL)
 lies strictly between them.
 */
module RestrictionRanges {
  import opened VendorRuns

  ghost predicate StrictlyAscending(a: seq<nat>) {
    forall i, j :: 0 <= i < j < |a| ==> a[i] < a[j]
  }

  ghost function Maximum(s: set<nat>): (m: nat)
    requires s != {}
    ensures m in s && forall x :: x in s ==> x <= m
  {
    var y :| y in s;
    if s == {y} then y
    else
      assert s == (s - {y}) + {y} && s - {y} != {};
      var n := Maximum(s - {y});
      if y > n then y else n
  }

  /** The vendors in ascending order. */
  function Sorted(s: set<nat>): (a: seq<nat>)
    ensures StrictlyAscending(a)
    ensures forall x :: x in a <==> x in s
  {
    if s == {} then []
    else
      assert Maximum(s) in s;
      var m :| m in s && forall x :: x in s ==> x <= m;
      Sorted(s - {m}) + [m]
  }

  /** The first listed vendor in (after, last], or `after` when there is none. */
  function NextListed(gvl: set<nat>, after: nat, last: nat): (n: nat)
    ensures n == after || (after < n <= last && n in gvl)
    ensures forall x :: after < x <= last && x in gvl ==> n != after && n <= x
    decreases last
  {
    if after >= last then after
    else
      var before := NextListed(gvl, after, last - 1);
      if before != after then before else if last in gvl then last else after
  }

  /** The range that holds `a[p]` ends there. */
  predicate Closes(a: seq<nat>, gvl: set<nat>, p: nat)
    requires p < |a|
  {
    p == |a| - 1 || a[p + 1] > NextListed(gvl, a[p], a[|a| - 1])
  }

  /** The index at which the range that holds `a[p]` begins. */
  function GroupStart(a: seq<nat>, gvl: set<nat>, p: nat): (s: nat)
    requires p < |a|
    ensures s <= p
  {
    if p > 0 && !Closes(a, gvl, p - 1) then GroupStart(a, gvl, p - 1) else p
  }

  /** The ranges that end among the first `k` vendors. */
  function Merged(a: seq<nat>, gvl: set<nat>, k: nat): (rs: seq<Run>)
    requires k <= |a|
  {
    if k == 0 then []
    else Merged(a, gvl, k - 1)
         + if Closes(a, gvl, k - 1) then [Run(a[GroupStart(a, gvl, k - 1)], a[k - 1])] else []
  }

  lemma {:induction false} MergedWellFormed(a: seq<nat>, gvl: set<nat>, k: nat)
    requires k <= |a| && StrictlyAscending(a)
    ensures forall r :: r in Merged(a, gvl, k) ==> r.first in a && r.last in a && r.first <= r.last
  {
    if k > 0 {
      MergedWellFormed(a, gvl, k - 1);
    }
  }

  /** Inside one group every listed vendor is one of the group's own. */
  lemma {:induction false} GroupListed(a: seq<nat>, gvl: set<nat>, p: nat, x: nat)
    requires p < |a| && StrictlyAscending(a)
    requires a[GroupStart(a, gvl, p)] <= x <= a[p] && x in gvl
    ensures x in a
    decreases p
  {
    if p > 0 && !Closes(a, gvl, p - 1) && x < a[p] {
      assert x <= a[p - 1] by {
        var n := NextListed(gvl, a[p - 1], a[|a| - 1]);
        assert a[p] <= n;
      }
      GroupListed(a, gvl, p - 1, x);
    }
  }

  /** The range that ends at `a[p]`. */
  function RangeEnding(a: seq<nat>, gvl: set<nat>, p: nat): (r: Run)
    requires p < |a|
  {
    Run(a[GroupStart(a, gvl, p)], a[p])
  }

  lemma MergedCovered(a: seq<nat>, gvl: set<nat>, k: nat)
    requires 0 < k <= |a|
    ensures Covered(Merged(a, gvl, k))
            == Covered(Merged(a, gvl, k - 1)) + if Closes(a, gvl, k - 1) then RangeEnding(a, gvl, k - 1).Ids() else {}
  {
    var before := Merged(a, gvl, k - 1);
    CoveredAppend(before, RangeEnding(a, gvl, k - 1));
    assert before + [] == before;
  }

  /** The ranges closed so far hold no listed vendor that was not given. */
  lemma {:induction false} MergedListed(a: seq<nat>, gvl: set<nat>, k: nat, x: nat)
    requires k <= |a| && StrictlyAscending(a)
    requires x in Covered(Merged(a, gvl, k)) && x in gvl
    ensures x in a
    decreases k
  {
    MergedCovered(a, gvl, k);
    if x in Covered(Merged(a, gvl, k - 1)) {
      MergedListed(a, gvl, k - 1, x);
    } else {
      var r := RangeEnding(a, gvl, k - 1);
      assert r.first <= x <= r.last;
      GroupListed(a, gvl, k - 1, x);
    }
  }

  /** A vendor at or behind the start of a group lies in its range. */
  lemma InRange(a: seq<nat>, gvl: set<nat>, p: nat, j: nat)
    requires p < |a| && GroupStart(a, gvl, p) <= j <= p && StrictlyAscending(a)
    ensures a[j] in RangeEnding(a, gvl, p).Ids()
  {
    var s := GroupStart(a, gvl, p);
    assert a[s] <= a[j] <= a[p];
  }

  /** Each of the first `k` vendors is in a closed range or in the group still open. */
  lemma {:induction false} MergedReaches(a: seq<nat>, gvl: set<nat>, k: nat, j: nat)
    requires j < k <= |a| && StrictlyAscending(a)
    ensures a[j] in Covered(Merged(a, gvl, k)) || (!Closes(a, gvl, k - 1) && GroupStart(a, gvl, k - 1) <= j)
    decreases k
  {
    MergedCovered(a, gvl, k);
    if j < k - 1 {
      MergedReaches(a, gvl, k - 1, j);
    }
    if Closes(a, gvl, k - 1) && GroupStart(a, gvl, k - 1) <= j {
      InRange(a, gvl, k - 1, j);
    }
  }

  /** A group does not run across the end of another. */
  lemma {:induction false} GroupUnbroken(a: seq<nat>, gvl: set<nat>, p: nat, j: nat)
    requires j < p < |a| && GroupStart(a, gvl, p) <= j
    ensures !Closes(a, gvl, j)
    decreases p
  {
    if j < p - 1 {
      GroupUnbroken(a, gvl, p - 1, j);
    }
  }

  /** A range of the merged ones ends at some closing index. */
  lemma {:induction false} MergedFrom(a: seq<nat>, gvl: set<nat>, k: nat, r: Run) returns (p: nat)
    requires k <= |a| && r in Merged(a, gvl, k)
    ensures p < k && Closes(a, gvl, p) && r == RangeEnding(a, gvl, p)
  {
    if r in Merged(a, gvl, k - 1) {
      p := MergedFrom(a, gvl, k - 1, r);
    } else {
      p := k - 1;
    }
  }

  lemma {:induction false} MergedHas(a: seq<nat>, gvl: set<nat>, k: nat, p: nat)
    requires p < k <= |a| && Closes(a, gvl, p)
    ensures RangeEnding(a, gvl, p) in Merged(a, gvl, k)
  {
    if p < k - 1 {
      MergedHas(a, gvl, k - 1, p);
    }
  }

  /** A group that is open at `q` is closed later on. */
  lemma {:induction false} ClosedLater(a: seq<nat>, gvl: set<nat>, q: nat) returns (p: nat)
    requires q < |a| && !Closes(a, gvl, q)
    ensures q < p < |a| && Closes(a, gvl, p) && GroupStart(a, gvl, p) <= q
    decreases |a| - q
  {
    p := q + 1;
    if !Closes(a, gvl, p) {
      p := ClosedLater(a, gvl, p);
      GroupUnbrokenBack(a, gvl, p, q);
    }
  }

  /** A group that reaches back to `q + 1` reaches on to `q` when that is not an end. */
  lemma {:induction false} GroupUnbrokenBack(a: seq<nat>, gvl: set<nat>, p: nat, q: nat)
    requires q < p < |a| && GroupStart(a, gvl, p) <= q + 1 && !Closes(a, gvl, q)
    ensures GroupStart(a, gvl, p) <= q
    decreases p
  {
    if q + 1 < p {
      GroupUnbroken(a, gvl, p, p - 1);
      GroupUnbrokenBack(a, gvl, p - 1, q);
    }
  }

  /** Both vendors are in one range. */
  ghost predicate Together(rs: seq<Run>, x: nat, y: nat) {
    exists r :: r in rs && x in r.Ids() && y in r.Ids()
  }

  /**
   Neighbouring vendors share a range exactly when no listed vendor lies strictly between them, and
   there is one from the second on, up to the last vendor.
   */
  lemma NeighboursShareIff(a: seq<nat>, gvl: set<nat>, q: nat)
    requires StrictlyAscending(a) && q + 1 < |a|
    ensures Together(Merged(a, gvl, |a|), a[q], a[q + 1]) <==>
              && (forall x :: x in gvl ==> !(a[q] < x < a[q + 1]))
              && exists x :: x in gvl && a[q + 1] <= x <= a[|a| - 1]
  {
    var next := NextListed(gvl, a[q], a[|a| - 1]);
    if Closes(a, gvl, q) {
      forall r | r in Merged(a, gvl, |a|)
        ensures !(a[q] in r.Ids() && a[q + 1] in r.Ids())
      {
        var p := MergedFrom(a, gvl, |a|, r);
        if p > q && GroupStart(a, gvl, p) <= q {
          GroupUnbroken(a, gvl, p, q);
        }
      }
    } else {
      var p := ClosedLater(a, gvl, q);
      MergedHas(a, gvl, |a|, p);
      InRange(a, gvl, p, q);
      InRange(a, gvl, p, q + 1);
    }
  }

  /** The vendors that a reader of the ranges sees. */
  function Filled(s: set<nat>, gvl: set<nat>): (f: set<nat>) {
    Covered(Merged(Sorted(s), gvl, |Sorted(s)|))
  }

  /**
   Merging across unlisted ids only ever adds unlisted ids: the reader sees every
   vendor that was restricted, and no listed vendor that was not.
   */
  lemma FilledAgreesOnGvl(s: set<nat>, gvl: set<nat>)
    ensures s <= Filled(s, gvl)
    ensures Filled(s, gvl) * gvl == s * gvl
  {
    var a := Sorted(s);
    forall x | x in s
      ensures x in Filled(s, gvl)
    {
      var j :| 0 <= j < |a| && a[j] == x;
      MergedReaches(a, gvl, |a|, j);
    }
    forall x | x in Filled(s, gvl) && x in gvl
      ensures x in s
    {
      MergedListed(a, gvl, |a|, x);
    }
  }

  /** When every id between the vendors is listed, nothing is added at all. */
  lemma FilledExact(s: set<nat>, gvl: set<nat>)
    requires forall x, y, z :: x in s && z in s && x <= y <= z ==> y in gvl
    ensures Filled(s, gvl) == s
  {
    FilledAgreesOnGvl(s, gvl);
    var a := Sorted(s);
    MergedWellFormed(a, gvl, |a|);
    forall x | x in Filled(s, gvl)
      ensures x in s
    {
      var r := CoveringRun(Merged(a, gvl, |a|), x);
      assert x in Filled(s, gvl) * gvl;
    }
  }
}
