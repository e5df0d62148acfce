/**
 Which proposed matches get through, and in which order
 (script/github-check-new-issue-for-duplicates.py:1042-1059 and 1129-1189), said of positions in the lists.
 */
module MatchOrder {
  import opened Prelude
  import opened Selection
  import opened MatchFilter

  /** The candidate that a key stands for: the last of that key. */
  function LastOf(selected: seq<Candidate>, key: string): (c: Option<Candidate>) {
    if selected == [] then None
    else if selected[|selected| - 1].key == key then Some(selected[|selected| - 1])
    else LastOf(selected[..|selected| - 1], key)
  }

  lemma {:induction false} ByKeyIs(selected: seq<Candidate>, key: string)
    ensures LastOf(selected, key) == if key in ByKey(selected) then Some(ByKey(selected)[key]) else None
  {
    if selected != [] {
      ByKeyIs(selected[..|selected| - 1], key);
    }
  }

  /**
   A match gets through for an offered candidate in the expected state; for an open issue it must also
   name a root cause.
   */
  ghost predicate Passes(m: Match, selected: seq<Candidate>, expected: State) {
    && m.key.Some?
    && var c := LastOf(selected, m.key.value);
       && c.Some? && c.value.state == expected
       && !(c.value.kind == Issue && expected == Open && m.rootCause == "")
  }

  lemma AcceptableIff(m: Match, selected: seq<Candidate>, expected: State)
    ensures Acceptable(m, ByKey(selected), expected) <==> Passes(m, selected, expected)
  {
    if m.key.Some? {
      ByKeyIs(selected, m.key.value);
    }
  }

  ghost predicate Rising(at: seq<nat>, n: nat) {
    && (forall k :: 0 <= k < |at| ==> at[k] < n)
    && forall k, l :: 0 <= k < l < |at| ==> at[k] < at[l]
  }

  /** It gets through and no earlier one for the same key does. */
  ghost predicate FirstPassing(matches: seq<Match>, i: nat, selected: seq<Candidate>, expected: State)
    requires i < |matches|
  {
    && Passes(matches[i], selected, expected)
    && forall j :: 0 <= j < i && matches[j].key == matches[i].key ==> !Passes(matches[j], selected, expected)
  }

  /** The resolved matches are those of some rising positions. */
  ghost predicate Picks(rs: seq<Resolved>, at: seq<nat>, matches: seq<Match>) {
    && |at| == |rs| && Rising(at, |matches|)
    && forall k :: 0 <= k < |rs| ==> rs[k].proposal == matches[at[k]]
  }

  lemma EarlierPassing(matches: seq<Match>, i: nat, selected: seq<Candidate>, expected: State)
    requires i < |matches| - 1
    ensures FirstPassing(matches[..|matches| - 1], i, selected, expected) <==> FirstPassing(matches, i, selected, expected)
  {
    var init := matches[..|matches| - 1];
    assert init[i] == matches[i] && forall j :: 0 <= j < i ==> init[j] == matches[j];
  }

  ghost predicate AllFirst(at: seq<nat>, matches: seq<Match>, selected: seq<Candidate>, expected: State) {
    forall i :: 0 <= i < |matches| ==> (i in at <==> FirstPassing(matches, i, selected, expected))
  }

  lemma AllFirstExtend(at: seq<nat>, matches: seq<Match>, selected: seq<Candidate>, expected: State)
    requires matches != [] && Rising(at, |matches| - 1)
    requires AllFirst(at, matches[..|matches| - 1], selected, expected)
    ensures var n := |matches| - 1;
            AllFirst(if FirstPassing(matches, n, selected, expected) then at + [n] else at, matches, selected, expected)
  {
    var n := |matches| - 1;
    forall i | 0 <= i < n
      ensures i in at <==> FirstPassing(matches, i, selected, expected)
    {
      EarlierPassing(matches, i, selected, expected);
    }
  }

  lemma PicksExtend(rs: seq<Resolved>, at: seq<nat>, matches: seq<Match>, more: seq<Resolved>)
    requires matches != [] && Picks(rs, at, matches[..|matches| - 1])
    requires |more| == |rs| + 1 && rs <= more && more[|rs|].proposal == matches[|matches| - 1]
    ensures Picks(more, at + [|matches| - 1], matches)
  {
  }

  /** Exactly the first passing match of each key gets through, in the order in which they were proposed. */
  lemma {:induction false} ResolvePicks(matches: seq<Match>, selected: seq<Candidate>, expected: State) returns (at: seq<nat>)
    ensures Picks(Resolve(matches, ByKey(selected), expected), at, matches)
    ensures AllFirst(at, matches, selected, expected)
  {
    if matches == [] {
      at := [];
    } else {
      var n := |matches| - 1;
      at := ResolvePicks(matches[..n], selected, expected);
      var before, rs := Resolve(matches[..n], ByKey(selected), expected), Resolve(matches, ByKey(selected), expected);
      AllFirstExtend(at, matches, selected, expected);
      LastPicked(matches, selected, expected);
      if FirstPassing(matches, n, selected, expected) {
        PicksExtend(before, at, matches, rs);
        at := at + [n];
      }
    }
  }

  /** The last match is taken exactly when it is the first passing one of its key. */
  lemma LastPicked(matches: seq<Match>, selected: seq<Candidate>, expected: State)
    requires matches != []
    ensures var n := |matches| - 1;
            var before, rs := Resolve(matches[..n], ByKey(selected), expected), Resolve(matches, ByKey(selected), expected);
            if FirstPassing(matches, n, selected, expected)
            then |rs| == |before| + 1 && before <= rs && rs[|before|].proposal == matches[n]
            else rs == before
  {
    var n := |matches| - 1;
    var m, init := matches[n], matches[..n];
    AcceptableIff(m, selected, expected);
    if Passes(m, selected, expected) {
      ResolveComplete(init, selected, expected, m.key.value);
      KeyPasses(init, selected, expected, m.key.value);
      assert forall j :: 0 <= j < n ==> init[j] == matches[j];
    }
  }

  lemma KeyPasses(matches: seq<Match>, selected: seq<Candidate>, expected: State, key: string)
    ensures (exists m :: m in matches && m.key == Some(key) && Acceptable(m, ByKey(selected), expected)) <==>
            exists j :: 0 <= j < |matches| && matches[j].key == Some(key) && Passes(matches[j], selected, expected)
  {
    if m :| m in matches && m.key == Some(key) && Acceptable(m, ByKey(selected), expected) {
      AcceptableIff(m, selected, expected);
      var j :| 0 <= j < |matches| && matches[j] == m;
    }
    if j :| 0 <= j < |matches| && matches[j].key == Some(key) && Passes(matches[j], selected, expected) {
      AcceptableIff(matches[j], selected, expected);
    }
  }

  ghost predicate SomePasses(matches: seq<Match>, selected: seq<Candidate>, expected: State, key: string) {
    exists j :: 0 <= j < |matches| && matches[j].key == Some(key) && Passes(matches[j], selected, expected)
  }

  lemma KeysInResolve(matches: seq<Match>, selected: seq<Candidate>, expected: State, key: string)
    ensures key in KeysOf(Resolve(matches, ByKey(selected), expected)) <==> SomePasses(matches, selected, expected, key)
  {
    ResolveComplete(matches, selected, expected, key);
    KeyPasses(matches, selected, expected, key);
  }

  lemma KeysWithout(rs: seq<Resolved>, keys: seq<string>, key: string)
    ensures key in KeysOf(Without(rs, keys)) <==> key in KeysOf(rs) && key !in keys
  {
    if key in KeysOf(rs) && key !in keys {
      var i :| 0 <= i < |rs| && KeysOf(rs)[i] == key;
      assert rs[i] in Without(rs, keys);
      KeyIn(Without(rs, keys), rs[i]);
    }
    if key in KeysOf(Without(rs, keys)) {
      var i :| 0 <= i < |Without(rs, keys)| && KeysOf(Without(rs, keys))[i] == key;
      KeyIn(rs, Without(rs, keys)[i]);
    }
  }

  /** Likely and possible matches are open, related ones closed; a possible one is not likely as well. */
  lemma AnalyzeIff(selected: seq<Candidate>, likely: seq<Match>, possible: seq<Match>, closed: seq<Match>, key: string)
    ensures var a := Analyze(selected, likely, possible, closed);
            && (key in KeysOf(a.likely) <==> SomePasses(likely, selected, Open, key))
            && (key in KeysOf(a.possible) <==>
                  SomePasses(possible, selected, Open, key) && !SomePasses(likely, selected, Open, key))
            && (key in KeysOf(a.relatedClosed) <==> SomePasses(closed, selected, Closed, key))
  {
    KeysInResolve(likely, selected, Open, key);
    KeysInResolve(possible, selected, Open, key);
    KeysInResolve(closed, selected, Closed, key);
    var l := Resolve(likely, ByKey(selected), Open);
    KeysWithout(Resolve(possible, ByKey(selected), Open), KeysOf(l), key);
  }

  // ---- The critique --------------------------------------------------------

  /** Where a proposal ends up: kept where it was, or downgraded from likely to possible. */
  ghost predicate Ends(confidence: Confidence, verdict: Verdict, into: Confidence) {
    (verdict == Keep && confidence == into) || (verdict == Downgrade && confidence == Likely && into == Possible)
  }

  /** The positions whose proposals end up in the list. */
  ghost predicate AllEnd(at: seq<nat>, ps: seq<Proposal>, verdicts: seq<Verdict>, into: Confidence)
    requires |verdicts| >= |ps|
  {
    forall i :: 0 <= i < |ps| ==> (i in at <==> Ends(ps[i].confidence, verdicts[i], into))
  }

  /** The list consists of the proposals at these positions. */
  ghost predicate Takes(rs: seq<Resolved>, at: seq<nat>, ps: seq<Proposal>) {
    |at| == |rs| && Rising(at, |ps|) && forall k :: 0 <= k < |at| ==> rs[k] == ps[at[k]].resolved
  }

  lemma TakesMore(rs: seq<Resolved>, at: seq<nat>, ps: seq<Proposal>)
    requires ps != [] && Takes(rs, at, ps[..|ps| - 1])
    ensures Takes(rs + [ps[|ps| - 1].resolved], at + [|ps| - 1], ps)
    ensures Takes(rs, at, ps)
  {
  }

  lemma AllEndMore(at: seq<nat>, ps: seq<Proposal>, verdicts: seq<Verdict>, into: Confidence)
    requires ps != [] && |verdicts| >= |ps| && Rising(at, |ps| - 1) && AllEnd(at, ps[..|ps| - 1], verdicts, into)
    ensures AllEnd(if Ends(ps[|ps| - 1].confidence, verdicts[|ps| - 1], into) then at + [|ps| - 1] else at, ps, verdicts, into)
  {
    assert forall i :: 0 <= i < |ps| - 1 ==> ps[..|ps| - 1][i] == ps[i];
  }

  lemma KeptLast(ps: seq<Proposal>, verdicts: seq<Verdict>, into: Confidence)
    requires ps != [] && |verdicts| >= |ps|
    ensures var n := |ps| - 1;
            Kept(ps, verdicts, into)
            == if Ends(ps[n].confidence, verdicts[n], into) then Kept(ps[..n], verdicts, into) + [ps[n].resolved]
               else Kept(ps[..n], verdicts, into)
  {
    assert Kept(ps[..|ps| - 1], verdicts, into) + [] == Kept(ps[..|ps| - 1], verdicts, into);
  }

  /** Each final list has its proposals in order. */
  lemma {:induction false} KeptPicks(ps: seq<Proposal>, verdicts: seq<Verdict>, into: Confidence) returns (at: seq<nat>)
    requires |verdicts| >= |ps|
    ensures Takes(Kept(ps, verdicts, into), at, ps) && AllEnd(at, ps, verdicts, into)
  {
    if ps == [] {
      at := [];
    } else {
      var n := |ps| - 1;
      at := KeptPicks(ps[..n], verdicts, into);
      KeptLast(ps, verdicts, into);
      TakesMore(Kept(ps[..n], verdicts, into), at, ps);
      AllEndMore(at, ps, verdicts, into);
      if Ends(ps[n].confidence, verdicts[n], into) {
        at := at + [n];
      }
    }
  }
}
