/**
 The filter over a language model's answers in the duplicate finder
 (script/github-check-new-issue-for-duplicates.py). Proposed matches and verdicts are
 arbitrary; what gets through is checked here.
 */
module MatchFilter {
  import opened Prelude
  import opened Selection

  /** A proposed match; an absent root cause is empty. */
  datatype Match = Match(key: Option<string>, rootCause: string, explanation: string)

  datatype Resolved = Resolved(proposal: Match, candidate: Candidate)

  /** `Failed` when the call failed; `Unknown` for any other answer. */
  datatype Verdict = Keep | Downgrade | Omit | Failed | Unknown

  /** Candidates by key; the last one with a key wins. */
  function ByKey(candidates: seq<Candidate>): (m: map<string, Candidate>)
    ensures forall k :: k in m ==> m[k] in candidates && m[k].key == k
    ensures forall c :: c in candidates ==> c.key in m
  {
    if candidates == [] then map[]
    else
      var init, c := candidates[..|candidates| - 1], candidates[|candidates| - 1];
      assert candidates == init + [c];
      ByKey(init)[c.key := c]
  }

  /** The match names an offered candidate in the expected state, with a root cause where one is needed. */
  predicate Acceptable(m: Match, offered: map<string, Candidate>, expected: State) {
    && m.key.Some? && m.key.value in offered
    && offered[m.key.value].state == expected
    && (offered[m.key.value].kind == Issue && expected == Open ==> m.rootCause != "")
  }

  function KeysOf(rs: seq<Resolved>): (keys: seq<string>)
    ensures |keys| == |rs| && forall i :: 0 <= i < |rs| ==> keys[i] == rs[i].candidate.key
  {
    seq(|rs|, i requires 0 <= i < |rs| => rs[i].candidate.key)
  }

  /** The first acceptable match for each key, in order. */
  function Resolve(matches: seq<Match>, offered: map<string, Candidate>, expected: State): (rs: seq<Resolved>) {
    if matches == [] then []
    else
      var before, m := Resolve(matches[..|matches| - 1], offered, expected), matches[|matches| - 1];
      if Acceptable(m, offered, expected) && m.key.value !in KeysOf(before)
      then before + [Resolved(m, offered[m.key.value])]
      else before
  }

  method ResolveMatches(matches: seq<Match>, offered: map<string, Candidate>, expected: State)
      returns (resolved: seq<Resolved>)
    requires forall k :: k in offered ==> offered[k].key == k
    ensures resolved == Resolve(matches, offered, expected)
  {
    resolved := [];
    var seen: set<string> := {};
    for i := 0 to |matches|
      invariant resolved == Resolve(matches[..i], offered, expected)
      invariant forall k :: k in seen <==> k in KeysOf(resolved)
    {
      var m := matches[i];
      assert matches[..i + 1][..i] == matches[..i];
      if m.key.None? || m.key.value !in offered {
        continue;
      }
      var key := m.key.value;
      var candidate := offered[key];
      if candidate.state != expected || key in seen {
        continue;
      }
      if candidate.kind == Issue && expected == Open && m.rootCause == "" {
        continue;
      }
      seen := seen + {key};
      assert KeysOf(resolved + [Resolved(m, candidate)]) == KeysOf(resolved) + [key];
      resolved := resolved + [Resolved(m, candidate)];
    }
    assert matches[..|matches|] == matches;
  }

  /** Those whose key is not among the likely ones. */
  function Without(rs: seq<Resolved>, keys: seq<string>): (r: seq<Resolved>)
    ensures forall x :: x in r <==> x in rs && x.candidate.key !in keys
  {
    if rs == [] then []
    else Without(rs[..|rs| - 1], keys) + if rs[|rs| - 1].candidate.key in keys then [] else [rs[|rs| - 1]]
  }

  datatype Analysis = Analysis(likely: seq<Resolved>, possible: seq<Resolved>, relatedClosed: seq<Resolved>)

  function Analyze(selected: seq<Candidate>, likely: seq<Match>, possible: seq<Match>, closed: seq<Match>): (a: Analysis) {
    var offered := ByKey(selected);
    var l := Resolve(likely, offered, Open);
    Analysis(l, Without(Resolve(possible, offered, Open), KeysOf(l)), Resolve(closed, offered, Closed))
  }

  // ---- The critique ----------------------------------------------------------------

  datatype Confidence = Likely | Possible

  datatype Proposal = Proposal(confidence: Confidence, resolved: Resolved)

  function Proposals(likely: seq<Resolved>, possible: seq<Resolved>): (ps: seq<Proposal>) {
    seq(|likely|, i requires 0 <= i < |likely| => Proposal(Likely, likely[i]))
    + seq(|possible|, i requires 0 <= i < |possible| => Proposal(Possible, possible[i]))
  }

  /** Where a proposal ends up. */
  function Destination(confidence: Confidence, verdict: Verdict): (d: Option<Confidence>) {
    if verdict == Keep then Some(confidence)
    else if verdict == Downgrade && confidence == Likely then Some(Possible)
    else None
  }

  function Kept(ps: seq<Proposal>, verdicts: seq<Verdict>, into: Confidence): (rs: seq<Resolved>)
    requires |verdicts| >= |ps|
  {
    if ps == [] then []
    else
      var n := |ps| - 1;
      Kept(ps[..n], verdicts, into)
      + if Destination(ps[n].confidence, verdicts[n]) == Some(into) then [ps[n].resolved] else []
  }

  method CritiqueProposedMatches(likely: seq<Resolved>, possible: seq<Resolved>, verdicts: seq<Verdict>)
      returns (keptLikely: seq<Resolved>, keptPossible: seq<Resolved>)
    requires |verdicts| >= |likely| + |possible|
    ensures keptLikely == Kept(Proposals(likely, possible), verdicts, Likely)
    ensures keptPossible == Kept(Proposals(likely, possible), verdicts, Possible)
  {
    var proposed := Proposals(likely, possible);
    keptLikely, keptPossible := [], [];
    for i := 0 to |proposed|
      invariant keptLikely == Kept(proposed[..i], verdicts, Likely)
      invariant keptPossible == Kept(proposed[..i], verdicts, Possible)
    {
      assert proposed[..i + 1][..i] == proposed[..i];
      var Proposal(confidence, m) := proposed[i];
      if verdicts[i] == Failed {
        continue;
      }
      if verdicts[i] == Keep {
        if confidence == Likely {
          keptLikely := keptLikely + [m];
        } else {
          keptPossible := keptPossible + [m];
        }
      } else if verdicts[i] == Downgrade && confidence == Likely {
        keptPossible := keptPossible + [m];
      }
    }
    assert proposed[..|proposed|] == proposed;
  }

  // ---- Resolving -------------------------------------------------------------------

  /** What a resolved match of the expected state satisfies. */
  ghost predicate Sound(r: Resolved, matches: seq<Match>, selected: seq<Candidate>, expected: State) {
    && r.proposal in matches && r.proposal.key == Some(r.candidate.key)
    && r.candidate in selected && r.candidate.state == expected
    && (r.candidate.kind == Issue && expected == Open ==> r.proposal.rootCause != "")
  }

  lemma KeysAppend(rs: seq<Resolved>, r: Resolved)
    ensures KeysOf(rs + [r]) == KeysOf(rs) + [r.candidate.key]
  {
  }

  lemma {:induction false} ResolveSound(matches: seq<Match>, selected: seq<Candidate>, expected: State)
    ensures var rs := Resolve(matches, ByKey(selected), expected);
            && NoDuplicates(KeysOf(rs))
            && forall r :: r in rs ==> Sound(r, matches, selected, expected)
  {
    if matches != [] {
      var init, m := matches[..|matches| - 1], matches[|matches| - 1];
      ResolveSound(init, selected, expected);
      assert matches == init + [m];
      var offered := ByKey(selected);
      var before := Resolve(init, offered, expected);
      assert forall r :: r in before ==> Sound(r, matches, selected, expected);
      if Acceptable(m, offered, expected) && m.key.value !in KeysOf(before) {
        var r := Resolved(m, offered[m.key.value]);
        KeysAppend(before, r);
        assert Sound(r, matches, selected, expected);
      }
    }
  }

  /** A key gets through exactly when some match for it is acceptable. */
  lemma {:induction false} ResolveComplete(matches: seq<Match>, selected: seq<Candidate>, expected: State, key: string)
    ensures key in KeysOf(Resolve(matches, ByKey(selected), expected)) <==>
            exists m :: m in matches && m.key == Some(key) && Acceptable(m, ByKey(selected), expected)
  {
    if matches != [] {
      var init, m := matches[..|matches| - 1], matches[|matches| - 1];
      ResolveComplete(init, selected, expected, key);
      assert matches == init + [m];
      var offered := ByKey(selected);
      var before := Resolve(init, offered, expected);
      if Acceptable(m, offered, expected) && m.key.value !in KeysOf(before) {
        KeysAppend(before, Resolved(m, offered[m.key.value]));
      }
    }
  }

  // ---- Disjointness ------------------------------------------------------------------

  lemma KeyIn(rs: seq<Resolved>, r: Resolved)
    requires r in rs
    ensures r.candidate.key in KeysOf(rs)
  {
    var i :| 0 <= i < |rs| && rs[i] == r;
    assert KeysOf(rs)[i] == r.candidate.key;
  }

  lemma {:induction false} WithoutUnique(rs: seq<Resolved>, keys: seq<string>)
    requires NoDuplicates(KeysOf(rs))
    ensures NoDuplicates(KeysOf(Without(rs, keys)))
  {
    if rs != [] {
      var init, r := rs[..|rs| - 1], rs[|rs| - 1];
      assert rs == init + [r];
      KeysAppend(init, r);
      assert forall i :: 0 <= i < |init| ==> KeysOf(init)[i] == KeysOf(rs)[i];
      WithoutUnique(init, keys);
      if r.candidate.key !in keys {
        var before := Without(init, keys);
        forall x | x in before
          ensures x.candidate.key != r.candidate.key
        {
          KeyIn(init, x);
        }
        KeysAppend(before, r);
      }
    }
  }

  lemma ConcatUnique(a: seq<Resolved>, b: seq<Resolved>)
    requires NoDuplicates(KeysOf(a)) && NoDuplicates(KeysOf(b))
    requires forall x :: x in b ==> x.candidate.key !in KeysOf(a)
    ensures NoDuplicates(KeysOf(a + b))
  {
    var ks := KeysOf(a + b);
    forall i, j | 0 <= i < j < |ks|
      ensures ks[i] != ks[j]
    {
      if j < |a| {
        assert ks[i] == KeysOf(a)[i] && ks[j] == KeysOf(a)[j];
      } else if i >= |a| {
        assert ks[i] == KeysOf(b)[i - |a|] && ks[j] == KeysOf(b)[j - |a|];
      } else {
        assert ks[i] == KeysOf(a)[i] && b[j - |a|] in b;
      }
    }
  }

  /** The proposer's lists name each key at most once between them. */
  lemma AnalyzeUnique(selected: seq<Candidate>, likely: seq<Match>, possible: seq<Match>, closed: seq<Match>)
    ensures var a := Analyze(selected, likely, possible, closed);
            NoDuplicates(KeysOf(a.likely + a.possible))
  {
    var a := Analyze(selected, likely, possible, closed);
    ResolveSound(likely, selected, Open);
    ResolveSound(possible, selected, Open);
    WithoutUnique(Resolve(possible, ByKey(selected), Open), KeysOf(a.likely));
    ConcatUnique(a.likely, a.possible);
  }

  // ---- What the critique keeps ---------------------------------------------------------

  /** Each kept match comes from a proposal that the verdict sent there. */
  lemma {:induction false} KeptFrom(ps: seq<Proposal>, verdicts: seq<Verdict>, into: Confidence, r: Resolved)
    requires |verdicts| >= |ps|
    ensures r in Kept(ps, verdicts, into) <==>
            exists i :: 0 <= i < |ps| && ps[i].resolved == r && Destination(ps[i].confidence, verdicts[i]) == Some(into)
  {
    if ps != [] {
      var n := |ps| - 1;
      KeptFrom(ps[..n], verdicts, into, r);
      assert forall i :: 0 <= i < n ==> ps[..n][i] == ps[i];
      var here := Destination(ps[n].confidence, verdicts[n]) == Some(into) && ps[n].resolved == r;
      assert r in Kept(ps, verdicts, into) <==> r in Kept(ps[..n], verdicts, into) || here;
    }
  }

  function ResolvedOf(ps: seq<Proposal>): (rs: seq<Resolved>)
    ensures |rs| == |ps| && forall i :: 0 <= i < |ps| ==> rs[i] == ps[i].resolved
  {
    seq(|ps|, i requires 0 <= i < |ps| => ps[i].resolved)
  }

  /** Both lists together never name a key twice, because no two proposals do. */
  lemma {:induction false} KeptUnique(ps: seq<Proposal>, verdicts: seq<Verdict>)
    requires |verdicts| >= |ps| && NoDuplicates(KeysOf(ResolvedOf(ps)))
    ensures var l, p := Kept(ps, verdicts, Likely), Kept(ps, verdicts, Possible);
            NoDuplicates(KeysOf(l)) && NoDuplicates(KeysOf(p)) && forall x :: x in p ==> x.candidate.key !in KeysOf(l)
  {
    if ps != [] {
      var n := |ps| - 1;
      var init, r := ps[..n], ps[n].resolved;
      assert forall i :: 0 <= i < n ==> KeysOf(ResolvedOf(init))[i] == KeysOf(ResolvedOf(ps))[i];
      KeptUnique(init, verdicts);
      var l, p := Kept(init, verdicts, Likely), Kept(init, verdicts, Possible);
      KeptOther(init, verdicts, Likely, KeysOf(ResolvedOf(ps))[n]);
      KeptOther(init, verdicts, Possible, KeysOf(ResolvedOf(ps))[n]);
      KeysAppend(l, r);
      KeysAppend(p, r);
      assert l + [] == l && p + [] == p;
    }
  }

  lemma KeptOther(ps: seq<Proposal>, verdicts: seq<Verdict>, into: Confidence, key: string)
    requires |verdicts| >= |ps| && key !in KeysOf(ResolvedOf(ps))
    ensures key !in KeysOf(Kept(ps, verdicts, into))
  {
    var kept := Kept(ps, verdicts, into);
    forall k | 0 <= k < |kept|
      ensures kept[k].candidate.key != key
    {
      KeptFrom(ps, verdicts, into, kept[k]);
      var i :| 0 <= i < |ps| && ps[i].resolved == kept[k];
      assert KeysOf(ResolvedOf(ps))[i] == kept[k].candidate.key;
    }
  }

  lemma ProposalsResolved(likely: seq<Resolved>, possible: seq<Resolved>)
    ensures ResolvedOf(Proposals(likely, possible)) == likely + possible
  {
  }

  // ---- Results ---------------------------------------------------------------------------

  /** The two final lists, for arbitrary answers. */
  function Final(a: Analysis, verdicts: seq<Verdict>, into: Confidence): (rs: seq<Resolved>)
    requires |verdicts| >= |a.likely| + |a.possible|
  {
    Kept(Proposals(a.likely, a.possible), verdicts, into)
  }

  /** Whatever the model answers, the final lists are duplicate-free and disjoint. */
  lemma FinalDisjoint(selected: seq<Candidate>, likely: seq<Match>, possible: seq<Match>, closed: seq<Match>, verdicts: seq<Verdict>)
    requires var a := Analyze(selected, likely, possible, closed); |verdicts| >= |a.likely| + |a.possible|
    ensures var a := Analyze(selected, likely, possible, closed);
            NoDuplicates(KeysOf(Final(a, verdicts, Likely) + Final(a, verdicts, Possible)))
  {
    var a := Analyze(selected, likely, possible, closed);
    AnalyzeUnique(selected, likely, possible, closed);
    ProposalsResolved(a.likely, a.possible);
    KeptUnique(Proposals(a.likely, a.possible), verdicts);
    ConcatUnique(Final(a, verdicts, Likely), Final(a, verdicts, Possible));
  }

  /** The match was proposed and got this verdict. */
  ghost predicate Judged(rs: seq<Resolved>, verdicts: seq<Verdict>, verdict: Verdict, r: Resolved)
    requires |verdicts| >= |rs|
  {
    exists i :: 0 <= i < |rs| && rs[i] == r && verdicts[i] == verdict
  }

  /** Some proposal of this confidence for the match is sent there. */
  ghost predicate Sent(ps: seq<Proposal>, verdicts: seq<Verdict>, from: Confidence, into: Confidence, r: Resolved)
    requires |verdicts| >= |ps|
  {
    exists i :: 0 <= i < |ps| && ps[i] == Proposal(from, r) && Destination(from, verdicts[i]) == Some(into)
  }

  lemma KeptSent(ps: seq<Proposal>, verdicts: seq<Verdict>, into: Confidence, r: Resolved)
    requires |verdicts| >= |ps|
    ensures r in Kept(ps, verdicts, into) <==> Sent(ps, verdicts, Likely, into, r) || Sent(ps, verdicts, Possible, into, r)
  {
    KeptFrom(ps, verdicts, into, r);
    if r in Kept(ps, verdicts, into) {
      var i :| 0 <= i < |ps| && ps[i].resolved == r && Destination(ps[i].confidence, verdicts[i]) == Some(into);
      assert ps[i] == Proposal(ps[i].confidence, r);
    }
  }

  lemma SentLikely(likely: seq<Resolved>, possible: seq<Resolved>, verdicts: seq<Verdict>, into: Confidence, r: Resolved)
    requires |verdicts| >= |likely| + |possible|
    ensures Sent(Proposals(likely, possible), verdicts, Likely, into, r)
            <==> Judged(likely, verdicts, if into == Likely then Keep else Downgrade, r)
  {
    var ps := Proposals(likely, possible);
    assert forall i :: 0 <= i < |likely| ==> ps[i] == Proposal(Likely, likely[i]);
    assert forall i :: |likely| <= i < |ps| ==> ps[i].confidence == Possible;
    if Judged(likely, verdicts, if into == Likely then Keep else Downgrade, r) {
      var i :| 0 <= i < |likely| && likely[i] == r && verdicts[i] == if into == Likely then Keep else Downgrade;
      assert ps[i] == Proposal(Likely, r);
    }
  }

  lemma SentPossible(likely: seq<Resolved>, possible: seq<Resolved>, verdicts: seq<Verdict>, into: Confidence, r: Resolved)
    requires |verdicts| >= |likely| + |possible|
    ensures Sent(Proposals(likely, possible), verdicts, Possible, into, r)
            <==> into == Possible && Judged(possible, verdicts[|likely|..], Keep, r)
  {
    var ps, n := Proposals(likely, possible), |likely|;
    assert forall i :: 0 <= i < n ==> ps[i].confidence == Likely;
    if Sent(ps, verdicts, Possible, into, r) {
      var i :| 0 <= i < |ps| && ps[i] == Proposal(Possible, r) && Destination(Possible, verdicts[i]) == Some(into);
      assert possible[i - n] == r && verdicts[n..][i - n] == verdicts[i];
    }
    if into == Possible && Judged(possible, verdicts[n..], Keep, r) {
      var i :| 0 <= i < |possible| && possible[i] == r && verdicts[n..][i] == Keep;
      assert ps[n + i] == Proposal(Possible, r);
    }
  }

  /**
   Whatever the model answers, a likely match was proposed as likely and kept; a possible one was
   proposed as possible and kept, or proposed as likely and downgraded. Nothing is promoted.
   */
  lemma NeverPromoted(a: Analysis, verdicts: seq<Verdict>, r: Resolved)
    requires |verdicts| >= |a.likely| + |a.possible|
    ensures r in Final(a, verdicts, Likely) <==> Judged(a.likely, verdicts, Keep, r)
    ensures r in Final(a, verdicts, Possible) <==>
            || Judged(a.likely, verdicts, Downgrade, r)
            || Judged(a.possible, verdicts[|a.likely|..], Keep, r)
  {
    forall into: Confidence
      ensures r in Final(a, verdicts, into) <==>
              || Judged(a.likely, verdicts, if into == Likely then Keep else Downgrade, r)
              || (into == Possible && Judged(a.possible, verdicts[|a.likely|..], Keep, r))
    {
      KeptSent(Proposals(a.likely, a.possible), verdicts, into, r);
      SentLikely(a.likely, a.possible, verdicts, into, r);
      SentPossible(a.likely, a.possible, verdicts, into, r);
    }
  }

  /** Whatever the model answers, every final match names an offered open candidate, an issue only with a root cause. */
  lemma FinalSound(selected: seq<Candidate>, likely: seq<Match>, possible: seq<Match>, closed: seq<Match>,
                   verdicts: seq<Verdict>, into: Confidence, r: Resolved)
    requires var a := Analyze(selected, likely, possible, closed);
             |verdicts| >= |a.likely| + |a.possible| && r in Final(a, verdicts, into)
    ensures Sound(r, if into == Likely then likely else likely + possible, selected, Open)
  {
    var a := Analyze(selected, likely, possible, closed);
    ResolveSound(likely, selected, Open);
    ResolveSound(possible, selected, Open);
    NeverPromoted(a, verdicts, r);
    assert r in a.likely || (into == Possible && r in a.possible);
  }
}
