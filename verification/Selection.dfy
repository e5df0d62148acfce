/**
 Candidate selection of the duplicate finder
 (script/github-check-new-issue-for-duplicates.py): a limited list in which every
 retrieval channel has reserved places.
 */
module Selection {
  import opened Prelude

  datatype Channel = SemanticQuery | ErrorPattern | TitleKeywords | PopularArea | AreaLabel

  datatype Kind = Issue | Discussion

  datatype State = Open | Closed | Other

  datatype Candidate = Candidate(key: string, kind: Kind, state: State, matched: set<Channel>)

  function Max(a: int, b: int): (m: int) {
    if a >= b then a else b
  }

  function Quota(channel: Channel, limit: int): (q: nat)
    ensures q > 0
  {
    match channel
    case SemanticQuery => Max(2, limit / 3)
    case ErrorPattern => Max(1, limit / 10)
    case TitleKeywords => Max(1, limit / 6)
    case PopularArea => Max(1, limit / 5)
    case AreaLabel => Max(1, limit / 6)
  }

  /** In the order in which places are reserved. */
  const CHANNELS: seq<Channel> := [SemanticQuery, ErrorPattern, TitleKeywords, PopularArea, AreaLabel]

  function QuotaSum(channels: seq<Channel>, limit: int): (n: nat) {
    if channels == [] then 0 else QuotaSum(channels[..|channels| - 1], limit) + Quota(channels[|channels| - 1], limit)
  }

  /** The first `n` candidates that the channel found. */
  function Matching(candidates: seq<Candidate>, channel: Channel, n: nat): (r: seq<Candidate>)
    ensures |r| <= n
    ensures forall c :: c in r ==> c in candidates && channel in c.matched
  {
    if candidates == [] || n == 0 then []
    else if channel in candidates[0].matched then [candidates[0]] + Matching(candidates[1..], channel, n - 1)
    else Matching(candidates[1..], channel, n)
  }

  function Keys(cs: seq<Candidate>): (keys: set<string>) {
    set c | c in cs :: c.key
  }

  function Add(selected: seq<Candidate>, c: Candidate, limit: int): (r: seq<Candidate>) {
    if c.key !in Keys(selected) && |selected| < limit then selected + [c] else selected
  }

  function AddAll(selected: seq<Candidate>, cs: seq<Candidate>, limit: int): (r: seq<Candidate>) {
    if cs == [] then selected else Add(AddAll(selected, cs[..|cs| - 1], limit), cs[|cs| - 1], limit)
  }

  /** The reserved places of the first channels, filled in order. */
  function Reserved(candidates: seq<Candidate>, channels: seq<Channel>, limit: int): (r: seq<Candidate>) {
    if channels == [] then []
    else
      var channel := channels[|channels| - 1];
      AddAll(Reserved(candidates, channels[..|channels| - 1], limit),
             Matching(candidates, channel, Quota(channel, limit)), limit)
  }

  function Select(candidates: seq<Candidate>, limit: int): (r: seq<Candidate>) {
    AddAll(Reserved(candidates, CHANNELS, limit), candidates, limit)
  }

  method SelectSearchCandidates(candidates: seq<Candidate>, limit: int) returns (selected: seq<Candidate>)
    ensures selected == Select(candidates, limit)
  {
    selected := [];
    var selectedKeys: set<string> := {};
    for i := 0 to |CHANNELS|
      invariant selected == Reserved(candidates, CHANNELS[..i], limit)
      invariant selectedKeys == Keys(selected)
    {
      assert CHANNELS[..i + 1][..i] == CHANNELS[..i];
      var matching := Matching(candidates, CHANNELS[i], Quota(CHANNELS[i], limit));
      selected, selectedKeys := AddEach(selected, selectedKeys, matching, limit);
    }
    assert CHANNELS[..|CHANNELS|] == CHANNELS;
    selected, selectedKeys := AddEach(selected, selectedKeys, candidates, limit);
  }

  /** The loop around `add`. */
  method AddEach(selected: seq<Candidate>, selectedKeys: set<string>, cs: seq<Candidate>, limit: int)
      returns (r: seq<Candidate>, keys: set<string>)
    requires selectedKeys == Keys(selected)
    ensures r == AddAll(selected, cs, limit) && keys == Keys(r)
  {
    r, keys := selected, selectedKeys;
    for i := 0 to |cs|
      invariant r == AddAll(selected, cs[..i], limit) && keys == Keys(r)
    {
      assert cs[..i + 1][..i] == cs[..i];
      if cs[i].key !in keys && |r| < limit {
        KeysAppend(r, cs[i]);
        r := r + [cs[i]];
        keys := keys + {cs[i].key};
      }
    }
    assert cs[..|cs|] == cs;
  }

  // ---- What adding keeps -----------------------------------------------------------

  lemma KeysAppend(cs: seq<Candidate>, c: Candidate)
    ensures Keys(cs + [c]) == Keys(cs) + {c.key}
  {
    var all := cs + [c];
    assert all[|cs|] == c && forall i :: 0 <= i < |cs| ==> all[i] == cs[i];
    assert c in all && forall x :: x in cs ==> x in all;
  }

  ghost predicate UniqueKeys(cs: seq<Candidate>) {
    forall i, j :: 0 <= i < j < |cs| ==> cs[i].key != cs[j].key
  }

  lemma {:induction false} UniqueKeysCount(cs: seq<Candidate>)
    requires UniqueKeys(cs)
    ensures |Keys(cs)| == |cs|
  {
    if cs == [] {
      assert Keys(cs) == {};
    } else {
      var init, c := cs[..|cs| - 1], cs[|cs| - 1];
      UniqueKeysCount(init);
      assert cs == init + [c];
      KeysAppend(init, c);
      assert c.key !in Keys(init);
    }
  }

  /** Never a key twice, never more than the limit, nothing lost, nothing invented, and room used while there is any. */
  lemma AddFacts(before: seq<Candidate>, c: Candidate, limit: int)
    requires UniqueKeys(before) && |before| <= Max(limit, 0)
    ensures var r := Add(before, c, limit);
            && UniqueKeys(r) && |before| <= |r| <= |before| + 1 && |r| <= Max(limit, 0)
            && Keys(before) <= Keys(r) <= Keys(before) + {c.key}
            && (forall x :: x in r ==> x in before || x == c)
            && (|before| < limit ==> c.key in Keys(r))
  {
    KeysAppend(before, c);
    if c.key !in Keys(before) {
      assert forall i :: 0 <= i < |before| ==> before[i] in before && before[i].key != c.key;
    }
  }

  lemma {:induction false} AddAllFacts(selected: seq<Candidate>, cs: seq<Candidate>, limit: int)
    requires UniqueKeys(selected) && |selected| <= Max(limit, 0)
    ensures var r := AddAll(selected, cs, limit);
            && UniqueKeys(r) && |selected| <= |r| <= Max(limit, 0)
            && Keys(selected) <= Keys(r) <= Keys(selected) + Keys(cs)
            && (forall c :: c in r ==> c in selected || c in cs)
            && (|r| < limit ==> Keys(cs) <= Keys(r))
            && (|selected| + |cs| <= limit ==> |r| <= |selected| + |cs| && Keys(cs) <= Keys(r))
  {
    if cs == [] {
      assert Keys(cs) == {};
    } else {
      var init, c := cs[..|cs| - 1], cs[|cs| - 1];
      AddAllFacts(selected, init, limit);
      AddFacts(AddAll(selected, init, limit), c, limit);
      assert cs == init + [c];
      KeysAppend(init, c);
      assert forall x :: x in cs <==> x in init || x == c;
    }
  }

  /** While the quotas fit, every reserved candidate's key is taken. */
  lemma {:induction false} ReservedFacts(candidates: seq<Candidate>, channels: seq<Channel>, limit: int)
    ensures var r := Reserved(candidates, channels, limit);
            && UniqueKeys(r) && |r| <= Max(limit, 0) && forall c :: c in r ==> c in candidates
    ensures QuotaSum(channels, limit) <= limit ==>
              && |Reserved(candidates, channels, limit)| <= QuotaSum(channels, limit)
              && forall channel :: channel in channels ==>
                   Keys(Matching(candidates, channel, Quota(channel, limit))) <= Keys(Reserved(candidates, channels, limit))
  {
    if channels != [] {
      var init, channel := channels[..|channels| - 1], channels[|channels| - 1];
      ReservedFacts(candidates, init, limit);
      var matching := Matching(candidates, channel, Quota(channel, limit));
      AddAllFacts(Reserved(candidates, init, limit), matching, limit);
      assert channels == init + [channel];
    }
  }

  lemma KeysMonotone(a: seq<Candidate>, b: seq<Candidate>)
    requires forall c :: c in a ==> c in b
    ensures Keys(a) <= Keys(b)
  {
  }

  // ---- Results -----------------------------------------------------------------------

  /** The selection has no key twice, comes from the candidates, and is as large as the limit and the distinct keys allow. */
  lemma SelectionSize(candidates: seq<Candidate>, limit: int)
    ensures var r := Select(candidates, limit);
            && UniqueKeys(r) && (forall c :: c in r ==> c in candidates)
            && |r| == if |Keys(candidates)| <= limit then |Keys(candidates)| else Max(limit, 0)
  {
    var reserved, r := Reserved(candidates, CHANNELS, limit), Select(candidates, limit);
    ReservedFacts(candidates, CHANNELS, limit);
    AddAllFacts(reserved, candidates, limit);
    UniqueKeysCount(r);
    KeysMonotone(r, candidates);
    SubsetCardinality(Keys(r), Keys(candidates));
    if |r| < limit {
      assert Keys(r) == Keys(candidates);
    }
  }

  /** The key of each channel's first quota of matches is selected. */
  ghost predicate Honoured(candidates: seq<Candidate>, limit: int) {
    forall channel: Channel ::
      Keys(Matching(candidates, channel, Quota(channel, limit))) <= Keys(Select(candidates, limit))
  }

  /** The quotas fit into the limit exactly from six on. */
  lemma QuotasFitIff(limit: int)
    ensures QuotaSum(CHANNELS, limit) <= limit <==> limit >= 6
  {
    QuotaSumClosed(limit);
  }

  lemma QuotaSumClosed(limit: int)
    ensures QuotaSum(CHANNELS, limit)
            == Max(2, limit / 3) + Max(1, limit / 10) + Max(1, limit / 6) + Max(1, limit / 5) + Max(1, limit / 6)
  {
    var one := [] + [SemanticQuery];
    var two := one + [ErrorPattern];
    var three := two + [TitleKeywords];
    var four := three + [PopularArea];
    QuotaSumAppend([], SemanticQuery, limit);
    QuotaSumAppend(one, ErrorPattern, limit);
    QuotaSumAppend(two, TitleKeywords, limit);
    QuotaSumAppend(three, PopularArea, limit);
    QuotaSumAppend(four, AreaLabel, limit);
    assert CHANNELS == four + [AreaLabel];
  }

  lemma QuotaSumAppend(channels: seq<Channel>, channel: Channel, limit: int)
    ensures QuotaSum(channels + [channel], limit) == QuotaSum(channels, limit) + Quota(channel, limit)
  {
    assert (channels + [channel])[..|channels|] == channels;
  }

  lemma ReservedPlaces(candidates: seq<Candidate>, limit: int)
    requires limit >= 6
    ensures Honoured(candidates, limit)
  {
    QuotasFitIff(limit);
    ReservedFacts(candidates, CHANNELS, limit);
    AddAllFacts(Reserved(candidates, CHANNELS, limit), candidates, limit);
    forall channel: Channel
      ensures Keys(Matching(candidates, channel, Quota(channel, limit))) <= Keys(Select(candidates, limit))
    {
      InChannels(channel);
    }
  }

  lemma InChannels(channel: Channel)
    ensures channel in CHANNELS
  {
    assert CHANNELS[0] == SemanticQuery && CHANNELS[1] == ErrorPattern && CHANNELS[2] == TitleKeywords;
    assert CHANNELS[3] == PopularArea && CHANNELS[4] == AreaLabel;
  }

  /** With distinct keys, the reserved candidates themselves are selected. */
  lemma ReservedSelected(candidates: seq<Candidate>, limit: int, channel: Channel, c: Candidate)
    requires limit >= 6 && UniqueKeys(candidates)
    requires c in Matching(candidates, channel, Quota(channel, limit))
    ensures c in Select(candidates, limit)
  {
    ReservedPlaces(candidates, limit);
    SelectionSize(candidates, limit);
    assert c.key in Keys(Select(candidates, limit));
    var d :| d in Select(candidates, limit) && d.key == c.key;
    var i :| 0 <= i < |candidates| && candidates[i] == c;
    var j :| 0 <= j < |candidates| && candidates[j] == d;
  }

  lemma MatchingStep(c: Candidate, rest: seq<Candidate>, channel: Channel, n: nat)
    ensures Matching([c] + rest, channel, n)
            == if n == 0 then []
               else if channel in c.matched then [c] + Matching(rest, channel, n - 1)
               else Matching(rest, channel, n)
  {
    assert ([c] + rest)[1..] == rest;
  }

  /** Candidates of other channels are skipped. */
  lemma {:induction false} MatchingSkips(before: seq<Candidate>, rest: seq<Candidate>, channel: Channel, n: nat)
    requires forall i :: 0 <= i < |before| ==> channel !in before[i].matched
    ensures Matching(before + rest, channel, n) == Matching(rest, channel, n)
  {
    if before == [] {
      assert before + rest == rest;
    } else {
      MatchingSkips(before[1..], rest, channel, n);
      MatchingStep(before[0], before[1..] + rest, channel, n);
      assert before + rest == [before[0]] + (before[1..] + rest);
    }
  }

  /** The first match lies behind candidates of other channels. */
  lemma MatchingBehind(before: seq<Candidate>, c: Candidate, rest: seq<Candidate>, channel: Channel, n: nat)
    requires n > 0 && channel in c.matched && forall i :: 0 <= i < |before| ==> channel !in before[i].matched
    ensures c in Matching(before + ([c] + rest), channel, n)
  {
    MatchingSkips(before, [c] + rest, channel, n);
    MatchingStep(c, rest, channel, n);
  }

  function ChannelOf(k: nat): (channel: Channel) {
    if k <= 1 then SemanticQuery
    else if k == 2 then ErrorPattern
    else if k == 3 then TitleKeywords
    else if k == 4 then PopularArea
    else AreaLabel
  }

  /** Two candidates for the first channel only and one for each of the others. */
  ghost predicate OnePerPlace(six: seq<Candidate>) {
    |six| == 6 && UniqueKeys(six) && forall k :: 0 <= k < 6 ==> six[k].matched == {ChannelOf(k)}
  }

  lemma HasPlace(six: seq<Candidate>, k: nat, limit: int)
    requires OnePerPlace(six) && k < 6
    ensures six[k] in Matching(six, ChannelOf(k), Quota(ChannelOf(k), limit))
  {
    var channel := ChannelOf(k);
    if k == 1 {
      SecondPlace(six[0], six[1], six[2..], channel, Quota(channel, limit));
      assert six == [six[0]] + ([six[1]] + six[2..]);
    } else {
      OthersBefore(k);
      PlaceBehind(six, k, channel, Quota(channel, limit));
    }
  }

  lemma OthersBefore(k: nat)
    requires k < 6 && k != 1
    ensures forall i: nat :: i < k ==> ChannelOf(i) != ChannelOf(k)
  {
  }

  lemma PlaceBehind(cs: seq<Candidate>, k: nat, channel: Channel, n: nat)
    requires k < |cs| && n > 0 && channel in cs[k].matched
    requires forall i: nat :: i < k ==> channel !in cs[i].matched
    ensures cs[k] in Matching(cs, channel, n)
  {
    MatchingBehind(cs[..k], cs[k], cs[k + 1..], channel, n);
    assert cs == cs[..k] + ([cs[k]] + cs[k + 1..]);
  }

  lemma SecondPlace(a: Candidate, b: Candidate, rest: seq<Candidate>, channel: Channel, n: nat)
    requires channel in a.matched && channel in b.matched && n >= 2
    ensures b in Matching([a] + ([b] + rest), channel, n)
  {
    MatchingStep(a, [b] + rest, channel, n);
    MatchingStep(b, rest, channel, n - 1);
  }

  lemma HonouredKeepsAll(six: seq<Candidate>, limit: int)
    requires OnePerPlace(six) && Honoured(six, limit)
    ensures Keys(six) <= Keys(Select(six, limit))
  {
    forall c | c in six
      ensures c.key in Keys(Select(six, limit))
    {
      var k: nat :| k < 6 && six[k] == c;
      HasPlace(six, k, limit);
      assert c.key in Keys(Matching(six, ChannelOf(k), Quota(ChannelOf(k), limit)));
    }
  }

  /** Below a limit of six such candidates do not all get the place reserved for them. */
  lemma NotHonoured(six: seq<Candidate>, limit: int)
    requires limit < 6 && OnePerPlace(six)
    ensures !Honoured(six, limit)
  {
    SelectionSize(six, limit);
    UniqueKeysCount(Select(six, limit));
    UniqueKeysCount(six);
    if Keys(six) <= Keys(Select(six, limit)) {
      SubsetCardinality(Keys(six), Keys(Select(six, limit)));
      assert false;
    }
    if Honoured(six, limit) {
      HonouredKeepsAll(six, limit);
    }
  }

  lemma SixExist() returns (six: seq<Candidate>)
    ensures OnePerPlace(six)
  {
    six := seq(6, k requires 0 <= k < 6 => Candidate(seq(k, _ => 'x'), Issue, Open, {ChannelOf(k)}));
    assert forall i, j :: 0 <= i < j < 6 ==> |six[i].key| != |six[j].key|;
  }

  /** The reserved places are honoured whatever the candidates exactly from a limit of six on. */
  lemma HonouredIff(limit: int)
    ensures (forall candidates :: Honoured(candidates, limit)) <==> limit >= 6
  {
    if limit >= 6 {
      forall candidates
        ensures Honoured(candidates, limit)
      {
        ReservedPlaces(candidates, limit);
      }
    } else {
      var six := SixExist();
      NotHonoured(six, limit);
    }
  }
}
