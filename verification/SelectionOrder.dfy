/**
 What the duplicate finder selects (script/github-check-new-issue-for-duplicates.py:613-638), as one list:
 the channels' first finds and then all candidates, the first of each key, up to the limit.
 */
module SelectionOrder {
  import opened Prelude
  import opened Selection

  /** What a channel found, in order. */
  function Found(candidates: seq<Candidate>, channel: Channel): (r: seq<Candidate>) {
    if candidates == [] then []
    else (if channel in candidates[0].matched then [candidates[0]] else []) + Found(candidates[1..], channel)
  }

  /** The first `n` of them, or all. */
  function Head(cs: seq<Candidate>, n: int): (r: seq<Candidate>) {
    if n <= 0 then [] else if n <= |cs| then cs[..n] else cs
  }

  /** The first candidate of each key. */
  function FirstOfEach(cs: seq<Candidate>): (r: seq<Candidate>) {
    if cs == [] then []
    else
      var before, c := FirstOfEach(cs[..|cs| - 1]), cs[|cs| - 1];
      if exists d :: d in before && d.key == c.key then before else before + [c]
  }

  /** A third, but at least two; a tenth; a sixth, each at least one. */
  function TextFinds(candidates: seq<Candidate>, limit: int): (r: seq<Candidate>) {
    Head(Found(candidates, SemanticQuery), Max(2, limit / 3))
    + Head(Found(candidates, ErrorPattern), Max(1, limit / 10))
    + Head(Found(candidates, TitleKeywords), Max(1, limit / 6))
  }

  /** Then a fifth and a sixth, and all candidates. */
  function Queue(candidates: seq<Candidate>, limit: int): (r: seq<Candidate>) {
    TextFinds(candidates, limit)
    + Head(Found(candidates, PopularArea), Max(1, limit / 5))
    + Head(Found(candidates, AreaLabel), Max(1, limit / 6))
    + candidates
  }

  lemma {:induction false} MatchingIs(candidates: seq<Candidate>, channel: Channel, n: nat)
    ensures Matching(candidates, channel, n) == Head(Found(candidates, channel), n)
  {
    if candidates != [] && n > 0 {
      var c, rest := candidates[0], candidates[1..];
      if channel in c.matched {
        MatchingIs(rest, channel, n - 1);
        HeadCons(c, Found(rest, channel), n);
      } else {
        MatchingIs(rest, channel, n);
        assert [] + Found(rest, channel) == Found(rest, channel);
      }
    }
  }

  lemma HeadCons(c: Candidate, rest: seq<Candidate>, n: nat)
    requires n > 0
    ensures Head([c] + rest, n) == [c] + Head(rest, n - 1)
  {
  }

  lemma KeyTaken(cs: seq<Candidate>, key: string)
    ensures key in Keys(cs) <==> exists d :: d in cs && d.key == key
  {
  }

  lemma AddOne(before: seq<Candidate>, c: Candidate, limit: int)
    ensures Add(Head(FirstOfEach(before), limit), c, limit) == Head(FirstOfEach(before + [c]), limit)
  {
    var first := FirstOfEach(before);
    assert (before + [c])[..|before|] == before;
    KeyTaken(first, c.key);
    if |first| < limit {
      assert Head(first, limit) == first;
    }
  }

  /** Adding in order keeps the first of each key, up to the limit. */
  lemma {:induction false} AddAllIs(before: seq<Candidate>, cs: seq<Candidate>, limit: int)
    ensures AddAll(Head(FirstOfEach(before), limit), cs, limit) == Head(FirstOfEach(before + cs), limit)
  {
    if cs == [] {
      assert before + cs == before;
    } else {
      var init, c := cs[..|cs| - 1], cs[|cs| - 1];
      AddAllIs(before, init, limit);
      AddOne(before + init, c, limit);
      Regroup(before, cs);
    }
  }

  lemma Regroup(before: seq<Candidate>, cs: seq<Candidate>)
    requires cs != []
    ensures before + cs[..|cs| - 1] + [cs[|cs| - 1]] == before + cs
  {
  }

  lemma ReserveOne(candidates: seq<Candidate>, channels: seq<Channel>, channel: Channel, before: seq<Candidate>, limit: int)
    requires Reserved(candidates, channels, limit) == Head(FirstOfEach(before), limit)
    ensures Reserved(candidates, channels + [channel], limit)
            == Head(FirstOfEach(before + Head(Found(candidates, channel), Quota(channel, limit))), limit)
  {
    assert (channels + [channel])[..|channels|] == channels;
    MatchingIs(candidates, channel, Quota(channel, limit));
    AddAllIs(before, Head(Found(candidates, channel), Quota(channel, limit)), limit);
  }

  lemma ReserveText(candidates: seq<Candidate>, channels: seq<Channel>, limit: int)
    requires channels == [SemanticQuery] + [ErrorPattern] + [TitleKeywords]
    ensures Reserved(candidates, channels, limit) == Head(FirstOfEach(TextFinds(candidates, limit)), limit)
  {
    var one := Head(Found(candidates, SemanticQuery), Max(2, limit / 3));
    var two := one + Head(Found(candidates, ErrorPattern), Max(1, limit / 10));
    ReserveFirst(candidates, limit);
    ReserveOne(candidates, [SemanticQuery], ErrorPattern, one, limit);
    ReserveOne(candidates, [SemanticQuery] + [ErrorPattern], TitleKeywords, two, limit);
  }

  lemma ReserveFirst(candidates: seq<Candidate>, limit: int)
    ensures Reserved(candidates, [SemanticQuery], limit)
            == Head(FirstOfEach(Head(Found(candidates, SemanticQuery), Max(2, limit / 3))), limit)
  {
    var found := Head(Found(candidates, SemanticQuery), Max(2, limit / 3));
    assert [] + [SemanticQuery] == [SemanticQuery] && [] + found == found;
    ReserveOne(candidates, [], SemanticQuery, [], limit);
  }

  lemma ChannelOrder(channels: seq<Channel>)
    requires channels == [SemanticQuery] + [ErrorPattern] + [TitleKeywords]
    ensures CHANNELS == channels + [PopularArea] + [AreaLabel]
  {
  }

  /** The selection is the head of the queue without repeated keys. */
  lemma SelectIs(candidates: seq<Candidate>, limit: int)
    ensures Select(candidates, limit) == Head(FirstOfEach(Queue(candidates, limit)), limit)
  {
    var channels := [SemanticQuery] + [ErrorPattern] + [TitleKeywords];
    var text := TextFinds(candidates, limit);
    var popular := text + Head(Found(candidates, PopularArea), Max(1, limit / 5));
    var all := popular + Head(Found(candidates, AreaLabel), Max(1, limit / 6));
    ReserveText(candidates, channels, limit);
    ReserveOne(candidates, channels, PopularArea, text, limit);
    ReserveOne(candidates, channels + [PopularArea], AreaLabel, popular, limit);
    ChannelOrder(channels);
    AddAllIs(all, candidates, limit);
  }
}
