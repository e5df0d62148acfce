/**
 What the printed index of duplicate magnets looks like (script/github-find-top-duplicated-bugs.py:148-178),
 described from the issues alone: one section for each area, the most re-reported first, and in it the
 issues of the area by their number of duplicates.
 */
module MagnetsOrder {
  import opened Prelude
  import opened Text
  import opened Sorting
  import opened Magnets

  // ---- Areas as the issues mention them ------------------------------------

  datatype Mention = Mention(area: string, info: Info)

  function MentionsOf(info: Info, areas: seq<string>): (r: seq<Mention>) {
    seq(|areas|, i requires 0 <= i < |areas| => Mention(areas[i], info))
  }

  function Mentions(ms: seq<Info>): (r: seq<Mention>) {
    if ms == [] then []
    else
      var last := ms[|ms| - 1];
      Mentions(ms[..|ms| - 1]) + MentionsOf(last, last.areas)
  }

  /** The issues mentioned under an area, in order. */
  function Under(r: seq<Mention>, area: string): (infos: seq<Info>) {
    if r == [] then []
    else
      var before := Under(r[..|r| - 1], area);
      if r[|r| - 1].area == area then before + [r[|r| - 1].info] else before
  }

  function Total(infos: seq<Info>): (t: nat) {
    if infos == [] then 0 else Total(infos[..|infos| - 1]) + infos[|infos| - 1].count
  }

  function AreaInfos(ms: seq<Info>, area: string): (infos: seq<Info>) {
    Under(Mentions(ms), area)
  }

  function AreaTotal(ms: seq<Info>, area: string): (t: nat) {
    Total(AreaInfos(ms, area))
  }

  /** The index of the first mention of an area, or past the end. */
  function Met(r: seq<Mention>, area: string): (i: nat)
    ensures i <= |r|
    ensures i < |r| ==> r[i].area == area
    ensures forall j :: 0 <= j < i ==> r[j].area != area
  {
    if r == [] then 0 else if r[0].area == area then 0 else 1 + Met(r[1..], area)
  }

  // ---- The printed sections ------------------------------------------------

  datatype Printed = Printed(area: string, infos: seq<Info>)

  /** Those with exactly `c` duplicates, in order. */
  function OfCount(infos: seq<Info>, c: nat): (r: seq<Info>) {
    if infos == [] then [] else (if infos[0].count == c then [infos[0]] else []) + OfCount(infos[1..], c)
  }

  /** The issues by falling number of duplicates, and those of the same number in their order. */
  ghost predicate ByCount(infos: seq<Info>, given: seq<Info>) {
    && (forall i, j :: 0 <= i < j < |infos| ==> infos[i].count >= infos[j].count)
    && forall c: nat :: OfCount(infos, c) == OfCount(given, c)
  }

  /**
   Each area of any issue once, by falling total, areas of the same total as they were first met, and
   under each exactly its issues.
   */
  ghost predicate ByTotal(printed: seq<Printed>, ms: seq<Info>) {
    && (forall i, j :: 0 <= i < j < |printed| ==>
          printed[i].area != printed[j].area
          && (AreaTotal(ms, printed[i].area) > AreaTotal(ms, printed[j].area)
              || (AreaTotal(ms, printed[i].area) == AreaTotal(ms, printed[j].area)
                  && Met(Mentions(ms), printed[i].area) < Met(Mentions(ms), printed[j].area))))
    && (forall m, a :: m in ms && a in m.areas ==> exists p :: p in printed && p.area == a)
    && (forall p :: p in printed ==> (exists m :: m in ms && p.area in m.areas) && ByCount(p.infos, AreaInfos(ms, p.area)))
  }

  function PrintedUrl(number: nat): (url: string) {
    "https://github.com" + ("/orion-agents" + ("/orion-studio" + ("/issues/" + Decimal(number))))
  }

  function PrintedEntry(info: Info): (lines: seq<string>) {
    ["-   [" + ((if info.count < 10 then " " else "") + Decimal(info.count)
                + (" dupes] " + PrintedUrl(info.number)))]
  }

  function PrintedSection(p: Printed): (lines: seq<string>) {
    ["", "## " + p.area, ""] + FlatMap(p.infos, PrintedEntry)
  }

  // ---- Grouping ------------------------------------------------------------

  /** One section after another takes the mentions in order. */
  function Fold(secs: seq<Section>, r: seq<Mention>): (t: seq<Section>) {
    if r == [] then secs
    else AddToSection(Fold(secs, r[..|r| - 1]), r[|r| - 1].area, r[|r| - 1].info)
  }

  lemma {:induction false} FoldConcat(secs: seq<Section>, r: seq<Mention>, t: seq<Mention>)
    ensures Fold(secs, r + t) == Fold(Fold(secs, r), t)
  {
    if t == [] {
      assert r + t == r;
    } else {
      FoldConcat(secs, r, t[..|t| - 1]);
      assert (r + t)[..|r + t| - 1] == r + t[..|t| - 1];
    }
  }

  lemma {:induction false} AddAreasFolds(secs: seq<Section>, info: Info, areas: seq<string>)
    ensures AddAreas(secs, info, areas) == Fold(secs, MentionsOf(info, areas))
    decreases |areas|
  {
    if areas != [] {
      AddAreasFolds(secs, info, areas[..|areas| - 1]);
      var r := MentionsOf(info, areas);
      assert r[..|r| - 1] == MentionsOf(info, areas[..|areas| - 1]);
    }
  }

  lemma {:induction false} GroupFolds(ms: seq<Info>)
    ensures Group(ms) == Fold([], Mentions(ms))
  {
    if ms != [] {
      var init, last := ms[..|ms| - 1], ms[|ms| - 1];
      GroupFolds(init);
      AddAreasFolds(Group(init), last, last.areas);
      FoldConcat([], Mentions(init), MentionsOf(last, last.areas));
    }
  }

  lemma MetAppend(r: seq<Mention>, m: Mention, area: string)
    ensures Met(r, area) < |r| ==> Met(r + [m], area) == Met(r, area)
    ensures Met(r, area) == |r| ==> Met(r + [m], area) == if m.area == area then |r| else |r| + 1
  {
    var i, j, t := Met(r, area), Met(r + [m], area), r + [m];
    assert forall x :: 0 <= x < |r| ==> t[x] == r[x];
    assert t[|r|] == m;
  }

  lemma UnderAppend(r: seq<Mention>, m: Mention, area: string)
    ensures Under(r + [m], area) == if m.area == area then Under(r, area) + [m.info] else Under(r, area)
    ensures m.area == area ==> Total(Under(r + [m], area)) == Total(Under(r, area)) + m.info.count
  {
    assert (r + [m])[..|r|] == r;
    var infos := Under(r, area);
    assert (infos + [m.info])[..|infos|] == infos;
  }

  lemma {:induction false} UnderUnmet(r: seq<Mention>, area: string)
    requires Met(r, area) == |r|
    ensures Under(r, area) == []
    decreases |r|
  {
    if r != [] {
      var init, last := r[..|r| - 1], r[|r| - 1];
      assert r == init + [last];
      MetAppend(init, last, area);
      UnderUnmet(init, area);
    }
  }

  /** The section with everything that was mentioned under its area. */
  function SectionOf(r: seq<Mention>, area: string): (s: Section) {
    Section(area, Under(r, area), Total(Under(r, area)))
  }

  function SectionsOf(r: seq<Mention>, areas: seq<string>): (secs: seq<Section>)
    decreases |areas|
  {
    if areas == [] then [] else [SectionOf(r, areas[0])] + SectionsOf(r, areas[1..])
  }

  /** The areas in the order they were first met. */
  function Firsts(r: seq<Mention>): (areas: seq<string>) {
    if r == [] then []
    else
      var init, area := r[..|r| - 1], r[|r| - 1].area;
      if Met(init, area) < |init| then Firsts(init) else Firsts(init) + [area]
  }

  ghost predicate InMetOrder(r: seq<Mention>, areas: seq<string>) {
    forall i, j :: 0 <= i < j < |areas| ==> Met(r, areas[i]) < Met(r, areas[j])
  }

  lemma {:induction false} FirstsMet(r: seq<Mention>, area: string)
    ensures area in Firsts(r) <==> Met(r, area) < |r|
  {
    if r != [] {
      var init, m := r[..|r| - 1], r[|r| - 1];
      FirstsMet(init, area);
      MetAppend(init, m, area);
      assert r == init + [m];
    }
  }

  lemma {:induction false} FirstsInOrder(r: seq<Mention>)
    ensures InMetOrder(r, Firsts(r))
  {
    if r != [] {
      var init, m := r[..|r| - 1], r[|r| - 1];
      FirstsInOrder(init);
      assert r == init + [m];
      forall area | area in Firsts(init)
        ensures Met(r, area) == Met(init, area) < |init|
      {
        FirstsMet(init, area);
        MetAppend(init, m, area);
      }
      MetAppend(init, m, m.area);
    }
  }

  lemma {:induction false} SectionsKept(r: seq<Mention>, m: Mention, areas: seq<string>)
    requires m.area !in areas
    ensures SectionsOf(r + [m], areas) == SectionsOf(r, areas)
    decreases |areas|
  {
    if areas != [] {
      assert areas[0] in areas;
      UnderAppend(r, m, areas[0]);
      SectionsKept(r, m, areas[1..]);
    }
  }

  lemma {:induction false} SectionsAt(r: seq<Mention>, areas: seq<string>)
    ensures |SectionsOf(r, areas)| == |areas|
    ensures forall i :: 0 <= i < |areas| ==> SectionsOf(r, areas)[i] == SectionOf(r, areas[i])
    decreases |areas|
  {
    if areas != [] {
      SectionsAt(r, areas[1..]);
    }
  }

  lemma SectionsCons(r: seq<Mention>, area: string, rest: seq<string>)
    ensures SectionsOf(r, [area] + rest) == [SectionOf(r, area)] + SectionsOf(r, rest)
  {
    assert ([area] + rest)[1..] == rest;
  }

  /** The areas once `area` has been met too. */
  function With(areas: seq<string>, area: string): (more: seq<string>) {
    if area in areas then areas else areas + [area]
  }

  lemma WithCons(areas: seq<string>, area: string)
    requires areas != [] && areas[0] != area
    ensures With(areas, area) == [areas[0]] + With(areas[1..], area)
  {
    assert areas == [areas[0]] + areas[1..];
  }

  /** One more mention: the section of its area takes the issue, or a new one at the end does. */
  lemma {:induction false} AddMention(r: seq<Mention>, m: Mention, areas: seq<string>)
    requires NoDuplicates(areas) && (m.area in areas || Under(r, m.area) == [])
    ensures AddToSection(SectionsOf(r, areas), m.area, m.info) == SectionsOf(r + [m], With(areas, m.area))
    decreases |areas|
  {
    if areas == [] {
      UnderAppend(r, m, m.area);
      SectionsCons(r + [m], m.area, []);
    } else if areas[0] == m.area {
      UnderAppend(r, m, m.area);
      SectionsKept(r, m, areas[1..]);
    } else {
      UnderAppend(r, m, areas[0]);
      AddMention(r, m, areas[1..]);
      WithCons(areas, m.area);
      SectionsCons(r + [m], areas[0], With(areas[1..], m.area));
    }
  }

  lemma FirstsStep(r: seq<Mention>, m: Mention)
    ensures Firsts(r + [m]) == With(Firsts(r), m.area)
    ensures Fold([], r + [m]) == AddToSection(Fold([], r), m.area, m.info)
  {
    assert (r + [m])[..|r|] == r;
    FirstsMet(r, m.area);
  }

  lemma FirstsDistinct(r: seq<Mention>, area: string)
    ensures NoDuplicates(Firsts(r)) && (area in Firsts(r) || Under(r, area) == [])
  {
    FirstsInOrder(r);
    DistinctAreas(r, Firsts(r));
    FirstsMet(r, area);
    if area !in Firsts(r) {
      UnderUnmet(r, area);
    }
  }

  lemma FoldMention(r: seq<Mention>, m: Mention)
    requires Fold([], r) == SectionsOf(r, Firsts(r))
    ensures Fold([], r + [m]) == SectionsOf(r + [m], Firsts(r + [m]))
  {
    FirstsDistinct(r, m.area);
    AddMention(r, m, Firsts(r));
    FirstsStep(r, m);
  }

  lemma {:induction false} FoldSections(r: seq<Mention>)
    ensures Fold([], r) == SectionsOf(r, Firsts(r))
  {
    if r == [] {
      assert SectionsOf(r, []) == [];
    } else {
      var init, m := r[..|r| - 1], r[|r| - 1];
      FoldSections(init);
      FoldMention(init, m);
      assert r == init + [m];
    }
  }

  lemma DistinctAreas(r: seq<Mention>, areas: seq<string>)
    requires InMetOrder(r, areas)
    ensures NoDuplicates(areas)
  {
  }

  // ---- The printed order ---------------------------------------------------

  lemma {:induction false} OfCountIs(infos: seq<Info>, c: nat)
    ensures OfCount(infos, c) == WithKey(infos, InfoCount, c)
  {
    if infos != [] {
      OfCountIs(infos[1..], c);
    }
  }

  lemma SortedByCount(infos: seq<Info>)
    ensures ByCount(SortInfos(infos), infos)
  {
    SortDescends(infos, InfoCount);
    forall c: nat
      ensures OfCount(SortInfos(infos), c) == OfCount(infos, c)
    {
      OfCountIs(infos, c);
      OfCountIs(SortInfos(infos), c);
      SortStable(infos, InfoCount, c);
    }
  }

  ghost predicate Mentioned(ms: seq<Info>, area: string) {
    exists m :: m in ms && area in m.areas
  }

  lemma {:induction false} MentionedIff(ms: seq<Info>, area: string)
    ensures Mentioned(ms, area) <==> Met(Mentions(ms), area) < |Mentions(ms)|
  {
    if ms != [] {
      var init, last := ms[..|ms| - 1], ms[|ms| - 1];
      MentionedIff(init, area);
      assert ms == init + [last];
      MetConcat(Mentions(init), MentionsOf(last, last.areas), area);
      var r := MentionsOf(last, last.areas);
      if area in last.areas {
        var i :| 0 <= i < |last.areas| && last.areas[i] == area;
        assert r[i].area == area;
      }
      assert Mentioned(ms, area) <==> Mentioned(init, area) || area in last.areas;
    }
  }

  lemma MetConcat(r: seq<Mention>, t: seq<Mention>, area: string)
    ensures Met(r + t, area) < |r + t| <==> Met(r, area) < |r| || Met(t, area) < |t|
  {
    var i, j, k := Met(r, area), Met(t, area), Met(r + t, area);
    assert i < |r| ==> (r + t)[i] == r[i];
    assert j < |t| ==> (r + t)[|r| + j] == t[j];
    assert k < |r| ==> (r + t)[k] == r[k];
    assert |r| <= k < |r + t| ==> (r + t)[k] == t[k - |r|];
  }

  function PrintedOf(s: Section): (p: Printed) {
    Printed(s.area, SortInfos(s.infos))
  }

  /** The sections as they are printed. */
  lemma SectionOrder(ms: seq<Info>)
    ensures var r, order := Mentions(ms), SortSections(Group(ms));
            && (forall s :: s in order <==> s.area in Firsts(r) && s == SectionOf(r, s.area))
            && Ranked(order, SectionTotal, (s: Section) => Met(r, s.area))
  {
    var r, secs := Mentions(ms), Group(ms);
    GroupFolds(ms);
    FoldSections(r);
    FirstsInOrder(r);
    SectionsAt(r, Firsts(r));
    SortRanks(secs, SectionTotal, (s: Section) => Met(r, s.area));
    forall s
      ensures s in SortSections(secs) <==> s.area in Firsts(r) && s == SectionOf(r, s.area)
    {
      SortMembers(secs, SectionTotal, s);
      if s.area in Firsts(r) {
        var i :| 0 <= i < |Firsts(r)| && Firsts(r)[i] == s.area;
        assert secs[i] == SectionOf(r, s.area);
      }
    }
  }

  /** Sections of the same shape keep their order when they are printed. */
  function AllPrinted(order: seq<Section>): (printed: seq<Printed>)
    ensures |printed| == |order| && forall i :: 0 <= i < |order| ==> printed[i] == PrintedOf(order[i])
  {
    if order == [] then [] else [PrintedOf(order[0])] + AllPrinted(order[1..])
  }

  lemma SectionPrintedRight(ms: seq<Info>, s: Section)
    requires s.area in Firsts(Mentions(ms)) && s == SectionOf(Mentions(ms), s.area)
    ensures Mentioned(ms, s.area) && SectionTotal(s) == AreaTotal(ms, s.area)
    ensures ByCount(PrintedOf(s).infos, AreaInfos(ms, s.area))
  {
    FirstsMet(Mentions(ms), s.area);
    MentionedIff(ms, s.area);
    SortedByCount(s.infos);
  }

  lemma MentionedIsPrinted(ms: seq<Info>, area: string)
    requires Mentioned(ms, area)
    ensures exists p :: p in AllPrinted(SortSections(Group(ms))) && p.area == area
  {
    var r, order := Mentions(ms), SortSections(Group(ms));
    SectionOrder(ms);
    MentionedIff(ms, area);
    FirstsMet(r, area);
    var s := SectionOf(r, area);
    assert s in order;
    var i :| 0 <= i < |order| && order[i] == s;
    assert AllPrinted(order)[i].area == area;
  }

  lemma PrintedByTotal(ms: seq<Info>)
    ensures ByTotal(AllPrinted(SortSections(Group(ms))), ms)
  {
    var order := SortSections(Group(ms));
    SectionOrder(ms);
    forall i | 0 <= i < |order|
      ensures Mentioned(ms, order[i].area) && SectionTotal(order[i]) == AreaTotal(ms, order[i].area)
      ensures ByCount(PrintedOf(order[i]).infos, AreaInfos(ms, order[i].area))
    {
      assert order[i] in order;
      SectionPrintedRight(ms, order[i]);
    }
    forall m, a | m in ms && a in m.areas
      ensures exists p :: p in AllPrinted(order) && p.area == a
    {
      assert Mentioned(ms, a);
      MentionedIsPrinted(ms, a);
    }
  }

  // ---- The printed lines ---------------------------------------------------

  lemma SegmentText(name: string, text: string, rest: string)
    requires text == "/" + name
    ensures Segment(name, rest) == text + rest
  {
    assert "/" + (name + rest) == ("/" + name) + rest;
  }

  lemma UrlText(number: nat)
    ensures Url(number) == PrintedUrl(number)
  {
    var issues := ISSUES_PATH + Decimal(number);
    SegmentText("orion-studio", "/orion-studio", issues);
    var studio := "/orion-studio" + issues;
    SegmentText("orion-agents", "/orion-agents", studio);
    var agents := "/orion-agents" + studio;
    SegmentText("github.com", "/github.com", agents);
    HostText(agents);
  }

  lemma HostText(rest: string)
    ensures "https:" + Segment("", "/github.com" + rest) == "https://github.com" + rest
  {
    assert "https:" + "/" == "https:/";
    assert "https:/" + "/github.com" == "https://github.com";
    assert "" + ("/github.com" + rest) == "/github.com" + rest;
    Reassociate("https:", "/", "/github.com", rest);
  }

  lemma Reassociate(a: string, b: string, c: string, d: string)
    ensures a + (b + (c + d)) == ((a + b) + c) + d
  {
  }

  lemma EntryPrinted(info: Info)
    ensures EntryLines(info) == PrintedEntry(info)
  {
    UrlText(info.number);
    assert |Decimal(info.count)| < 2 <==> info.count < 10;
  }

  lemma {:induction false} EntriesPrinted(infos: seq<Info>)
    ensures FlatMap(infos, EntryLines) == FlatMap(infos, PrintedEntry)
  {
    if infos != [] {
      EntryPrinted(infos[0]);
      EntriesPrinted(infos[1..]);
    }
  }

  lemma {:induction false} SectionsPrinted(order: seq<Section>)
    ensures FlatMap(order, SectionLines) == FlatMap(AllPrinted(order), PrintedSection)
  {
    if order != [] {
      EntriesPrinted(SortInfos(order[0].infos));
      SectionsPrinted(order[1..]);
    }
  }

  // ---- The printer ---------------------------------------------------------

  method GroupByArea(ms: seq<Info>) returns (secs: seq<Section>)
    ensures secs == Group(ms)
  {
    secs := [];
    for i := 0 to |ms|
      invariant secs == Group(ms[..i])
    {
      var info := ms[i];
      for k := 0 to |info.areas|
        invariant secs == AddAreas(Group(ms[..i]), info, info.areas[..k])
      {
        assert info.areas[..k + 1][..k] == info.areas[..k];
        secs := AddToSection(secs, info.areas[k], info);
      }
      assert info.areas[..|info.areas|] == info.areas;
      assert ms[..i + 1][..i] == ms[..i];
    }
    assert ms[..|ms|] == ms;
  }

  method RenderSection(s: Section) returns (lines: seq<string>)
    ensures lines == SectionLines(s)
  {
    var infos := SortInfos(s.infos);
    var entries: seq<string> := [];
    for i := 0 to |infos|
      invariant entries == FlatMap(infos[..i], EntryLines)
    {
      FlatMapAppend(infos[..i], infos[i], EntryLines);
      assert infos[..i + 1] == infos[..i] + [infos[i]];
      entries := entries + EntryLines(infos[i]);
    }
    assert infos[..|infos|] == infos;
    lines := ["", "## " + s.area, ""] + entries;
  }

  method RenderSections(order: seq<Section>) returns (lines: seq<string>)
    ensures lines == FlatMap(order, SectionLines)
  {
    lines := [];
    for i := 0 to |order|
      invariant lines == FlatMap(order[..i], SectionLines)
    {
      var section := RenderSection(order[i]);
      FlatMapAppend(order[..i], order[i], SectionLines);
      assert order[..i + 1] == order[..i] + [order[i]];
      lines := lines + section;
    }
    assert order[..|order|] == order;
  }

  /**
   Groups by area, then appends the lines section by section: each area once, the most re-reported first.
   */
  method BuildMarkdownBody(ms: seq<Info>) returns (body: string, ghost printed: seq<Printed>)
    ensures body == RenderBody(ms)
    ensures body == JoinLines([INTRO] + FlatMap(printed, PrintedSection)) && ByTotal(printed, ms)
  {
    var secs := GroupByArea(ms);
    var order := SortSections(secs);
    var lines := RenderSections(order);
    body := JoinLines([INTRO] + lines);
    printed := AllPrinted(order);
    SectionsPrinted(order);
    PrintedByTotal(ms);
  }
}
