/** Parsing the printed index of duplicate magnets recovers the magnets. */
module MagnetsRoundTrip {
  import opened Prelude
  import opened Text
  import opened Sorting
  import opened Magnets

  // ---- One entry line ------------------------------------------------------

  lemma ConstantsWithoutSlash()
    ensures '/' !in "-   [" && '/' !in " dupes] " && '/' !in "https:" && '/' !in ""
    ensures '/' !in "github.com" && '/' !in "orion-agents" && '/' !in "orion-studio"
  {
  }

  /** A path segment that does not begin like `sub` is skipped by the search. */
  lemma FindPastSegment(name: string, rest: string, sub: string)
    requires |sub| > 1 && sub[0] == '/'
    requires '/' !in name && name + rest != "" && (name + rest)[0] != sub[1]
    ensures Find(Segment(name, rest), sub)
            == (if Find(rest, sub).Some? then Some(1 + |name| + Find(rest, sub).value) else None)
  {
    FindSkip(name, rest, sub);
  }

  /** The only issue path in a printed URL is the one before the number. */
  lemma FindInUrl(number: nat)
    ensures Find(Url(number), ISSUES_PATH) == Some(44)
  {
    ConstantsWithoutSlash();
    var t := ISSUES_PATH + Decimal(number);
    FindPastSegment("orion-studio", t, ISSUES_PATH);
    var t1 := Segment("orion-studio", t);
    FindPastSegment("orion-agents", t1, ISSUES_PATH);
    var t2 := Segment("orion-agents", t1);
    FindPastSegment("github.com", t2, ISSUES_PATH);
    var t3 := Segment("github.com", t2);
    FindPastSegment("", t3, ISSUES_PATH);
    FindSkip("https:", Segment("", t3), ISSUES_PATH);
  }

  lemma SegmentAppend(name: string, rest: string, d: string)
    ensures Segment(name, rest + d) == Segment(name, rest) + d && |Segment(name, rest)| == 1 + |name| + |rest|
  {
    assert name + (rest + d) == (name + rest) + d;
  }

  lemma UrlShape(number: nat)
    ensures |Url(number)| == 52 + |Decimal(number)|
    ensures Url(number)[52..] == Decimal(number)
  {
    var d, p1 := Decimal(number), Segment("orion-studio", ISSUES_PATH);
    var p2 := Segment("orion-agents", p1);
    var p3 := Segment("github.com", p2);
    SegmentAppend("orion-studio", ISSUES_PATH, d);
    SegmentAppend("orion-agents", p1, d);
    SegmentAppend("github.com", p2, d);
    SegmentAppend("", p3, d);
    var p := "https:" + Segment("", p3);
    assert Url(number) == p + d && |p| == 52;
  }

  /** The number after the issue path is read back. */
  lemma NumberPiece(lead: string, number: nat)
    requires '/' !in lead
    ensures Find(lead + Url(number), ISSUES_PATH).Some?
    ensures SecondPiece(lead + Url(number), ISSUES_PATH) == Some(Decimal(number))
  {
    FindInUrl(number);
    FindSkip(lead, Url(number), ISSUES_PATH);
    var line, d := lead + Url(number), Decimal(number);
    UrlShape(number);
    assert line[|lead| + 52..] == d;
    assert '/' !in d;
    BeforeSkip(d, "", ISSUES_PATH);
    assert d + "" == d;
  }

  lemma ParensKept(d: string)
    requires d != "" && AllDigits(d)
    ensures StripParens(d) == d
  {
    assert d[|d| - 1] in d;
  }

  lemma NumberRoundTrip(lead: string, number: nat)
    requires '/' !in lead
    ensures TokenInt(SecondPiece(lead + Url(number), ISSUES_PATH)) == Some(number)
  {
    NumberPiece(lead, number);
    var d := Decimal(number);
    TokenOfDigits("", d, "");
    assert "" + d + "" == d;
    ParensKept(d);
    DecimalRoundTrip(number);
  }

  /** Digits up to a blank are the first token, wherever the piece is cut after that. */
  lemma PieceToken(sep: string, blank: string, d: string, rest: string)
    requires sep != "" && sep[0] !in blank && sep[0] !in d && sep[0] != ' '
    requires blank == "" || blank == " "
    requires d != "" && AllDigits(d)
    ensures FirstToken(BeforeFirst(blank + d + (" " + rest), sep)) == Some(d)
  {
    var x, p := blank + d, BeforeFirst(rest, sep);
    assert BeforeFirst(x + (" " + rest), sep) == x + (" " + p) by {
      BeforeSkip(x + " ", rest, sep);
      Rejoin(x, " ", rest);
      Rejoin(x, " ", p);
    }
    TokenOfDigits(blank, d, " " + p);
  }

  lemma Rejoin(a: string, b: string, c: string)
    ensures a + (b + c) == a + b + c
  {
  }

  lemma BracketAt(after: string)
    ensures Find("-   [" + after, "[") == Some(4)
    ensures ("-   [" + after)[5..] == after
  {
    assert '[' !in "-   ";
    FindSkip("-   ", "[" + after, "[");
    assert "-   [" + after == "-   " + ("[" + after);
    assert Find("[" + after, "[") == Some(0);
  }

  lemma EntryCount(info: Info)
    ensures SecondPiece(EntryLine(info), "[").Some?
    ensures FirstToken(SecondPiece(EntryLine(info), "[").value) == Some(Decimal(info.count))
  {
    var blank, d := PaddedBlank(info.count), Decimal(info.count);
    var rest := "dupes] " + Url(info.number);
    var after := blank + d + (" dupes] " + Url(info.number));
    assert " dupes] " == " " + "dupes] ";
    Rejoin(" ", "dupes] ", Url(info.number));
    BracketAt(after);
    PieceToken("[", blank, d, rest);
  }

  lemma EntryNumber(info: Info)
    ensures Find(EntryLine(info), ISSUES_PATH).Some?
    ensures TokenInt(SecondPiece(EntryLine(info), ISSUES_PATH)) == Some(info.number)
  {
    var blank, d := PaddedBlank(info.count), Decimal(info.count);
    var lead := "-   [" + (blank + d + " dupes] ");
    EntryLead(info);
    assert '/' !in blank + d + " dupes] ";
    NumberPiece(lead, info.number);
    NumberRoundTrip(lead, info.number);
  }

  /** An entry line parses back to its count and its number. */
  lemma EntryRoundTrip(info: Info)
    ensures ParseEntry(EntryLine(info)) == Some((info.count, info.number))
    ensures Find(EntryLine(info), ISSUES_PATH).Some?
    ensures StartsWith(EntryLine(info), "-") && !StartsWith(EntryLine(info), "## ")
  {
    EntryCount(info);
    EntryNumber(info);
    DecimalRoundTrip(info.count);
    assert EntryLine(info)[0] == '-';
  }

  lemma EntryLead(info: Info)
    ensures EntryLine(info)
            == "-   [" + (PaddedBlank(info.count) + Decimal(info.count) + " dupes] ") + Url(info.number)
  {
    Regroup3("-   [", PaddedBlank(info.count) + Decimal(info.count), " dupes] ", Url(info.number));
  }

  lemma Regroup3(a: string, b: string, c: string, d: string)
    ensures a + (b + (c + d)) == a + (b + c) + d
  {
  }

  // ---- The printed lines as parser steps -----------------------------------

  /** Areas that the printer and the parser agree on. */
  predicate GoodArea(area: string) {
    area != "" && Trimmed(area) && '\n' !in area
  }

  function AddInfos(out: seq<Parsed>, area: string, infos: seq<Info>): (r: seq<Parsed>)
    decreases |infos|
  {
    if infos == [] then out
    else AddInfos(AddMagnet(out, area, infos[0].number, infos[0].count), area, infos[1..])
  }

  function AddSections(out: seq<Parsed>, secs: seq<Section>): (r: seq<Parsed>)
    decreases |secs|
  {
    if secs == [] then out
    else AddSections(AddInfos(out, secs[0].area, SortInfos(secs[0].infos)), secs[1..])
  }

  lemma ParseOneEntry(st: ParserState, info: Info, rest: seq<string>)
    requires st.area != ""
    ensures ParseLines(st, [EntryLine(info)] + rest)
            == ParseLines(st.(out := AddMagnet(st.out, st.area, info.number, info.count)), rest)
  {
    EntryRoundTrip(info);
    assert ([EntryLine(info)] + rest)[1..] == rest;
  }

  lemma {:induction false} ParseEntries(st: ParserState, infos: seq<Info>, rest: seq<string>)
    requires st.area != ""
    ensures ParseLines(st, FlatMap(infos, EntryLines) + rest)
            == ParseLines(st.(out := AddInfos(st.out, st.area, infos)), rest)
    decreases |infos|
  {
    if infos == [] {
      assert FlatMap(infos, EntryLines) + rest == rest;
    } else {
      var more := FlatMap(infos[1..], EntryLines) + rest;
      assert FlatMap(infos, EntryLines) + rest == EntryLines(infos[0]) + more;
      ParseOneEntry(st, infos[0], more);
      ParseEntries(st.(out := AddMagnet(st.out, st.area, infos[0].number, infos[0].count)), infos[1..], rest);
    }
  }

  lemma StripKeepsTrimmed(area: string)
    requires area != "" && Trimmed(area)
    ensures Strip(area) == area
  {
  }

  lemma ParseHeader(st: ParserState, area: string, rest: seq<string>)
    requires GoodArea(area)
    ensures ParseLines(st, ["", "## " + area, ""] + rest) == ParseLines(st.(area := area), rest)
  {
    var header := "## " + area;
    StripKeepsTrimmed(area);
    assert header[3..] == area;
    assert ParseLine(st, "") == st;
    assert ParseLine(st, header) == st.(area := area);
    assert ParseLine(st.(area := area), "") == st.(area := area);
    ParseThree(st, "", header, "", rest);
  }

  lemma ParseCons(st: ParserState, line: string, rest: seq<string>)
    ensures ParseLines(st, [line] + rest) == ParseLines(ParseLine(st, line), rest)
  {
    assert ([line] + rest)[1..] == rest;
  }

  lemma ParseThree(st: ParserState, a: string, b: string, c: string, rest: seq<string>)
    ensures ParseLines(st, [a, b, c] + rest) == ParseLines(ParseLine(ParseLine(ParseLine(st, a), b), c), rest)
  {
    assert [a, b, c] + rest == [a] + ([b] + ([c] + rest));
    ParseCons(st, a, [b] + ([c] + rest));
    ParseCons(ParseLine(st, a), b, [c] + rest);
    ParseCons(ParseLine(ParseLine(st, a), b), c, rest);
  }

  lemma {:induction false} ParseSections(st: ParserState, secs: seq<Section>)
    requires forall s :: s in secs ==> GoodArea(s.area)
    ensures ParseLines(st, FlatMap(secs, SectionLines)).out == AddSections(st.out, secs)
    decreases |secs|
  {
    if secs != [] {
      var s, infos := secs[0], SortInfos(secs[0].infos);
      var more := FlatMap(secs[1..], SectionLines);
      var entries := FlatMap(infos, EntryLines);
      assert FlatMap(secs, SectionLines) == ["", "## " + s.area, ""] + (entries + more);
      ParseHeader(st, s.area, entries + more);
      ParseEntries(st.(area := s.area), infos, more);
      ParseSections(st.(area := s.area, out := AddInfos(st.out, s.area, infos)), secs[1..]);
    }
  }

  // ---- What the sections hold ----------------------------------------------

  /** The area under which an issue is listed, if it is the issue asked for. */
  function Hit(area: string, info: Info, n: int): (b: multiset<string>) {
    if info.number == n then multiset{area} else multiset{}
  }

  /** The areas under which issue `n` is listed in one section. */
  function InfosBag(area: string, infos: seq<Info>, n: int): (b: multiset<string>) {
    if infos == [] then multiset{} else Hit(area, infos[0], n) + InfosBag(area, infos[1..], n)
  }

  /** The areas under which issue `n` is listed in all sections. */
  function SectionsBag(secs: seq<Section>, n: int): (b: multiset<string>) {
    if secs == [] then multiset{} else InfosBag(secs[0].area, secs[0].infos, n) + SectionsBag(secs[1..], n)
  }

  /** The areas given for issue `n`. */
  function GivenAreas(ms: seq<Info>, n: int): (b: multiset<string>) {
    if ms == [] then multiset{}
    else
      var last := ms[|ms| - 1];
      GivenAreas(ms[..|ms| - 1], n) + if last.number == n then multiset(last.areas) else multiset{}
  }

  lemma {:induction false} InfosBagAppend(area: string, infos: seq<Info>, info: Info, n: int)
    ensures InfosBag(area, infos + [info], n) == InfosBag(area, infos, n) + Hit(area, info, n)
  {
    if infos != [] {
      InfosBagAppend(area, infos[1..], info, n);
      assert (infos + [info])[1..] == infos[1..] + [info];
    }
  }

  lemma {:induction false} AddToSectionBag(secs: seq<Section>, area: string, info: Info, n: int)
    ensures SectionsBag(AddToSection(secs, area, info), n) == SectionsBag(secs, n) + Hit(area, info, n)
  {
    var r := AddToSection(secs, area, info);
    if secs == [] {
      InfosBagAppend(area, [], info, n);
      assert [] + [info] == [info] && r[1..] == [];
      assert SectionsBag(r, n) == InfosBag(area, [info], n) + SectionsBag(r[1..], n);
    } else {
      if secs[0].area == area {
        InfosBagAppend(area, secs[0].infos, info, n);
        assert r[1..] == secs[1..];
      } else {
        AddToSectionBag(secs[1..], area, info, n);
        assert r[1..] == AddToSection(secs[1..], area, info);
      }
    }
  }

  /** What the areas of one issue add to the areas of issue `n`. */
  function AreasHit(areas: seq<string>, info: Info, n: int): (b: multiset<string>) {
    if info.number == n then multiset(areas) else multiset{}
  }

  lemma AreasHitStep(areas: seq<string>, area: string, info: Info, n: int)
    ensures AreasHit(areas + [area], info, n) == AreasHit(areas, info, n) + Hit(area, info, n)
  {
  }

  lemma AddAreasStep(secs: seq<Section>, info: Info, areas: seq<string>, area: string, n: int)
    ensures SectionsBag(AddAreas(secs, info, areas + [area]), n)
            == SectionsBag(AddAreas(secs, info, areas), n) + Hit(area, info, n)
  {
    assert (areas + [area])[..|areas|] == areas;
    AddToSectionBag(AddAreas(secs, info, areas), area, info, n);
  }

  lemma {:induction false} AddAreasBag(secs: seq<Section>, info: Info, areas: seq<string>, n: int)
    ensures SectionsBag(AddAreas(secs, info, areas), n) == SectionsBag(secs, n) + AreasHit(areas, info, n)
    decreases |areas|
  {
    if areas != [] {
      var init, area := areas[..|areas| - 1], areas[|areas| - 1];
      assert areas == init + [area];
      AddAreasBag(secs, info, init, n);
      AddAreasStep(secs, info, init, area, n);
      AreasHitStep(init, area, info, n);
    }
  }

  /** Grouping lists every issue under exactly its own areas. */
  lemma {:induction false} GroupBag(ms: seq<Info>, n: int)
    ensures SectionsBag(Group(ms), n) == GivenAreas(ms, n)
  {
    if ms != [] {
      var last := ms[|ms| - 1];
      GroupBag(ms[..|ms| - 1], n);
      AddAreasBag(Group(ms[..|ms| - 1]), last, last.areas, n);
    }
  }

  lemma {:induction false} InsertInfoBag(area: string, x: Info, infos: seq<Info>, n: int)
    ensures InfosBag(area, InsertDescending(x, infos, InfoCount), n) == Hit(area, x, n) + InfosBag(area, infos, n)
  {
    var r := InsertDescending(x, infos, InfoCount);
    if infos == [] || x.count >= infos[0].count {
      assert r[1..] == infos;
    } else {
      InsertInfoBag(area, x, infos[1..], n);
      assert r[1..] == InsertDescending(x, infos[1..], InfoCount);
    }
  }

  lemma {:induction false} SortInfosBag(area: string, infos: seq<Info>, n: int)
    ensures InfosBag(area, SortInfos(infos), n) == InfosBag(area, infos, n)
  {
    if infos != [] {
      SortInfosBag(area, infos[1..], n);
      InsertInfoBag(area, infos[0], SortInfos(infos[1..]), n);
    }
  }

  lemma {:induction false} InsertSectionBag(x: Section, secs: seq<Section>, n: int)
    ensures SectionsBag(InsertDescending(x, secs, SectionTotal), n)
            == InfosBag(x.area, x.infos, n) + SectionsBag(secs, n)
  {
    var r := InsertDescending(x, secs, SectionTotal);
    if secs == [] || x.total >= secs[0].total {
      assert r[1..] == secs;
    } else {
      InsertSectionBag(x, secs[1..], n);
      assert r[1..] == InsertDescending(x, secs[1..], SectionTotal);
    }
  }

  lemma {:induction false} SortSectionsBag(secs: seq<Section>, n: int)
    ensures SectionsBag(SortSections(secs), n) == SectionsBag(secs, n)
  {
    if secs != [] {
      SortSectionsBag(secs[1..], n);
      InsertSectionBag(secs[0], SortSections(secs[1..]), n);
    }
  }

  /** Sections hold only given issues, under good areas. */
  ghost predicate Given(secs: seq<Section>, ms: seq<Info>) {
    forall s :: s in secs ==> GoodArea(s.area) && forall i :: i in s.infos ==> i in ms
  }

  lemma {:induction false} AddToSectionGiven(secs: seq<Section>, area: string, info: Info, ms: seq<Info>)
    requires Given(secs, ms) && GoodArea(area) && info in ms
    ensures Given(AddToSection(secs, area, info), ms)
  {
    if secs != [] && secs[0].area != area {
      AddToSectionGiven(secs[1..], area, info, ms);
    }
  }

  lemma {:induction false} AddAreasGiven(secs: seq<Section>, info: Info, areas: seq<string>, ms: seq<Info>)
    requires Given(secs, ms) && info in ms && forall a :: a in areas ==> GoodArea(a)
    ensures Given(AddAreas(secs, info, areas), ms)
    decreases |areas|
  {
    if areas != [] {
      AddAreasGiven(secs, info, areas[..|areas| - 1], ms);
      AddToSectionGiven(AddAreas(secs, info, areas[..|areas| - 1]), areas[|areas| - 1], info, ms);
    }
  }

  lemma {:induction false} GroupGiven(part: seq<Info>, ms: seq<Info>)
    requires forall m :: m in part ==> m in ms && forall a :: a in m.areas ==> GoodArea(a)
    ensures Given(Group(part), ms)
  {
    if part != [] {
      var last := part[|part| - 1];
      GroupGiven(part[..|part| - 1], ms);
      AddAreasGiven(Group(part[..|part| - 1]), last, last.areas, ms);
    }
  }

  // ---- What the parser collects --------------------------------------------

  function Lookup(out: seq<Parsed>, n: int): (p: Option<Parsed>) {
    if out == [] then None else if out[0].number == n then Some(out[0]) else Lookup(out[1..], n)
  }

  /** The areas the parser keeps: all but the marker for unlabeled issues. */
  function Labelled(bag: multiset<string>): (b: multiset<string>) {
    bag[UNLABELED := 0]
  }

  /** Issue `n` has been met exactly under the areas in `bag`. */
  ghost predicate Collected(out: seq<Parsed>, n: int, bag: multiset<string>, count: int) {
    var p := Lookup(out, n);
    if bag == multiset{} then p.None?
    else p.Some? && multiset(p.value.areas) == Labelled(bag) && p.value.count == count
  }

  lemma {:induction false} AddMagnetLookup(out: seq<Parsed>, area: string, number: int, count: int, n: int)
    ensures var p, q := Lookup(out, n), Lookup(AddMagnet(out, area, number, count), n);
            var areas := if area == UNLABELED then [] else [area];
            q == if n != number then p
                 else if p.None? then Some(Parsed(number, areas, count))
                 else Some(p.value.(areas := p.value.areas + areas))
  {
    if out != [] && out[0].number != number {
      AddMagnetLookup(out[1..], area, number, count, n);
    }
  }

  lemma AddMagnetCollects(out: seq<Parsed>, area: string, info: Info, n: int, bag: multiset<string>, count: int)
    requires Collected(out, n, bag, count) && (info.number == n ==> info.count == count)
    ensures Collected(AddMagnet(out, area, info.number, info.count), n, bag + Hit(area, info, n), count)
  {
    AddMagnetLookup(out, area, info.number, info.count, n);
    if info.number == n {
      var areas := if area == UNLABELED then [] else [area];
      assert multiset(areas) == Labelled(multiset{area});
      assert Labelled(bag + multiset{area}) == Labelled(bag) + Labelled(multiset{area});
      assert area in bag + multiset{area};
      if bag == multiset{} {
        assert bag + multiset{area} == multiset{area};
      }
    } else {
      assert bag + multiset{} == bag;
    }
  }

  lemma {:induction false} AddInfosCollects(out: seq<Parsed>, area: string, infos: seq<Info>, n: int, bag: multiset<string>, count: int)
    requires Collected(out, n, bag, count)
    requires forall i :: i in infos && i.number == n ==> i.count == count
    ensures Collected(AddInfos(out, area, infos), n, bag + InfosBag(area, infos, n), count)
    decreases |infos|
  {
    if infos == [] {
      assert bag + multiset{} == bag;
    } else {
      var hit := Hit(area, infos[0], n);
      AddMagnetCollects(out, area, infos[0], n, bag, count);
      AddInfosCollects(AddMagnet(out, area, infos[0].number, infos[0].count), area, infos[1..], n, bag + hit, count);
      assert bag + hit + InfosBag(area, infos[1..], n) == bag + InfosBag(area, infos, n);
    }
  }

  lemma SortedInfosCount(infos: seq<Info>, n: int, count: int)
    requires forall i :: i in infos && i.number == n ==> i.count == count
    ensures forall i :: i in SortInfos(infos) && i.number == n ==> i.count == count
  {
    forall i | i in SortInfos(infos) && i.number == n
      ensures i.count == count
    {
      SortMembers(infos, InfoCount, i);
    }
  }

  lemma {:induction false} AddSectionsCollects(out: seq<Parsed>, secs: seq<Section>, n: int, bag: multiset<string>, count: int)
    requires Collected(out, n, bag, count)
    requires forall s, i :: s in secs && i in s.infos && i.number == n ==> i.count == count
    ensures Collected(AddSections(out, secs), n, bag + SectionsBag(secs, n), count)
    decreases |secs|
  {
    if secs == [] {
      assert bag + multiset{} == bag;
    } else {
      var s, infos := secs[0], SortInfos(secs[0].infos);
      var first := InfosBag(s.area, s.infos, n);
      SortedInfosCount(s.infos, n, count);
      SortInfosBag(s.area, s.infos, n);
      AddInfosCollects(out, s.area, infos, n, bag, count);
      AddSectionsCollects(AddInfos(out, s.area, infos), secs[1..], n, bag + first, count);
      assert bag + first + SectionsBag(secs[1..], n) == bag + SectionsBag(secs, n);
    }
  }

  // ---- One parsed magnet per issue -----------------------------------------

  function Numbers(out: seq<Parsed>): (ns: seq<int>)
    ensures |ns| == |out| && forall i :: 0 <= i < |out| ==> ns[i] == out[i].number
  {
    if out == [] then [] else [out[0].number] + Numbers(out[1..])
  }

  lemma {:induction false} AddMagnetNumbers(out: seq<Parsed>, area: string, number: int, count: int)
    ensures Numbers(AddMagnet(out, area, number, count))
            == Numbers(out) + if number in Numbers(out) then [] else [number]
  {
    if out != [] && out[0].number != number {
      AddMagnetNumbers(out[1..], area, number, count);
    }
  }

  lemma {:induction false} AddInfosDistinct(out: seq<Parsed>, area: string, infos: seq<Info>)
    requires NoDuplicates(Numbers(out))
    ensures NoDuplicates(Numbers(AddInfos(out, area, infos)))
    decreases |infos|
  {
    if infos != [] {
      AddMagnetNumbers(out, area, infos[0].number, infos[0].count);
      AddInfosDistinct(AddMagnet(out, area, infos[0].number, infos[0].count), area, infos[1..]);
    }
  }

  lemma {:induction false} AddSectionsDistinct(out: seq<Parsed>, secs: seq<Section>)
    requires NoDuplicates(Numbers(out))
    ensures NoDuplicates(Numbers(AddSections(out, secs)))
    decreases |secs|
  {
    if secs != [] {
      AddInfosDistinct(out, secs[0].area, SortInfos(secs[0].infos));
      AddSectionsDistinct(AddInfos(out, secs[0].area, SortInfos(secs[0].infos)), secs[1..]);
    }
  }

  lemma {:induction false} LookupNumbers(out: seq<Parsed>, n: int)
    ensures Lookup(out, n).Some? <==> n in Numbers(out)
    ensures Lookup(out, n).Some? ==> Lookup(out, n).value in out && Lookup(out, n).value.number == n
  {
    if out != [] {
      LookupNumbers(out[1..], n);
    }
  }

  // ---- No stray line breaks ------------------------------------------------

  lemma ConstantsOnOneLine()
    ensures '\n' !in "-   [" && '\n' !in " dupes] " && '\n' !in "https:" && '\n' !in "/"
    ensures '\n' !in "github.com" && '\n' !in "orion-agents" && '\n' !in "orion-studio" && '\n' !in ISSUES_PATH
  {
  }

  lemma IntroOnOneLine()
    ensures '\n' !in INTRO && !StartsWith(INTRO, "## ")
  {
    assert '\n' !in INTRO_START && '\n' !in INTRO_MIDDLE && '\n' !in INTRO_NEXT && '\n' !in INTRO_END;
    JoinedOnOneLine(INTRO_NEXT, INTRO_END);
    JoinedOnOneLine(INTRO_MIDDLE, INTRO_NEXT + INTRO_END);
    JoinedOnOneLine(INTRO_START, INTRO_MIDDLE + (INTRO_NEXT + INTRO_END));
    assert INTRO[0] == INTRO_START[0] == 'T';
  }

  lemma SegmentOnOneLine(name: string, rest: string)
    requires '\n' !in name && '\n' !in rest
    ensures '\n' !in Segment(name, rest)
  {
  }

  lemma EntryOnOneLine(info: Info)
    ensures '\n' !in EntryLine(info)
  {
    ConstantsOnOneLine();
    var t := ISSUES_PATH + Decimal(info.number);
    SegmentOnOneLine("orion-studio", t);
    SegmentOnOneLine("orion-agents", Segment("orion-studio", t));
    SegmentOnOneLine("github.com", Segment("orion-agents", Segment("orion-studio", t)));
    SegmentOnOneLine("", Segment("github.com", Segment("orion-agents", Segment("orion-studio", t))));
    JoinedOnOneLine("https:", Segment("", Segment("github.com", Segment("orion-agents", Segment("orion-studio", t)))));
    JoinedOnOneLine(" dupes] ", Url(info.number));
    JoinedOnOneLine(PaddedBlank(info.count), Decimal(info.count));
    JoinedOnOneLine(PaddedBlank(info.count) + Decimal(info.count), " dupes] " + Url(info.number));
  }

  lemma JoinedOnOneLine(a: string, b: string)
    requires '\n' !in a && '\n' !in b
    ensures '\n' !in a + b
  {
  }

  lemma {:induction false} FlatMapLines<T>(xs: seq<T>, f: T -> seq<string>)
    requires forall x, l :: x in xs && l in f(x) ==> '\n' !in l
    ensures forall l :: l in FlatMap(xs, f) ==> '\n' !in l
  {
    if xs != [] {
      FlatMapLines(xs[1..], f);
    }
  }

  lemma SectionOnOneLineEach(s: Section)
    requires GoodArea(s.area)
    ensures forall l :: l in SectionLines(s) ==> '\n' !in l
  {
    var infos := SortInfos(s.infos);
    forall i, l | i in infos && l in EntryLines(i)
      ensures '\n' !in l
    {
      EntryOnOneLine(i);
    }
    FlatMapLines(infos, EntryLines);
    assert forall l :: l in ["", "## " + s.area, ""] ==> '\n' !in l;
  }

  // ---- The round trip ------------------------------------------------------

  /** Distinct issues, each listed under at least one area that prints and parses faithfully. */
  ghost predicate Printable(ms: seq<Info>) {
    && (forall i, j :: 0 <= i < j < |ms| ==> ms[i].number != ms[j].number)
    && (forall m :: m in ms ==> m.areas != [] && forall a :: a in m.areas ==> GoodArea(a))
  }

  lemma {:induction false} GivenAreasOf(ms: seq<Info>, n: int)
    requires forall i, j :: 0 <= i < j < |ms| ==> ms[i].number != ms[j].number
    ensures forall m :: m in ms && m.number == n ==> GivenAreas(ms, n) == multiset(m.areas)
    ensures (forall m :: m in ms ==> m.number != n) ==> GivenAreas(ms, n) == multiset{}
  {
    if ms != [] {
      var init, last := ms[..|ms| - 1], ms[|ms| - 1];
      GivenAreasOf(init, n);
      assert ms == init + [last];
      assert forall m :: m in init ==> m.number != last.number;
    }
  }

  lemma SortedSectionsGiven(ms: seq<Info>)
    requires Printable(ms)
    ensures Given(SortSections(Group(ms)), ms)
  {
    GroupGiven(ms, ms);
    forall s | s in SortSections(Group(ms))
      ensures s in Group(ms)
    {
      SortMembers(Group(ms), SectionTotal, s);
    }
  }

  /** The parser's magnets before the final sort. */
  lemma ParsedSections(ms: seq<Info>)
    requires Printable(ms)
    ensures ParseLines(ParserState("", []), SplitLines(RenderBody(ms))).out
            == AddSections([], SortSections(Group(ms)))
  {
    var secs := SortSections(Group(ms));
    var lines := FlatMap(secs, SectionLines);
    SortedSectionsGiven(ms);
    IntroOnOneLine();
    forall s, l | s in secs && l in SectionLines(s)
      ensures '\n' !in l
    {
      SectionOnOneLineEach(s);
    }
    FlatMapLines(secs, SectionLines);
    JoinSplit([INTRO] + lines);
    ParseCons(ParserState("", []), INTRO, lines);
    assert ParseLine(ParserState("", []), INTRO) == ParserState("", []);
    ParseSections(ParserState("", []), secs);
  }

  /** What issue `n` was given is what the parser collected for it. */
  lemma CollectedFor(ms: seq<Info>, n: int, count: int)
    requires Printable(ms)
    requires forall m :: m in ms && m.number == n ==> m.count == count
    ensures Collected(AddSections([], SortSections(Group(ms))), n, GivenAreas(ms, n), count)
  {
    var secs := SortSections(Group(ms));
    SortedSectionsGiven(ms);
    SortSectionsBag(Group(ms), n);
    GroupBag(ms, n);
    AddSectionsCollects([], secs, n, multiset{}, count);
    assert multiset{} + SectionsBag(secs, n) == SectionsBag(secs, n);
  }

  /** A parsed magnet that stands for the given one. */
  ghost predicate Recovered(out: seq<Parsed>, m: Info) {
    exists p :: p in out && p.number == m.number && p.count == m.count
                && multiset(p.areas) == Labelled(multiset(m.areas))
  }

  lemma RecoversEach(ms: seq<Info>, m: Info)
    requires Printable(ms) && m in ms
    ensures Recovered(ParseBody(RenderBody(ms)), m)
  {
    var out := AddSections([], SortSections(Group(ms)));
    ParsedSections(ms);
    GivenAreasOf(ms, m.number);
    forall k | k in ms && k.number == m.number
      ensures k == m
    {
      SameNumber(ms, m, k);
    }
    CollectedFor(ms, m.number, m.count);
    assert m.areas[0] in multiset(m.areas);
    LookupNumbers(out, m.number);
    var p := Lookup(out, m.number).value;
    SortMembers(out, CountOf, p);
  }

  lemma SameNumber(ms: seq<Info>, m: Info, k: Info)
    requires Printable(ms) && m in ms && k in ms && m.number == k.number
    ensures m == k
  {
    var i :| 0 <= i < |ms| && ms[i] == k;
    var j :| 0 <= j < |ms| && ms[j] == m;
  }

  /** The parser meets exactly the numbers that were given. */
  lemma NumbersGiven(ms: seq<Info>, n: int)
    requires Printable(ms)
    ensures n in Numbers(AddSections([], SortSections(Group(ms)))) <==> exists m :: m in ms && m.number == n
  {
    LookupNumbers(AddSections([], SortSections(Group(ms))), n);
    GivenAreasOf(ms, n);
    if m :| m in ms && m.number == n {
      forall k | k in ms && k.number == n
        ensures k == m
      {
        SameNumber(ms, m, k);
      }
      CollectedFor(ms, n, m.count);
      assert m.areas[0] in multiset(m.areas);
    } else {
      CollectedFor(ms, n, 0);
    }
  }

  function GivenNumbers(ms: seq<Info>): (ns: seq<int>)
    ensures |ns| == |ms| && forall i :: 0 <= i < |ms| ==> ns[i] == ms[i].number
  {
    if ms == [] then [] else [ms[0].number] + GivenNumbers(ms[1..])
  }

  lemma GivenNumbersDistinct(ms: seq<Info>)
    requires forall i, j :: 0 <= i < j < |ms| ==> ms[i].number != ms[j].number
    ensures NoDuplicates(GivenNumbers(ms))
  {
    var ns := GivenNumbers(ms);
    forall i, j | 0 <= i < j < |ns|
      ensures ns[i] != ns[j]
    {
      assert ms[i].number != ms[j].number;
    }
  }

  lemma {:induction false} GivenNumbersMembers(ms: seq<Info>, n: int)
    ensures n in GivenNumbers(ms) <==> exists m :: m in ms && m.number == n
  {
    if m :| m in ms && m.number == n {
      var i :| 0 <= i < |ms| && ms[i] == m;
      assert GivenNumbers(ms)[i] == n;
    }
  }

  lemma SameLength(ms: seq<Info>, out: seq<Parsed>)
    requires Printable(ms) && out == AddSections([], SortSections(Group(ms)))
    ensures |out| == |ms|
  {
    var ns, given := Numbers(out), GivenNumbers(ms);
    AddSectionsDistinct([], SortSections(Group(ms)));
    GivenNumbersDistinct(ms);
    forall n: int
      ensures n in ns <==> n in given
    {
      NumbersGiven(ms, n);
      GivenNumbersMembers(ms, n);
    }
    SameElementsSameLength(ns, given);
  }

  /**
   Parsing the printed index gives one magnet per issue, by falling count, each with
   its count and exactly its areas; issues without an area come back with none.
   */
  lemma MagnetRoundTrip(ms: seq<Info>)
    requires Printable(ms)
    ensures var out := ParseBody(RenderBody(ms));
            && |out| == |ms| && Descending(out, CountOf)
            && forall m :: m in ms ==> Recovered(out, m)
  {
    ParsedSections(ms);
    var out := AddSections([], SortSections(Group(ms)));
    SameLength(ms, out);
    SortDescends(out, CountOf);
    forall m | m in ms
      ensures Recovered(ParseBody(RenderBody(ms)), m)
    {
      RecoversEach(ms, m);
    }
  }

  // ---- The condition on areas is exact -------------------------------------

  /** An area the parser can report: one that prints faithfully, and not the marker. */
  predicate Reportable(area: string) {
    GoodArea(area) && area != UNLABELED
  }

  ghost predicate GoodAreas(out: seq<Parsed>) {
    forall p, a :: p in out && a in p.areas ==> Reportable(a)
  }

  lemma {:induction false} AddMagnetGood(out: seq<Parsed>, area: string, number: int, count: int)
    requires GoodAreas(out) && GoodArea(area)
    ensures GoodAreas(AddMagnet(out, area, number, count))
  {
    if out != [] && out[0].number != number {
      AddMagnetGood(out[1..], area, number, count);
    }
  }

  /** Whatever text is parsed, only reportable areas come out. */
  lemma {:induction false} ParseLinesGood(st: ParserState, lines: seq<string>)
    requires (st.area == "" || GoodArea(st.area)) && GoodAreas(st.out)
    requires forall l :: l in lines ==> '\n' !in l
    ensures GoodAreas(ParseLines(st, lines).out)
    decreases |lines|
  {
    if lines != [] {
      var next := ParseLine(st, lines[0]);
      if StartsWith(lines[0], "## ") {
        StripFacts(lines[0][3..]);
        assert lines[0] in lines;
        assert lines[0] == lines[0][..3] + lines[0][3..];
      } else if next != st {
        var e := ParseEntry(lines[0]).value;
        AddMagnetGood(st.out, st.area, e.1, e.0);
      }
      ParseLinesGood(next, lines[1..]);
    }
  }

  lemma ParseBodyGood(body: string)
    ensures GoodAreas(ParseBody(body))
  {
    SplitLinesFacts(body);
    ParseLinesGood(ParserState("", []), SplitLines(body));
    var out := ParseLines(ParserState("", []), SplitLines(body)).out;
    forall p, a | p in ParseBody(body) && a in p.areas
      ensures Reportable(a)
    {
      SortMembers(out, CountOf, p);
    }
  }

  /** The areas of an issue: none when its only one is the marker that stands for none. */
  function OwnAreas(m: Info): (b: multiset<string>) {
    if m.areas == [UNLABELED] then multiset{} else multiset(m.areas)
  }

  /** A parsed magnet with the number, the count and exactly the areas of the given one. */
  ghost predicate FullyRecovered(out: seq<Parsed>, m: Info) {
    exists p :: p in out && p.number == m.number && p.count == m.count && multiset(p.areas) == OwnAreas(m)
  }

  /** Every area prints faithfully, and the marker for unlabeled issues stands alone. */
  ghost predicate Faithful(m: Info) {
    (forall a :: a in m.areas ==> GoodArea(a)) && (UNLABELED in m.areas ==> m.areas == [UNLABELED])
  }

  /**
   For distinct issues with at least one area each, printing and parsing recovers every magnet exactly
   when every area is non-empty, trimmed and on one line and no issue lists the marker beside other areas.
   */
  lemma MagnetRoundTripIff(ms: seq<Info>)
    requires forall i, j :: 0 <= i < j < |ms| ==> ms[i].number != ms[j].number
    requires forall m :: m in ms ==> m.areas != []
    ensures (forall m :: m in ms ==> FullyRecovered(ParseBody(RenderBody(ms)), m)) <==> (forall m :: m in ms ==> Faithful(m))
  {
    var out := ParseBody(RenderBody(ms));
    if forall m :: m in ms ==> Faithful(m) {
      MagnetRoundTrip(ms);
      forall m | m in ms
        ensures FullyRecovered(out, m)
      {
        FaithfulRecovered(out, m);
      }
    } else {
      var m :| m in ms && !Faithful(m);
      ParseBodyGood(RenderBody(ms));
      UnfaithfulLost(out, m);
    }
  }

  lemma FaithfulRecovered(out: seq<Parsed>, m: Info)
    requires Recovered(out, m) && Faithful(m)
    ensures FullyRecovered(out, m)
  {
    if m.areas == [UNLABELED] {
      assert Labelled(multiset(m.areas)) == multiset{};
    } else {
      assert Labelled(multiset(m.areas)) == multiset(m.areas);
    }
  }

  lemma UnfaithfulLost(out: seq<Parsed>, m: Info)
    requires GoodAreas(out) && !Faithful(m)
    ensures !FullyRecovered(out, m)
  {
    assert GoodArea(UNLABELED) by {
      assert '\n' !in UNLABELED;
    }
    var a :| a in m.areas && !Reportable(a) && m.areas != [UNLABELED];
    forall p | p in out
      ensures multiset(p.areas) != OwnAreas(m)
    {
      assert a !in multiset(p.areas);
      assert a in OwnAreas(m);
    }
  }

  // ---- Other lines -------------------------------------------------------------------

  /** Lines in front of the first header, and those that are no entries, are passed over. */
  lemma OtherLinesIgnored(st: ParserState, line: string)
    requires !("## " <= line)
    requires st.area == "" || line == "" || line[0] != '-' || forall i :: !OccursAt(line, "/issues/", i)
    ensures ParseLine(st, line) == st
  {
    FindFirst(line, "/issues/");
  }

  /** A number in a Markdown link may be followed by parentheses. */
  lemma ParenthesesStripped(number: nat)
    ensures TokenInt(Some(Decimal(number) + ")")) == Some(number)
  {
    var d := Decimal(number);
    assert (d + ")")[..|d|] == d;
    assert forall c :: c in d + ")" ==> !IsSpace(c);
    assert (d + ")") + "" == d + ")" && (d + ")")[0] == d[0] && d[0] in d;
    WordPrefix(d + ")", "");
    ParensKept(d);
    DecimalRoundTrip(number);
  }
}
