/**
 Duplicate magnets: one script prints a Markdown index of frequently re-reported
 issues (script/github-find-top-duplicated-bugs.py), another parses it back
 (script/github-check-new-issue-for-duplicates.py).
 */
module Magnets {
  import opened Prelude
  import opened Text
  import opened Sorting

  const UNLABELED := "(unlabeled)"
  const ISSUES_PATH := "/issues/"
  const INTRO_START := "These are the issues that "
  const INTRO_MIDDLE := "are frequently re-reported. "
  const INTRO_NEXT := "The list is generated "
  const INTRO_END := "regularly by running a script."
  const INTRO := INTRO_START + (INTRO_MIDDLE + (INTRO_NEXT + INTRO_END))

  datatype Info = Info(number: nat, areas: seq<string>, count: nat)

  // ---- The printer ---------------------------------------------------------

  /** The issues of one area, in the order they were met, with their total count. */
  datatype Section = Section(area: string, infos: seq<Info>, total: nat)

  function AddToSection(secs: seq<Section>, area: string, info: Info): (r: seq<Section>) {
    if secs == [] then [Section(area, [info], info.count)]
    else if secs[0].area == area then
      [Section(area, secs[0].infos + [info], secs[0].total + info.count)] + secs[1..]
    else [secs[0]] + AddToSection(secs[1..], area, info)
  }

  function AddAreas(secs: seq<Section>, info: Info, areas: seq<string>): (r: seq<Section>)
    decreases |areas|
  {
    if areas == [] then secs
    else AddToSection(AddAreas(secs, info, areas[..|areas| - 1]), areas[|areas| - 1], info)
  }

  function Group(ms: seq<Info>): (secs: seq<Section>) {
    if ms == [] then []
    else
      var last := ms[|ms| - 1];
      AddAreas(Group(ms[..|ms| - 1]), last, last.areas)
  }

  function InfoCount(i: Info): (c: int) {
    i.count
  }

  function SectionTotal(s: Section): (t: int) {
    s.total
  }

  function SortInfos(infos: seq<Info>): (r: seq<Info>) {
    SortDescending(infos, InfoCount)
  }

  function SortSections(secs: seq<Section>): (r: seq<Section>) {
    SortDescending(secs, SectionTotal)
  }

  /** One segment of a path and what follows it. */
  function Segment(name: string, rest: string): (s: string) {
    "/" + (name + rest)
  }

  function Url(number: nat): (u: string) {
    "https:"
    + Segment("", Segment("github.com", Segment("orion-agents", Segment("orion-studio", ISSUES_PATH + Decimal(number)))))
  }

  function EntryLine(info: Info): (line: string) {
    "-   [" + (PaddedBlank(info.count) + Decimal(info.count) + (" dupes] " + Url(info.number)))
  }

  function EntryLines(info: Info): (lines: seq<string>) {
    [EntryLine(info)]
  }

  function SectionLines(s: Section): (lines: seq<string>) {
    ["", "## " + s.area, ""] + FlatMap(SortInfos(s.infos), EntryLines)
  }

  function BodyLines(ms: seq<Info>): (lines: seq<string>) {
    [INTRO] + FlatMap(SortSections(Group(ms)), SectionLines)
  }

  function RenderBody(ms: seq<Info>): (body: string) {
    JoinLines(BodyLines(ms))
  }

  // ---- The parser ----------------------------------------------------------

  datatype Parsed = Parsed(number: int, areas: seq<string>, count: int)

  function StripParens(s: string): (r: string) {
    if s != "" && s[|s| - 1] == ')' then StripParens(s[..|s| - 1]) else s
  }

  function TokenInt(s: Option<string>): (v: Option<int>) {
    if s.None? || FirstToken(s.value).None? then None else ParseInt(StripParens(FirstToken(s.value).value))
  }

  /** The count after the first bracket and the number after the first issue path. */
  function ParseEntry(line: string): (e: Option<(int, int)>) {
    var bracket := SecondPiece(line, "[");
    if bracket.None? || FirstToken(bracket.value).None? then None
    else
      var count := ParseInt(FirstToken(bracket.value).value);
      var number := TokenInt(SecondPiece(line, ISSUES_PATH));
      if count.None? || number.None? then None else Some((count.value, number.value))
  }

  function AddMagnet(out: seq<Parsed>, area: string, number: int, count: int): (r: seq<Parsed>) {
    var areas := if area == UNLABELED then [] else [area];
    if out == [] then [Parsed(number, areas, count)]
    else if out[0].number == number then [out[0].(areas := out[0].areas + areas)] + out[1..]
    else [out[0]] + AddMagnet(out[1..], area, number, count)
  }

  datatype ParserState = ParserState(area: string, out: seq<Parsed>)

  function ParseLine(st: ParserState, line: string): (r: ParserState) {
    if StartsWith(line, "## ") then st.(area := Strip(line[3..]))
    else if st.area == "" || !StartsWith(line, "-") || Find(line, ISSUES_PATH).None? then st
    else
      match ParseEntry(line)
      case None => st
      case Some((count, number)) => st.(out := AddMagnet(st.out, st.area, number, count))
  }

  function ParseLines(st: ParserState, lines: seq<string>): (r: ParserState)
    decreases |lines|
  {
    if lines == [] then st else ParseLines(ParseLine(st, lines[0]), lines[1..])
  }

  function CountOf(p: Parsed): (c: int) {
    p.count
  }

  function ParseBody(body: string): (out: seq<Parsed>) {
    SortDescending(ParseLines(ParserState("", []), SplitLines(body)).out, CountOf)
  }

  method ParseDuplicateMagnets(body: string) returns (out: seq<Parsed>)
    ensures out == ParseBody(body)
  {
    var lines := SplitLines(body);
    var area, magnets := "", [];
    for i := 0 to |lines|
      invariant ParseLines(ParserState("", []), lines) == ParseLines(ParserState(area, magnets), lines[i..])
    {
      var line := lines[i];
      assert lines[i..][1..] == lines[i + 1..];
      if StartsWith(line, "## ") {
        area := Strip(line[3..]);
        continue;
      }
      if area == "" || !StartsWith(line, "-") || Find(line, ISSUES_PATH).None? {
        continue;
      }
      match ParseEntry(line) {
        case None =>
        case Some((count, number)) =>
          magnets := AddMagnet(magnets, area, number, count);
      }
    }
    out := SortDescending(magnets, CountOf);
  }
}
