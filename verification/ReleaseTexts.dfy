/**
 What the converted release notes say (script/flatpak/convert-release-notes.py:18-54): every line that
 the cleaning keeps appears once, in order, as what it is, and inside as many lists as it should.
 */
module ReleaseTexts {
  import opened Prelude
  import Text
  import opened ReleaseNotes

  /** Three backquotes in a row. */
  ghost predicate Fenced(line: string) {
    exists i :: Text.OccursAt(line, "```", i)
  }

  lemma FencedIff(line: string)
    ensures HasFence(line) <==> Fenced(line)
  {
    Text.FindFirst(line, "```");
  }

  ghost function FenceCount(lines: seq<string>): (n: nat) {
    if lines == [] then 0
    else FenceCount(lines[..|lines| - 1]) + if Fenced(lines[|lines| - 1]) then 1 else 0
  }

  /** Inside a fence: after an odd number of fence lines. */
  ghost predicate Inside(lines: seq<string>) {
    FenceCount(lines) % 2 == 1
  }

  /** The lines that the cleaning keeps. */
  ghost function Cleaned(lines: seq<string>, clean: Cleaner): (kept: seq<string>) {
    if lines == [] then []
    else
      var before := Cleaned(lines[..|lines| - 1], clean);
      var line := clean(lines[|lines| - 1], Inside(before));
      if line.None? then before else before + [line.value]
  }

  /** The text behind the dash and the blanks after it. */
  ghost predicate BehindDash(text: string, line: string) {
    exists k :: 1 <= k <= |line| && text == line[k..]
      && (forall j :: 1 <= j < k ==> Text.IsSpace(line[j])) && (k < |line| ==> !Text.IsSpace(line[k]))
  }

  /** A bullet is an item, a line of a fence is code, and the others are paragraphs. */
  ghost predicate Says(t: Token, before: seq<string>, line: string) {
    if line != "" && line[0] == '-' then t.Item? && BehindDash(t.text, line)
    else if Inside(before) || Fenced(line) then t == CodeItem(line)
    else t == Paragraph(line)
  }

  function Texts(ts: seq<Token>): (r: seq<Token>) {
    if ts == [] then []
    else
      var before, t := Texts(ts[..|ts| - 1]), ts[|ts| - 1];
      if t.OpenList? || t.CloseList? then before else before + [t]
  }

  lemma TokenSays(mode: Mode, before: seq<string>, line: string)
    requires mode.inFence <==> Inside(before)
    ensures Says(LineToken(mode, line), before, line)
  {
    FencedIff(line);
    if IsBullet(line) {
      var k := Text.StripStartIs(line[1..]);
      assert line[1..][k..] == line[k + 1..];
    }
  }

  lemma TextsMaybe(ts: seq<Token>, c: bool, t: Token)
    requires t.OpenList? || t.CloseList?
    ensures Texts(ts + Maybe(c, t)) == Texts(ts)
  {
    if c {
      assert (ts + [t])[..|ts|] == ts;
    } else {
      assert ts + [] == ts;
    }
  }

  /** One more line adds one text. */
  lemma LineTexts(ts: seq<Token>, mode: Mode, line: string)
    ensures Texts(WithLine(ts, mode, line)) == Texts(ts) + [LineToken(mode, line)]
  {
    var bullet, fence, token := IsBullet(line), HasFence(line), LineToken(mode, line);
    var a := ts + Maybe(mode.inList && !bullet, CloseList);
    var b := a + Maybe(Opens(mode, line), OpenList);
    TextsMaybe(ts, mode.inList && !bullet, CloseList);
    TextsMaybe(a, Opens(mode, line), OpenList);
    assert (b + [token])[..|b|] == b;
    TextsMaybe(b + [token], mode.inFence && fence, CloseList);
  }

  ghost predicate AllSaid(ts: seq<Token>, kept: seq<string>) {
    |ts| == |kept| && forall i :: 0 <= i < |kept| ==> Says(ts[i], kept[..i], kept[i])
  }

  lemma AllSaidExtend(ts: seq<Token>, kept: seq<string>, t: Token, line: string)
    requires AllSaid(ts, kept) && Says(t, kept, line)
    ensures AllSaid(ts + [t], kept + [line])
  {
    var all := kept + [line];
    forall i | 0 <= i < |all|
      ensures Says((ts + [t])[i], all[..i], all[i])
    {
      assert all[..i] == kept[..i];
      assert kept[..|kept|] == kept;
    }
  }

  lemma {:induction false} ConvertedSays(lines: seq<string>, clean: Cleaner)
    ensures Converted(lines, clean).0.inFence <==> Inside(Cleaned(lines, clean))
    ensures AllSaid(Texts(Converted(lines, clean).1), Cleaned(lines, clean))
  {
    if lines != [] {
      var init := lines[..|lines| - 1];
      ConvertedSays(init, clean);
      var (mode, ts) := Converted(init, clean);
      var kept, line := Cleaned(init, clean), clean(lines[|lines| - 1], mode.inFence);
      if line.Some? {
        ConvertedMore(mode, ts, kept, line.value);
      }
    }
  }

  lemma ConvertedMore(mode: Mode, ts: seq<Token>, kept: seq<string>, line: string)
    requires (mode.inFence <==> Inside(kept)) && AllSaid(Texts(ts), kept)
    ensures Next(mode, line).inFence <==> Inside(kept + [line])
    ensures AllSaid(Texts(WithLine(ts, mode, line)), kept + [line])
  {
    FencedIff(line);
    assert (kept + [line])[..|kept|] == kept;
    LineTexts(ts, mode, line);
    TokenSays(mode, kept, line);
    AllSaidExtend(Texts(ts), kept, LineToken(mode, line), line);
  }

  /** Every kept line is said once, in order, as what it is. */
  lemma TextsKept(lines: seq<string>, clean: Cleaner)
    ensures AllSaid(Texts(Document(lines, clean)), Cleaned(lines, clean))
  {
    ConvertedSays(lines, clean);
    var (mode, ts) := Converted(lines, clean);
    TextsMaybe(ts, mode.inFence || mode.inList, CloseList);
  }

  // ---- Inside which lists --------------------------------------------------

  /** Where the text of a line stands, relative to what was written before. */
  lemma LineTextDepth(ts: seq<Token>, mode: Mode, line: string) returns (pre: seq<Token>, post: seq<Token>)
    ensures WithLine(ts, mode, line) == pre + [LineToken(mode, line)] + post && ts <= pre
    ensures post == [] || post == [CloseList]
    ensures Depth(pre) == Depth(ts) - Bit(mode.inList) - Bit(mode.inFence) - Bit(OpensTwo(mode, line))
                          + Bit(IsBullet(line)) + Bit(mode.inFence || HasFence(line))
  {
    var a := ts + Maybe(mode.inList && !IsBullet(line), CloseList);
    DepthMaybe(ts, mode.inList && !IsBullet(line), CloseList);
    DepthMaybe(a, Opens(mode, line), OpenList);
    pre, post := a + Maybe(Opens(mode, line), OpenList), Maybe(mode.inFence && HasFence(line), CloseList);
  }

  /**
   The text of a line stands in one list for a bullet and one for a fence, less the strays so far; what
   is written behind it can only close a list.
   */
  lemma TextDepth(before: seq<string>, last: string, clean: Cleaner, line: string)
      returns (pre: seq<Token>, text: Token, post: seq<Token>)
    requires clean(last, Inside(Cleaned(before, clean))) == Some(line)
    ensures Converted(before + [last], clean).1 == pre + [text] + post && Converted(before, clean).1 <= pre
    ensures Says(text, Cleaned(before, clean), line) && (post == [] || post == [CloseList])
    ensures Depth(pre) == Bit(text.Item?) + Bit(Inside(Cleaned(before, clean)) || Fenced(line)) - Strays(before + [last], clean)
  {
    var lines := before + [last];
    assert lines[..|lines| - 1] == before;
    ConvertedSays(before, clean);
    DepthAfter(before, clean);
    var (mode, ts) := Converted(before, clean);
    text := LineToken(mode, line);
    pre, post := LineTextDepth(ts, mode, line);
    TokenSays(mode, Cleaned(before, clean), line);
    FencedIff(line);
  }
}
