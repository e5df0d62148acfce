/**
 The release note converter (script/flatpak/convert-release-notes.py): a line-by-line
 translation in which bullets and fenced code share the `<ul>` tags. The cleaning of a
 line, which drops some, is a parameter.
 */
module ReleaseNotes {
  import opened Prelude
  import Text

  /** The cleaned line, given whether it lies inside a code fence; None when it is dropped. */
  type Cleaner = (string, bool) -> Option<string>

  datatype Token =
    | OpenList | CloseList
    | Item(text: string) | CodeItem(text: string) | Paragraph(text: string)

  function Render(t: Token): (s: string) {
    match t
    case OpenList => "<ul>\n"
    case CloseList => "</ul>\n"
    case Item(text) => "    <li>" + text + "</li>\n"
    case CodeItem(text) => "    <li><code>    " + text + "</code></li>\n"
    case Paragraph(text) => "<p>" + text + "</p>\n"
  }

  datatype Mode = Mode(inList: bool, inFence: bool)

  predicate HasFence(line: string) {
    Text.Find(line, "```").Some?
  }

  predicate IsBullet(line: string) {
    line != "" && line[0] == '-'
  }

  function BulletText(line: string): (s: string)
    requires IsBullet(line)
  {
    Text.StripStart(line[1..])
  }

  function Next(mode: Mode, line: string): (r: Mode) {
    Mode(IsBullet(line), HasFence(line) != mode.inFence)
  }

  function Maybe(c: bool, t: Token): (ts: seq<Token>) {
    if c then [t] else []
  }

  /** A line wants a list opened for its fence or for its bullet. */
  predicate Opens(mode: Mode, line: string) {
    (!mode.inFence && HasFence(line)) || (!mode.inList && IsBullet(line))
  }

  function LineToken(mode: Mode, line: string): (t: Token) {
    if IsBullet(line) then Item(BulletText(line))
    else if mode.inFence || HasFence(line) then CodeItem(line)
    else Paragraph(line)
  }

  /** What has been written after one more line. */
  function WithLine(before: seq<Token>, mode: Mode, line: string): (ts: seq<Token>) {
    before + Maybe(mode.inList && !IsBullet(line), CloseList) + Maybe(Opens(mode, line), OpenList)
    + [LineToken(mode, line)] + Maybe(mode.inFence && HasFence(line), CloseList)
  }

  /** Where the converter stands after the lines, and what it has written. */
  function Converted(lines: seq<string>, clean: Cleaner): (r: (Mode, seq<Token>)) {
    if lines == [] then (Mode(false, false), [])
    else
      var (mode, tokens) := Converted(lines[..|lines| - 1], clean);
      var line := clean(lines[|lines| - 1], mode.inFence);
      if line.None? then (mode, tokens) else (Next(mode, line.value), WithLine(tokens, mode, line.value))
  }

  function Closing(mode: Mode): (ts: seq<Token>) {
    Maybe(mode.inFence || mode.inList, CloseList)
  }

  function Document(lines: seq<string>, clean: Cleaner): (ts: seq<Token>) {
    Converted(lines, clean).1 + Closing(Converted(lines, clean).0)
  }

  lemma RenderMaybe(a: seq<Token>, c: bool, t: Token)
    ensures FlatMap(a + Maybe(c, t), Render) == FlatMap(a, Render) + if c then Render(t) else ""
  {
    if c {
      FlatMapAppend(a, t, Render);
    } else {
      assert a + [] == a;
    }
  }

  /** The element of a line, without the line end. */
  lemma RenderLine(mode: Mode, line: string, text: string)
    requires text == if IsBullet(line) then "    <li>" + BulletText(line) + "</li>"
                     else if mode.inFence || HasFence(line) then "    <li><code>    " + line + "</code></li>"
                     else "<p>" + line + "</p>"
    ensures Render(LineToken(mode, line)) == text + "\n"
  {
    assert "</li>" + "\n" == "</li>\n" && "</code></li>" + "\n" == "</code></li>\n" && "</p>" + "\n" == "</p>\n";
  }

  /** The text one more line adds, written piece by piece. */
  method ConvertLine(formatted: string, mode: Mode, line: string, ghost before: seq<Token>)
      returns (r: string, next: Mode)
    requires formatted == FlatMap(before, Render)
    ensures r == FlatMap(WithLine(before, mode, line), Render)
    ensures next == Next(mode, line)
  {
    r := formatted;
    var fence := HasFence(line);
    var bullet := IsBullet(line);
    ghost var closed := before + Maybe(mode.inList && !bullet, CloseList);
    ghost var listed := closed + Maybe(Opens(mode, line), OpenList);
    ghost var written := listed + [LineToken(mode, line)];
    RenderMaybe(before, mode.inList && !bullet, CloseList);
    RenderMaybe(closed, Opens(mode, line), OpenList);
    FlatMapAppend(listed, LineToken(mode, line), Render);
    RenderMaybe(written, mode.inFence && fence, CloseList);
    if mode.inList && !bullet {
      r := r + "</ul>\n";
    }
    if (!mode.inFence && fence) || (!mode.inList && bullet) {
      r := r + "<ul>\n";
    }
    assert r == FlatMap(listed, Render);
    next := Mode(bullet, fence != mode.inFence);
    var text := line;
    if bullet {
      text := "    <li>" + BulletText(line) + "</li>";
    } else if next.inFence || fence {
      text := "    <li><code>    " + line + "</code></li>";
    } else {
      text := "<p>" + line + "</p>";
    }
    RenderLine(mode, line, text);
    r := r + (text + "\n");
    if !next.inFence && fence {
      r := r + "</ul>\n";
    }
  }

  method ConvertBody(lines: seq<string>, clean: Cleaner) returns (formatted: string)
    ensures formatted == FlatMap(Document(lines, clean), Render)
  {
    formatted := "";
    var mode := Mode(false, false);
    for i := 0 to |lines|
      invariant (mode, formatted) == (Converted(lines[..i], clean).0, FlatMap(Converted(lines[..i], clean).1, Render))
    {
      assert lines[..i + 1][..i] == lines[..i];
      var line := clean(lines[i], mode.inFence);
      if line.None? {
        continue;
      }
      formatted, mode := ConvertLine(formatted, mode, line.value, Converted(lines[..i], clean).1);
    }
    assert lines[..|lines|] == lines;
    RenderMaybe(Converted(lines, clean).1, mode.inFence || mode.inList, CloseList);
    if mode.inFence || mode.inList {
      formatted := formatted + "</ul>\n";
    }
  }

  // ---- Nesting -------------------------------------------------------------------------

  function Bit(b: bool): (n: nat) {
    if b then 1 else 0
  }

  function Delta(t: Token): (d: int) {
    if t == OpenList then 1 else if t == CloseList then -1 else 0
  }

  /** How many lists are open after the tokens. */
  function Depth(ts: seq<Token>): (d: int) {
    if ts == [] then 0 else Depth(ts[..|ts| - 1]) + Delta(ts[|ts| - 1])
  }

  ghost predicate NeverBelowZero(ts: seq<Token>) {
    forall n :: 0 <= n <= |ts| ==> Depth(ts[..n]) >= 0
  }

  /** Every list that is opened is closed, and none is closed that is not open. */
  ghost predicate WellNested(ts: seq<Token>) {
    NeverBelowZero(ts) && Depth(ts) == 0
  }

  /** The line wants two lists opened at once: one for the bullet and one for the fence. */
  predicate OpensTwo(mode: Mode, line: string) {
    !mode.inList && !mode.inFence && IsBullet(line) && HasFence(line)
  }

  /** How many lines want that. */
  function Strays(lines: seq<string>, clean: Cleaner): (k: nat) {
    if lines == [] then 0
    else
      var before := lines[..|lines| - 1];
      var mode := Converted(before, clean).0;
      var line := clean(lines[|lines| - 1], mode.inFence);
      Strays(before, clean) + Bit(line.Some? && OpensTwo(mode, line.value))
  }

  lemma DepthPush(ts: seq<Token>, t: Token)
    ensures Depth(ts + [t]) == Depth(ts) + Delta(t)
  {
    assert (ts + [t])[..|ts|] == ts;
  }

  lemma BelowPush(ts: seq<Token>, t: Token)
    ensures NeverBelowZero(ts + [t]) <==> NeverBelowZero(ts) && Depth(ts + [t]) >= 0
  {
    var all := ts + [t];
    assert all[..|all|] == all;
    assert forall n :: 0 <= n <= |ts| ==> all[..n] == ts[..n];
  }

  /** The depth after one more optional tag. */
  lemma DepthMaybe(ts: seq<Token>, c: bool, t: Token)
    ensures Depth(ts + Maybe(c, t)) == if c then Depth(ts) + Delta(t) else Depth(ts)
    ensures NeverBelowZero(ts + Maybe(c, t)) <==> NeverBelowZero(ts) && Depth(ts + Maybe(c, t)) >= 0
  {
    if c {
      DepthPush(ts, t);
      BelowPush(ts, t);
    } else {
      assert ts + [] == ts && ts[..|ts|] == ts;
    }
  }

  /** What a line does to the depth. */
  lemma LineDepth(before: seq<Token>, mode: Mode, line: string)
    ensures var next := Next(mode, line);
            Depth(WithLine(before, mode, line)) - Depth(before)
            == Bit(next.inList) + Bit(next.inFence) - Bit(mode.inList) - Bit(mode.inFence) - Bit(OpensTwo(mode, line))
    ensures NeverBelowZero(WithLine(before, mode, line)) <==>
              && NeverBelowZero(before) && Depth(before) >= Bit(mode.inList && !IsBullet(line))
              && Depth(WithLine(before, mode, line)) >= 0
  {
    var bullet, fence, token := IsBullet(line), HasFence(line), LineToken(mode, line);
    var a := before + Maybe(mode.inList && !bullet, CloseList);
    var b := a + Maybe(Opens(mode, line), OpenList);
    var c := b + [token];
    DepthMaybe(before, mode.inList && !bullet, CloseList);
    DepthMaybe(a, Opens(mode, line), OpenList);
    DepthMaybe(b, true, token);
    DepthMaybe(c, mode.inFence && fence, CloseList);
    assert WithLine(before, mode, line) == c + Maybe(mode.inFence && fence, CloseList);
    assert Delta(token) == 0;
    assert Depth(a) == Depth(before) - Bit(mode.inList && !bullet);
    assert Depth(b) == Depth(a) + Bit(Opens(mode, line));
    assert Depth(c) == Depth(b);
  }

  /** The depth is always one for the list and one for the fence, less the strays. */
  lemma {:induction false} DepthAfter(lines: seq<string>, clean: Cleaner)
    ensures var (mode, tokens) := Converted(lines, clean);
            Depth(tokens) == Bit(mode.inList) + Bit(mode.inFence) - Strays(lines, clean)
  {
    if lines != [] {
      var before := lines[..|lines| - 1];
      DepthAfter(before, clean);
      var (mode, tokens) := Converted(before, clean);
      var line := clean(lines[|lines| - 1], mode.inFence);
      if line.Some? {
        LineDepth(tokens, mode, line.value);
      }
    }
  }

  /** After a stray, the line closes a list that is not open: it ends the list alone, or leaves list and fence. */
  predicate Underflows(mode: Mode, line: string) {
    (mode == Mode(true, false) && !IsBullet(line)) || Next(mode, line) == Mode(false, false)
  }

  /** Some line after a stray does. */
  predicate Overclosed(lines: seq<string>, clean: Cleaner) {
    lines != [] &&
    var before := lines[..|lines| - 1];
    var mode := Converted(before, clean).0;
    var line := clean(lines[|lines| - 1], mode.inFence);
    Overclosed(before, clean) || (line.Some? && Strays(before, clean) > 0 && Underflows(mode, line.value))
  }

  /** The depth never falls below zero exactly when no line after a stray closes too much. */
  lemma {:induction false} NeverBelowIff(lines: seq<string>, clean: Cleaner)
    ensures NeverBelowZero(Converted(lines, clean).1) <==> !Overclosed(lines, clean)
    ensures !Overclosed(lines, clean) ==> Strays(lines, clean) <= 1
    ensures !Overclosed(lines, clean) && Strays(lines, clean) == 1 ==> Converted(lines, clean).0 != Mode(false, false)
  {
    if lines != [] {
      var before := lines[..|lines| - 1];
      NeverBelowIff(before, clean);
      DepthAfter(before, clean);
      var (mode, tokens) := Converted(before, clean);
      var line := clean(lines[|lines| - 1], mode.inFence);
      if line.Some? {
        LineDepth(tokens, mode, line.value);
      }
    }
  }

  /** The tags balance exactly when the strays equal what a body ending on a bullet inside an open fence lacks. */
  lemma BalancedIff(lines: seq<string>, clean: Cleaner)
    ensures var mode := Converted(lines, clean).0;
            Depth(Document(lines, clean)) == Bit(mode.inList && mode.inFence) - Strays(lines, clean)
  {
    var (mode, tokens) := Converted(lines, clean);
    DepthAfter(lines, clean);
    DepthMaybe(tokens, mode.inFence || mode.inList, CloseList);
  }

  /**
   For every body the lists are well nested exactly when its strays are what its end calls for, one
   when it ends on a bullet inside an open fence and none otherwise, and no line after a stray closes too much.
   */
  lemma WellNestedIff(lines: seq<string>, clean: Cleaner)
    ensures var mode := Converted(lines, clean).0;
            WellNested(Document(lines, clean)) <==>
              Strays(lines, clean) == Bit(mode.inList && mode.inFence) && !Overclosed(lines, clean)
  {
    var (mode, tokens) := Converted(lines, clean);
    NeverBelowIff(lines, clean);
    BalancedIff(lines, clean);
    DepthMaybe(tokens, mode.inFence || mode.inList, CloseList);
  }

  lemma {:induction false} NoStraysNotOverclosed(lines: seq<string>, clean: Cleaner)
    ensures Strays(lines, clean) == 0 ==> !Overclosed(lines, clean)
  {
    if lines != [] {
      NoStraysNotOverclosed(lines[..|lines| - 1], clean);
    }
  }

  /** A body without strays never closes too much; it leaves one list open when it ends on a bullet inside an open fence. */
  lemma WithoutStrays(lines: seq<string>, clean: Cleaner)
    requires Strays(lines, clean) == 0
    ensures var mode := Converted(lines, clean).0;
            && NeverBelowZero(Document(lines, clean))
            && Depth(Document(lines, clean)) == Bit(mode.inList && mode.inFence)
  {
    var (mode, tokens) := Converted(lines, clean);
    NoStraysNotOverclosed(lines, clean);
    NeverBelowIff(lines, clean);
    BalancedIff(lines, clean);
    DepthMaybe(tokens, mode.inFence || mode.inList, CloseList);
  }

  /** Both are real: a line that is bullet and fence at once balances alone, and with a closing fence closes one tag too many. */
  lemma StrayWitness(clean: Cleaner, both: string, fence: string)
    requires IsBullet(both) && HasFence(both) && !IsBullet(fence) && HasFence(fence)
    requires clean(both, false) == Some(both) && clean(fence, true) == Some(fence)
    ensures Strays([both], clean) == 1 && WellNested(Document([both], clean))
    ensures Strays([both, fence], clean) == 1 && Depth(Document([both, fence], clean)) == -1
  {
    var one := [both];
    assert one[..0] == [];
    assert Converted(one, clean).0 == Mode(true, true) && Strays(one, clean) == 1;
    WellNestedIff(one, clean);
    var two := [both, fence];
    assert two[..1] == one;
    assert Converted(two, clean).0 == Mode(false, false);
    BalancedIff(two, clean);
  }
}
