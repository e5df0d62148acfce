/**
 The frontmatter of a SKILL.md file (crates/agent_skills/agent_skills.rs): a scan over
 the bytes for every line that could close it, then the first one the YAML parser
 accepts. The YAML parser is a parameter.
 */
module Frontmatter {
  import opened Prelude
  import opened Utf8
  import Slug

  const LF: Byte := 0x0A
  const CR: Byte := 0x0D
  const DASH: Byte := 0x2D
  const DASHES: seq<Byte> := [DASH, DASH, DASH]
  const MAX_SKILL_FILE_SIZE: nat := 100 * 1024
  const MAX_SKILL_DESCRIPTION_LEN: nat := 1024

  datatype Metadata = Metadata(name: string, description: string, disableModelInvocation: bool)

  /** What the YAML parser makes of a text: its first document, if any, as metadata. */
  datatype Document = NoDocument | Rejected | Parsed(metadata: Metadata)

  datatype Error =
    | FileTooLarge | NoOpener | NoCloser | InvalidYaml
    | InvalidName(reason: Slug.NameError) | BlankDescription | DescriptionTooLong

  // ---- Lines, as a relation on the bytes -------------------------------------------

  /** `bs[start..stop]` is a line, without its line feed. */
  ghost predicate IsLine(bs: seq<Byte>, start: nat, stop: nat) {
    && start <= stop <= |bs|
    && (start == 0 || bs[start - 1] == LF)
    && LF !in bs[start..stop]
    && (stop == |bs| || bs[stop] == LF)
  }

  /** A line after the first that equals `---`, ended by LF, CRLF or the end of the file. */
  ghost predicate ClosingLine(bs: seq<Byte>, start: nat, stop: nat) {
    && start > 0 && IsLine(bs, start, stop)
    && (bs[start..stop] == DASHES || (bs[start..stop] == DASHES + [CR] && stop < |bs|))
  }

  /** The offset behind a line and its line feed. */
  function AfterLine(bs: seq<Byte>, stop: nat): (end: nat) {
    if stop < |bs| then stop + 1 else stop
  }

  /** A closing line ends here. */
  ghost predicate ClosesAt(bs: seq<Byte>, end: nat) {
    exists start: nat, stop: nat :: ClosingLine(bs, start, stop) && end == AfterLine(bs, stop)
  }

  ghost predicate HasCloser(bs: seq<Byte>) {
    exists end: nat :: ClosesAt(bs, end)
  }

  predicate HasOpener(text: string) {
    "---" <= text
  }

  ghost predicate Increasing(ends: seq<nat>) {
    forall i, j :: 0 <= i < j < |ends| ==> ends[i] < ends[j]
  }

  // ---- The scan ----------------------------------------------------------------------

  /** What the scan records on meeting byte `i`. */
  function CandidateAt(bs: seq<Byte>, i: nat): (end: Option<nat>)
    requires i < |bs|
  {
    var lineStart := i + 1;
    var afterDashes := lineStart + 3;
    if bs[i] != LF || afterDashes > |bs| || bs[lineStart..afterDashes] != DASHES then None
    else if afterDashes == |bs| then Some(afterDashes)
    else if bs[afterDashes] == LF then Some(afterDashes + 1)
    else if afterDashes + 1 < |bs| && bs[afterDashes] == CR && bs[afterDashes + 1] == LF then Some(afterDashes + 2)
    else None
  }

  /** The candidates recorded by the first `n` bytes. */
  function Candidates(bs: seq<Byte>, n: nat): (ends: seq<nat>)
    requires n <= |bs|
  {
    if n == 0 then []
    else
      var end := CandidateAt(bs, n - 1);
      Candidates(bs, n - 1) + if end.Some? then [end.value] else []
  }

  method FindCandidates(bs: seq<Byte>) returns (ends: seq<nat>)
    ensures ends == Candidates(bs, |bs|)
  {
    ends := [];
    for i := 0 to |bs|
      invariant ends == Candidates(bs, i)
    {
      if bs[i] != LF {
        continue;
      }
      var lineStart := i + 1;
      if lineStart + 3 > |bs| {
        continue;
      }
      if bs[lineStart..lineStart + 3] != DASHES {
        continue;
      }
      var afterDashes := lineStart + 3;
      var end;
      if afterDashes == |bs| {
        end := afterDashes;
      } else if bs[afterDashes] == LF {
        end := afterDashes + 1;
      } else if afterDashes + 1 < |bs| && bs[afterDashes] == CR && bs[afterDashes + 1] == LF {
        end := afterDashes + 2;
      } else {
        continue;
      }
      ends := ends + [end];
    }
  }

  /** The line that starts behind byte `i`. */
  lemma CandidateIsLine(bs: seq<Byte>, i: nat) returns (stop: nat)
    requires i < |bs| && CandidateAt(bs, i).Some?
    ensures ClosingLine(bs, i + 1, stop) && CandidateAt(bs, i) == Some(AfterLine(bs, stop))
    ensures i + 4 <= AfterLine(bs, stop) <= |bs|
  {
    var start, dashes := i + 1, i + 4;
    if dashes == |bs| || bs[dashes] == LF {
      stop := dashes;
    } else {
      stop := dashes + 1;
      assert bs[start..stop] == bs[start..dashes] + [CR];
    }
  }

  lemma LineIsCandidate(bs: seq<Byte>, start: nat, stop: nat)
    requires ClosingLine(bs, start, stop)
    ensures CandidateAt(bs, start - 1) == Some(AfterLine(bs, stop))
  {
    var line := bs[start..stop];
    assert line[..3] == DASHES;
    assert bs[start..start + 3] == line[..3];
    if stop == start + 4 {
      assert line[3] == CR;
    }
  }

  /** A line that starts earlier also ends before the next one starts. */
  lemma LinesApart(bs: seq<Byte>, start: nat, stop: nat, next: nat)
    requires IsLine(bs, start, stop) && start < next <= |bs| && bs[next - 1] == LF
    ensures stop < next && AfterLine(bs, stop) <= next
  {
    forall k | start <= k < stop
      ensures bs[k] != LF
    {
      assert bs[start..stop][k - start] in bs[start..stop];
    }
  }

  lemma IncreasingAppend(ends: seq<nat>, end: nat)
    requires Increasing(ends) && forall e :: e in ends ==> e < end
    ensures Increasing(ends + [end])
  {
    assert forall i :: 0 <= i < |ends| ==> (ends + [end])[i] == ends[i] && ends[i] in ends;
  }

  lemma {:induction false} CandidatesBelow(bs: seq<Byte>, n: nat)
    requires n <= |bs|
    ensures forall end: nat :: end in Candidates(bs, n) <==>
              exists start: nat, stop: nat :: start <= n && ClosingLine(bs, start, stop) && end == AfterLine(bs, stop)
    ensures Increasing(Candidates(bs, n))
  {
    if n > 0 {
      CandidatesBelow(bs, n - 1);
      var before, here := Candidates(bs, n - 1), CandidateAt(bs, n - 1);
      if here.Some? {
        var stop := CandidateIsLine(bs, n - 1);
        assert ClosingLine(bs, n, stop);
        forall end | end in before
          ensures end < here.value
        {
          var start: nat, stop: nat :| start <= n - 1 && ClosingLine(bs, start, stop) && end == AfterLine(bs, stop);
          LinesApart(bs, start, stop, n);
        }
        IncreasingAppend(before, here.value);
      }
      forall start: nat, stop: nat | start == n && ClosingLine(bs, start, stop)
        ensures here == Some(AfterLine(bs, stop))
      {
        LineIsCandidate(bs, start, stop);
      }
    }
  }

  /** The scan yields, in increasing order, exactly the ends of the closing lines. */
  lemma CandidatesExact(bs: seq<Byte>)
    ensures forall end: nat :: end in Candidates(bs, |bs|) <==> ClosesAt(bs, end)
    ensures Increasing(Candidates(bs, |bs|))
  {
    CandidatesBelow(bs, |bs|);
  }

  /** Every candidate falls between two characters, so the text can be cut there. */
  lemma CandidateIsBoundary(text: string, end: nat)
    requires ClosesAt(Encode(text), end)
    ensures 0 < end <= |Encode(text)| && IsBoundary(text, end)
  {
    var bs := Encode(text);
    var start: nat, stop: nat :| ClosingLine(bs, start, stop) && end == AfterLine(bs, stop);
    if stop == |bs| {
      assert bs[start..stop][2] == DASH;
    }
    AfterAscii(text, end);
  }

  // ---- The first accepted candidate ----------------------------------------------------

  /** `&text[..end]`. */
  function Prefix(text: string, end: nat): (s: string) {
    text[..CharIndex(text, end)]
  }

  /** `&text[end..]`. */
  function Body(text: string, end: nat): (s: string) {
    text[CharIndex(text, end)..]
  }

  function FirstAccepted(text: string, ends: seq<nat>, yaml: string -> Document): (r: Result<(Metadata, string), Error>) {
    if ends == [] then Err(InvalidYaml)
    else
      var doc := yaml(Prefix(text, ends[0]));
      if doc.Parsed? then Ok((doc.metadata, Body(text, ends[0]))) else FirstAccepted(text, ends[1..], yaml)
  }

  predicate IsWhitespace(c: char) {
    || '\t' <= c <= '\r' || c == ' ' || c == '\U{85}' || c == '\U{a0}' || c == '\U{1680}'
    || '\U{2000}' <= c <= '\U{200a}' || c == '\U{2028}' || c == '\U{2029}' || c == '\U{202f}'
    || c == '\U{205f}' || c == '\U{3000}'
  }

  function TrimStart(s: string): (r: string) {
    if s != "" && IsWhitespace(s[0]) then TrimStart(s[1..]) else s
  }

  function Extract(content: string, yaml: string -> Document): (r: Result<(Metadata, string), Error>) {
    var text := TrimStart(content);
    if !HasOpener(text) then Err(NoOpener)
    else
      var ends := Candidates(Encode(text), |Encode(text)|);
      if ends == [] then Err(NoCloser) else FirstAccepted(text, ends, yaml)
  }

  method ExtractFrontmatter(content: string, yaml: string -> Document) returns (r: Result<(Metadata, string), Error>)
    ensures r == Extract(content, yaml)
  {
    var text := TrimStart(content);
    if !HasOpener(text) {
      return Err(NoOpener);
    }
    var ends := FindCandidates(Encode(text));
    if ends == [] {
      return Err(NoCloser);
    }
    for i := 0 to |ends|
      invariant Extract(content, yaml) == FirstAccepted(text, ends[i..], yaml)
    {
      var doc := yaml(Prefix(text, ends[i]));
      if doc.NoDocument? {
        continue;
      }
      if doc.Parsed? {
        return Ok((doc.metadata, Body(text, ends[i])));
      }
    }
    r := Err(InvalidYaml);
  }

  /** All the white space in front. */
  ghost predicate LeadingSpace(content: string, k: nat) {
    && k <= |content| && (forall i :: 0 <= i < k ==> IsWhitespace(content[i]))
    && (k < |content| ==> !IsWhitespace(content[k]))
  }

  lemma {:induction false} TrimStartIs(content: string) returns (k: nat)
    ensures LeadingSpace(content, k) && TrimStart(content) == content[k..]
  {
    k := 0;
    if content != "" && IsWhitespace(content[0]) {
      k := TrimStartIs(content[1..]);
      k := k + 1;
    }
  }

  /** Among the ASCII characters these are space. */
  lemma AsciiSpace(c: char)
    requires c < '\U{80}'
    ensures IsWhitespace(c) <==> c in "\t\n\r " || c == '\U{b}' || c == '\U{c}'
  {
    assert "\t\n\r "[0] == '\t' && "\t\n\r "[1] == '\n' && "\t\n\r "[2] == '\r' && "\t\n\r "[3] == ' ';
  }

  /** The bytes that delimit the frontmatter. */
  lemma DelimiterBytes()
    ensures DASHES == Encode("---") && [LF] == Encode("\n") && [CR] == Encode("\r")
  {
    assert "---"[1..] == "--" && "--"[1..] == "-" && "-"[1..] == "";
    assert Encode("-") == [DASH] && Encode("--") == [DASH, DASH];
    assert "\n"[1..] == "" && "\r"[1..] == "";
  }

  /** The YAML parser takes the text up to this offset as metadata. */
  predicate Accepts(text: string, end: nat, yaml: string -> Document) {
    yaml(Prefix(text, end)).Parsed?
  }

  lemma {:induction false} FirstAcceptedFacts(text: string, ends: seq<nat>, yaml: string -> Document)
    requires Increasing(ends)
    ensures var r := FirstAccepted(text, ends, yaml);
            if r.Ok? then
              exists end :: end in ends && yaml(Prefix(text, end)) == Parsed(r.value.0) && r.value.1 == Body(text, end)
                            && forall e :: e in ends && e < end ==> !Accepts(text, e, yaml)
            else
              r == Err(InvalidYaml) && forall e :: e in ends ==> !Accepts(text, e, yaml)
  {
    if ends != [] {
      assert ends == [ends[0]] + ends[1..];
      if Accepts(text, ends[0], yaml) {
        assert ends[0] in ends;
      } else {
        FirstAcceptedFacts(text, ends[1..], yaml);
        assert forall e :: e in ends <==> e == ends[0] || e in ends[1..];
      }
    }
  }

  /** The file is cut at this offset: everything up to it is frontmatter, everything after it the body. */
  ghost predicate SplitAt(text: string, end: nat, body: string) {
    && Prefix(text, end) + body == text
    && Encode(Prefix(text, end)) + Encode(body) == Encode(text)
    && |Encode(Prefix(text, end))| == end
  }

  /**
   Success means that the trimmed content is cut exactly at the end of the first closing
   line whose prefix the YAML parser accepts, every earlier one having been refused.
   */
  lemma ExtractOk(content: string, yaml: string -> Document)
    requires Extract(content, yaml).Ok?
    ensures var (metadata, body) := Extract(content, yaml).value;
            var text := TrimStart(content);
            && HasOpener(text)
            && exists end: nat ::
                 && ClosesAt(Encode(text), end) && SplitAt(text, end, body)
                 && yaml(Prefix(text, end)) == Parsed(metadata)
                 && forall e: nat :: ClosesAt(Encode(text), e) && e < end ==> !Accepts(text, e, yaml)
  {
    var text := TrimStart(content);
    var ends := Candidates(Encode(text), |Encode(text)|);
    CandidatesExact(Encode(text));
    FirstAcceptedFacts(text, ends, yaml);
    var (metadata, body) := Extract(content, yaml).value;
    var end :| end in ends && yaml(Prefix(text, end)) == Parsed(metadata) && body == Body(text, end)
      && forall e :: e in ends && e < end ==> !Accepts(text, e, yaml);
    CandidateIsBoundary(text, end);
    SplitsThere(text, end);
  }

  /**
   A file that is extracted consists of white space, the frontmatter, which begins with three dashes, and
   the body.
   */
  lemma FileIsCut(content: string, yaml: string -> Document) returns (k: nat, end: nat)
    requires Extract(content, yaml).Ok?
    ensures LeadingSpace(content, k) && "---" <= content[k..]
    ensures var (metadata, body) := Extract(content, yaml).value;
            && content == content[..k] + Prefix(content[k..], end) + body
            && yaml(Prefix(content[k..], end)) == Parsed(metadata) && ClosesAt(Encode(content[k..]), end)
  {
    k := TrimStartIs(content);
    ExtractOk(content, yaml);
    var text := content[k..];
    var (metadata, body) := Extract(content, yaml).value;
    end :| ClosesAt(Encode(text), end) && SplitAt(text, end, body) && yaml(Prefix(text, end)) == Parsed(metadata);
    Rejoin(content, k, Prefix(text, end), body);
  }

  lemma Rejoin(content: string, k: nat, front: string, body: string)
    requires k <= |content| && front + body == content[k..]
    ensures content == content[..k] + front + body
  {
    assert content == content[..k] + (front + body);
  }

  lemma SplitsThere(text: string, end: nat)
    requires IsBoundary(text, end)
    ensures SplitAt(text, end, Body(text, end))
  {
    var p: nat :| p <= |text| && |Encode(text[..p])| == end;
    BoundaryIndex(text, end, p);
    assert Encode(text) == Encode(text)[..end] + Encode(text)[end..];
  }

  lemma {:induction false} RefusalError(text: string, ends: seq<nat>, yaml: string -> Document)
    ensures FirstAccepted(text, ends, yaml).Err? ==> FirstAccepted(text, ends, yaml) == Err(InvalidYaml)
  {
    if ends != [] {
      RefusalError(text, ends[1..], yaml);
    }
  }

  lemma NoCandidatesIff(bs: seq<Byte>)
    ensures Candidates(bs, |bs|) == [] <==> !HasCloser(bs)
  {
    var ends := Candidates(bs, |bs|);
    CandidatesExact(bs);
    if ends != [] {
      assert ends[0] in ends && ClosesAt(bs, ends[0]);
    }
  }

  /** Exactly when there is nothing to parse. */
  lemma ExtractUndelimited(content: string, yaml: string -> Document)
    ensures var text := TrimStart(content);
            && (Extract(content, yaml) == Err(NoOpener) <==> !HasOpener(text))
            && (Extract(content, yaml) == Err(NoCloser) <==>
                  HasOpener(text) && !HasCloser(Encode(text)))
  {
    var bs := Encode(TrimStart(content));
    NoCandidatesIff(bs);
    RefusalError(TrimStart(content), Candidates(bs, |bs|), yaml);
  }

  /** Any other failure means that there are closing lines and the YAML parser refuses every one. */
  lemma ExtractInvalid(content: string, yaml: string -> Document)
    ensures var text := TrimStart(content);
            var r := Extract(content, yaml);
            r.Err? && r.error !in [NoOpener, NoCloser] <==>
              && HasOpener(text) && HasCloser(Encode(text))
              && forall e: nat :: ClosesAt(Encode(text), e) ==> !Accepts(text, e, yaml)
    ensures Extract(content, yaml).Err? ==> Extract(content, yaml).error in [NoOpener, NoCloser, InvalidYaml]
  {
    var text := TrimStart(content);
    var bs := Encode(text);
    CandidatesExact(bs);
    NoCandidatesIff(bs);
    FirstAcceptedFacts(text, Candidates(bs, |bs|), yaml);
  }

  /** A carriage return at the very end of the file does not end a closing line. */
  lemma DashesCrAtEofIsNoCloser(head: seq<Byte>)
    requires LF !in head
    ensures forall end: nat :: !ClosesAt(head + [LF] + DASHES + [CR], end)
  {
    var bs := head + [LF] + DASHES + [CR];
    forall start: nat, stop: nat | start > 0 && IsLine(bs, start, stop)
      ensures !ClosingLine(bs, start, stop)
    {
      assert bs[start - 1] == LF;
      assert start == |head| + 1;
      assert forall k :: start <= k < |bs| ==> bs[k] != LF;
      assert bs[start..stop] == DASHES + [CR];
    }
  }

  // ---- Strict and lenient parsing --------------------------------------------------------

  datatype Warning = TooLong(actual: nat, max: nat)

  predicate Blank(s: string) {
    forall c :: c in s ==> IsWhitespace(c)
  }

  function ExtractSkill(content: string, yaml: string -> Document): (r: Result<(Metadata, string), Error>) {
    if |Encode(content)| > MAX_SKILL_FILE_SIZE then Err(FileTooLarge) else Extract(content, yaml)
  }

  function ParseStrict(content: string, yaml: string -> Document): (r: Result<(Metadata, string), Error>) {
    var (metadata, body) :- ExtractSkill(content, yaml);
    var name := Slug.ValidateName(metadata.name);
    if name.Err? then Err(InvalidName(name.error))
    else if Blank(metadata.description) then Err(BlankDescription)
    else if |metadata.description| > MAX_SKILL_DESCRIPTION_LEN then Err(DescriptionTooLong)
    else Ok((metadata, body))
  }

  function ParseForLoading(content: string, yaml: string -> Document): (r: Result<(Metadata, string, seq<Warning>), Error>) {
    var (metadata, body) :- ExtractSkill(content, yaml);
    var name := Slug.ValidateName(metadata.name);
    if name.Err? then Err(InvalidName(name.error))
    else if Blank(metadata.description) then Err(BlankDescription)
    else
      var length := |metadata.description|;
      Ok((metadata, body, if length > MAX_SKILL_DESCRIPTION_LEN then [TooLong(length, MAX_SKILL_DESCRIPTION_LEN)] else []))
  }

  /**
   The strict parser accepts exactly what the loader accepts without a warning, with the
   same result, and they fail alike except on a description that is only too long.
   */
  lemma StrictIsLenientWithoutWarnings(content: string, yaml: string -> Document, m: Metadata, body: string)
    ensures ParseStrict(content, yaml) == Ok((m, body)) <==> ParseForLoading(content, yaml) == Ok((m, body, []))
    ensures ParseStrict(content, yaml).Err? && ParseStrict(content, yaml) != Err(DescriptionTooLong)
            <==> ParseForLoading(content, yaml).Err?
    ensures ParseForLoading(content, yaml).Err? ==> ParseForLoading(content, yaml).error == ParseStrict(content, yaml).error
    ensures ParseForLoading(content, yaml).Ok? ==>
              var (metadata, _, warnings) := ParseForLoading(content, yaml).value;
              warnings == if ParseStrict(content, yaml).Ok? then [] else [TooLong(|metadata.description|, 1024)]
  {
    ExtractInvalid(content, yaml);
  }

  /**
   Up to 100 kilobytes, the strict parser accepts what has frontmatter with a valid name and a
   description that is neither blank nor longer than 1024 characters.
   */
  lemma StrictIff(content: string, yaml: string -> Document, m: Metadata, body: string)
    ensures ParseStrict(content, yaml) == Ok((m, body)) <==>
              && |Encode(content)| <= 102400 && Extract(content, yaml) == Ok((m, body))
              && Slug.ValidateName(m.name).Ok? && |m.description| <= 1024
              && exists i :: 0 <= i < |m.description| && !IsWhitespace(m.description[i])
    ensures ParseStrict(content, yaml) == Err(FileTooLarge) <==> |Encode(content)| > 102400
  {
    ExtractInvalid(content, yaml);
    BlankIff(m.description);
    var r := Extract(content, yaml);
    if r.Ok? {
      assert r.value == (r.value.0, r.value.1);
    }
    assert ParseStrict(content, yaml).Ok? ==> ParseStrict(content, yaml) == r;
  }

  lemma BlankIff(s: string)
    ensures Blank(s) <==> forall i :: 0 <= i < |s| ==> IsWhitespace(s[i])
  {
    if forall i :: 0 <= i < |s| ==> IsWhitespace(s[i]) {
      forall c | c in s
        ensures IsWhitespace(c)
      {
        var i :| 0 <= i < |s| && s[i] == c;
      }
    } else {
      var i :| 0 <= i < |s| && !IsWhitespace(s[i]);
      assert s[i] in s;
    }
  }
}
