/**
 Skill names (crates/agent_skills/agent_skills.rs): the one-pass slugifier against
 its documented transformation, and the rules a name has to meet.
 */
module Slug {
  import opened Prelude
  import Utf8

  const MAX_SKILL_NAME_LEN: nat := 64

  predicate IsLower(c: char) {
    'a' <= c <= 'z'
  }

  predicate IsUpper(c: char) {
    'A' <= c <= 'Z'
  }

  predicate IsDigit(c: char) {
    '0' <= c <= '9'
  }

  predicate IsAlphanumeric(c: char) {
    IsLower(c) || IsUpper(c) || IsDigit(c)
  }

  function Lower(c: char): (r: char) {
    if IsUpper(c) then 'a' + (c - 'A') else c
  }

  // ---- The documented transformation -------------------------------------------

  /** Step 1. */
  function WithAnd(c: char): (r: string) {
    if c == '&' then "-and-" else [c]
  }

  /** Steps 2 to 4: lower case, spaces to hyphens, everything else dropped. */
  function Kept(c: char): (r: string) {
    if IsAlphanumeric(c) then [Lower(c)]
    else if c == ' ' || c == '-' then "-"
    else ""
  }

  /** Step 5: every run of hyphens becomes one. */
  function Collapse(s: string): (r: string) {
    if s == "" then ""
    else if |s| > 1 && s[0] == '-' && s[1] == '-' then Collapse(s[1..])
    else [s[0]] + Collapse(s[1..])
  }

  function TrimStart(s: string): (r: string) {
    if s != "" && s[0] == '-' then TrimStart(s[1..]) else s
  }

  function TrimEnd(s: string): (r: string) {
    if s != "" && s[|s| - 1] == '-' then TrimEnd(s[..|s| - 1]) else s
  }

  /** Step 7. */
  function Truncate(s: string): (r: string) {
    if |s| > MAX_SKILL_NAME_LEN then s[..MAX_SKILL_NAME_LEN] else s
  }

  function Mapped(input: string): (r: string) {
    FlatMap(FlatMap(input, WithAnd), Kept)
  }

  /** All seven steps, one after the other. */
  function Composed(input: string): (r: string) {
    TrimEnd(Truncate(TrimEnd(TrimStart(Collapse(Mapped(input))))))
  }

  // ---- The one-pass form -----------------------------------------------------------

  predicate EndsInDash(s: string) {
    s != "" && s[|s| - 1] == '-'
  }

  lemma {:induction false} CollapseAppend(s: string, c: char)
    ensures Collapse(s + [c]) == if c == '-' && EndsInDash(s) then Collapse(s) else Collapse(s) + [c]
  {
    if s == "" {
      assert s + [c] == [c];
      assert [c][1..] == "";
    } else {
      CollapseAppend(s[1..], c);
      assert (s + [c])[1..] == s[1..] + [c];
      if |s| == 1 {
        assert s[1..] == "" && Collapse(s) == [s[0]];
      }
    }
  }

  lemma {:induction false} CollapseEnds(s: string)
    ensures EndsInDash(Collapse(s)) <==> EndsInDash(s)
    ensures Collapse(s) == "" <==> s == ""
  {
    if s != "" {
      CollapseEnds(s[1..]);
    }
  }

  lemma {:induction false} TrimStartAppend(s: string, c: char)
    ensures TrimStart(s + [c])
            == if TrimStart(s) != "" then TrimStart(s) + [c] else if c == '-' then "" else [c]
  {
    if s == "" {
      assert s + [c] == [c];
      assert [c][1..] == "";
    } else {
      TrimStartAppend(s[1..], c);
      assert (s + [c])[1..] == s[1..] + [c];
    }
  }

  lemma {:induction false} TrimStartEnds(s: string)
    ensures TrimStart(s) != "" ==> TrimStart(s)[0] != '-'
    ensures TrimStart(s) != "" ==> s != "" && TrimStart(s)[|TrimStart(s)| - 1] == s[|s| - 1]
  {
    if s != "" && s[0] == '-' {
      TrimStartEnds(s[1..]);
    }
  }

  /** One more kept character, after collapsing and trimming the front. */
  lemma PushChar(s: string, c: char)
    ensures var slug := TrimStart(Collapse(s));
            TrimStart(Collapse(s + [c])) == if c == '-' && (slug == "" || EndsInDash(slug)) then slug else slug + [c]
  {
    var slug := TrimStart(Collapse(s));
    CollapseAppend(s, c);
    CollapseEnds(s);
    TrimStartAppend(Collapse(s), c);
    TrimStartEnds(Collapse(s));
  }

  /** The kept characters of the first `i`, collapsed and trimmed at the front. */
  function Pushed(input: string, i: nat): (slug: string)
    requires i <= |input|
  {
    TrimStart(Collapse(FlatMap(input[..i], Kept)))
  }

  /** One more character of the input. */
  lemma PushNext(input: string, i: nat)
    requires i < |input|
    ensures var slug := Pushed(input, i);
            Pushed(input, i + 1)
            == if Kept(input[i]) == "" || (Kept(input[i]) == "-" && (slug == "" || EndsInDash(slug))) then slug
               else slug + Kept(input[i])
  {
    var before := FlatMap(input[..i], Kept);
    FlatMapAppend(input[..i], input[i], Kept);
    assert input[..i + 1] == input[..i] + [input[i]];
    if Kept(input[i]) == "" {
      assert before + "" == before;
    } else {
      PushChar(before, Kept(input[i])[0]);
    }
  }

  /** The loop of the slugifier, without the truncation. */
  method CollapseAndTrim(input: string) returns (slug: string)
    ensures slug == TrimEnd(TrimStart(Collapse(FlatMap(input, Kept))))
  {
    slug := "";
    var lastWasDash := true;
    for i := 0 to |input|
      invariant slug == Pushed(input, i)
      invariant lastWasDash == (slug == "" || EndsInDash(slug))
    {
      var ch := input[i];
      PushNext(input, i);
      var mapped: Option<char>;
      if IsAlphanumeric(ch) {
        mapped := Some(Lower(ch));
      } else if ch == ' ' || ch == '-' {
        mapped := Some('-');
      } else {
        mapped := None;
      }
      if mapped.None? {
        continue;
      }
      if mapped.value == '-' {
        if lastWasDash {
          continue;
        }
        lastWasDash := true;
      } else {
        lastWasDash := false;
      }
      slug := slug + [mapped.value];
    }
    assert input[..|input|] == input;
    TrimsOnce(FlatMap(input, Kept));
    if EndsInDash(slug) {
      slug := slug[..|slug| - 1];
    }
  }

  method SlugifySkillName(input: string) returns (r: Option<string>)
    ensures r == if Composed(input) == "" then None else Some(Composed(input))
  {
    var slug := CollapseAndTrim(FlatMap(input, WithAnd));
    TrimEndFacts(slug);
    if |slug| > MAX_SKILL_NAME_LEN {
      slug := slug[..MAX_SKILL_NAME_LEN];
      while EndsInDash(slug)
        invariant TrimEnd(slug) == Composed(input)
        decreases |slug|
      {
        slug := slug[..|slug| - 1];
      }
    } else {
      TrimmedTwice(TrimStart(Collapse(Mapped(input))));
    }
    r := if slug == "" then None else Some(slug);
  }

  // ---- What the steps keep -----------------------------------------------------------

  ghost predicate NoDoubleHyphen(s: string) {
    forall i :: 0 <= i && i + 1 < |s| ==> !(s[i] == '-' && s[i + 1] == '-')
  }

  predicate NameChar(c: char) {
    IsLower(c) || IsDigit(c) || c == '-'
  }

  ghost predicate NameChars(s: string) {
    forall c :: c in s ==> NameChar(c)
  }

  lemma {:induction false} CollapseFacts(s: string)
    ensures NoDoubleHyphen(Collapse(s))
    ensures s != "" ==> Collapse(s) != "" && Collapse(s)[0] == s[0]
    ensures forall c :: c in Collapse(s) <==> c in s
  {
    if s != "" {
      CollapseFacts(s[1..]);
    }
  }

  lemma {:induction false} TrimStartFacts(s: string)
    ensures forall c :: c in TrimStart(s) ==> c in s
    ensures NoDoubleHyphen(s) ==> NoDoubleHyphen(TrimStart(s))
    ensures TrimStart(s) == "" <==> forall c :: c in s ==> c == '-'
  {
    if s != "" && s[0] == '-' {
      TrimStartFacts(s[1..]);
      assert forall c :: c in s <==> c == s[0] || c in s[1..];
    } else if s != "" {
      assert s[0] in s;
    }
  }

  lemma {:induction false} TrimEndFacts(s: string)
    ensures TrimEnd(s) <= s && !EndsInDash(TrimEnd(s))
    ensures s != "" && s[0] != '-' ==> TrimEnd(s) != ""
  {
    if EndsInDash(s) {
      TrimEndFacts(s[..|s| - 1]);
    }
  }

  lemma TrimmedTwice(s: string)
    ensures TrimEnd(TrimEnd(s)) == TrimEnd(s)
  {
    TrimEndFacts(s);
  }

  /** Without double hyphens there is at most one hyphen to trim at the end. */
  lemma TrimsOnce(s: string)
    ensures var t := TrimStart(Collapse(s));
            TrimEnd(t) == if EndsInDash(t) then t[..|t| - 1] else t
  {
    CollapseFacts(s);
    TrimStartFacts(Collapse(s));
    var t := TrimStart(Collapse(s));
    if EndsInDash(t) {
      assert !EndsInDash(t[..|t| - 1]);
    }
  }

  /** Some character of the text meets the condition. */
  ghost predicate AnyChar(s: string, p: char -> bool) {
    exists c :: c in s && p(c)
  }

  predicate NotHyphen(c: char) {
    c != '-'
  }

  predicate AlphanumericOrAnd(c: char) {
    IsAlphanumeric(c) || c == '&'
  }

  lemma SomeOne(c: char, p: char -> bool)
    ensures AnyChar([c], p) <==> p(c)
  {
    assert c in [c];
  }

  lemma {:induction false} KeptChars(s: string)
    ensures NameChars(FlatMap(s, Kept))
    ensures AnyChar(FlatMap(s, Kept), NotHyphen) <==> AnyChar(s, IsAlphanumeric)
  {
    if s != "" {
      KeptChars(s[1..]);
      SomeOne(s[0], IsAlphanumeric);
      SomeOne(Lower(s[0]), NotHyphen);
      assert s == [s[0]] + s[1..];
    }
  }

  lemma {:induction false} AndChars(s: string)
    ensures AnyChar(FlatMap(s, WithAnd), IsAlphanumeric) <==> AnyChar(s, AlphanumericOrAnd)
  {
    if s != "" {
      AndChars(s[1..]);
      var head := WithAnd(s[0]);
      SomeOne(s[0], AlphanumericOrAnd);
      SomeOne(s[0], IsAlphanumeric);
      assert s == [s[0]] + s[1..];
      if s[0] == '&' {
        assert head[1] == 'a' && 'a' in head && IsAlphanumeric('a');
      }
    }
  }

  // ---- Names ---------------------------------------------------------------------------

  datatype NameError = Empty | TooLong | HyphenAtEdge | InvalidCharacter

  /** The length limit is in bytes. */
  function ValidateName(name: string): (r: Result<(), NameError>) {
    if name == "" then Err(Empty)
    else if |Utf8.Encode(name)| > MAX_SKILL_NAME_LEN then Err(TooLong)
    else if name[0] == '-' || name[|name| - 1] == '-' then Err(HyphenAtEdge)
    else if exists c :: c in name && !NameChar(c) then Err(InvalidCharacter)
    else Ok(())
  }

  /** A valid name without double hyphens. */
  ghost predicate SlugName(s: string) {
    ValidateName(s).Ok? && NoDoubleHyphen(s)
  }

  lemma {:induction false} AsciiBytes(s: string)
    requires NameChars(s)
    ensures |Utf8.Encode(s)| == |s|
  {
    if s != "" {
      assert s[0] in s;
      AsciiBytes(s[1..]);
    }
  }

  lemma ComposedFacts(input: string)
    ensures var s := Composed(input);
            NameChars(s) && NoDoubleHyphen(s) && |s| <= MAX_SKILL_NAME_LEN && !EndsInDash(s)
    ensures var s := Composed(input); s != "" ==> s[0] != '-'
    ensures Composed(input) == "" <==> TrimStart(Collapse(Mapped(input))) == ""
  {
    var m := Mapped(input);
    KeptChars(FlatMap(input, WithAnd));
    CollapseFacts(m);
    TrimStartFacts(Collapse(m));
    TrimStartEnds(Collapse(m));
    var t := TrimStart(Collapse(m));
    TrimEndFacts(t);
    TrimEndFacts(Truncate(TrimEnd(t)));
    assert Composed(input) <= Truncate(TrimEnd(t)) <= t;
  }

  /** Every slug is a valid name without double hyphens. */
  lemma SlugIsValid(input: string)
    requires Composed(input) != ""
    ensures SlugName(Composed(input))
  {
    ComposedFacts(input);
    AsciiBytes(Composed(input));
  }

  /** There is no slug exactly when the input has no ASCII alphanumeric and no `&`. */
  lemma NoSlugIff(input: string)
    ensures Composed(input) == "" <==> forall c :: c in input ==> !IsAlphanumeric(c) && c != '&'
  {
    ComposedFacts(input);
    CollapseFacts(Mapped(input));
    TrimStartFacts(Collapse(Mapped(input)));
    KeptChars(FlatMap(input, WithAnd));
    AndChars(input);
    assert AnyChar(Collapse(Mapped(input)), NotHyphen) <==> AnyChar(Mapped(input), NotHyphen);
    assert AnyChar(input, AlphanumericOrAnd) <==> exists c :: c in input && (IsAlphanumeric(c) || c == '&');
  }

  lemma {:induction false} NameUnchanged(s: string)
    requires NameChars(s)
    ensures FlatMap(s, WithAnd) == s && FlatMap(s, Kept) == s
    ensures NoDoubleHyphen(s) ==> Collapse(s) == s
  {
    if s != "" {
      assert s[0] in s;
      NameUnchanged(s[1..]);
      assert [s[0]] + s[1..] == s;
    }
  }

  lemma NameIsFixed(s: string)
    requires SlugName(s)
    ensures Composed(s) == s
  {
    assert NameChars(s);
    AsciiBytes(s);
    NameUnchanged(s);
    assert TrimStart(s) == s && TrimEnd(s) == s && Truncate(s) == s;
  }

  /**
   The slugifier's fixed points are exactly the valid names without double hyphens;
   with `SlugIsValid` this makes it idempotent.
   */
  lemma FixedPointIff(s: string)
    ensures s != "" && Composed(s) == s <==> SlugName(s)
  {
    if s != "" && Composed(s) == s {
      SlugIsValid(s);
    }
    if SlugName(s) {
      NameIsFixed(s);
    }
  }

  lemma Idempotent(input: string)
    ensures Composed(Composed(input)) == Composed(input)
  {
    if Composed(input) == "" {
      assert Mapped("") == "";
    } else {
      SlugIsValid(input);
      FixedPointIff(Composed(input));
    }
  }
}
