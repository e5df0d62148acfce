/**
 What a slug says (crates/agent_skills/agent_skills.rs:447-487), described from the text alone: its
 words, in small letters, joined by hyphens and cut to 64 characters.
 */
module SlugWords {
  import opened Prelude
  import opened Slug
  import Utf8

  // ---- Words ---------------------------------------------------------------

  const CAPITALS := "ABCDEFGHIJKLMNOPQRSTUVWXYZ"
  const SMALL := "abcdefghijklmnopqrstuvwxyz"
  const DIGITS := "0123456789"

  /** How a character is written inside a word: as a small letter or a digit, or not at all. */
  ghost function Written(c: char): (r: string) {
    if exists i :: 0 <= i < 26 && CAPITALS[i] == c then
      var i :| 0 <= i < 26 && CAPITALS[i] == c;
      [SMALL[i]]
    else if c in SMALL || c in DIGITS then [c]
    else ""
  }

  /** The words that are complete, and the word being read. */
  datatype Reading = Reading(words: seq<string>, word: string) {
    function Break(): (r: Reading) {
      if word == "" then this else Reading(words + [word], "")
    }
  }

  /** Blanks and hyphens end a word, `&` is a word of its own, and other characters are passed over. */
  ghost function Take(r: Reading, c: char): (q: Reading) {
    if c == ' ' || c == '-' then r.Break()
    else if c == '&' then Reading(r.Break().words + ["and"], "")
    else r.(word := r.word + Written(c))
  }

  ghost function Read(input: string): (r: Reading) {
    if input == "" then Reading([], "") else Take(Read(input[..|input| - 1]), input[|input| - 1])
  }

  ghost function Words(input: string): (words: seq<string>) {
    Read(input).Break().words
  }

  function Hyphenated(words: seq<string>): (s: string) {
    if words == [] then ""
    else if |words| == 1 then words[0]
    else Hyphenated(words[..|words| - 1]) + "-" + words[|words| - 1]
  }

  /** At most 64 characters, and no hyphen at the end. */
  function Cut(s: string): (t: string) {
    if |s| <= 64 then s else if s[63] == '-' then s[..63] else s[..64]
  }

  // ---- The table -----------------------------------------------------------

  lemma TableEntry(i: nat)
    requires i < 26
    ensures CAPITALS[i] == 'A' + i as char && SMALL[i] == 'a' + i as char
  {
  }

  lemma SmallLetters(c: char)
    ensures c in SMALL <==> IsLower(c)
    ensures c in DIGITS <==> IsDigit(c)
  {
    forall i | 0 <= i < 26
      ensures SMALL[i] == 'a' + i as char
    {
      TableEntry(i);
    }
    if IsLower(c) {
      assert SMALL[c as nat - 'a' as nat] == c;
    }
    Digits(c);
  }

  lemma Digits(c: char)
    ensures c in DIGITS <==> IsDigit(c)
  {
    if IsDigit(c) {
      assert DIGITS[c as nat - '0' as nat] == c;
    }
  }

  lemma Capitals(c: char)
    ensures (exists i :: 0 <= i < 26 && CAPITALS[i] == c) <==> IsUpper(c)
    ensures forall i :: 0 <= i < 26 && CAPITALS[i] == c ==> SMALL[i] == Lower(c)
  {
    forall i | 0 <= i < 26
      ensures CAPITALS[i] == 'A' + i as char && SMALL[i] == 'a' + i as char
    {
      TableEntry(i);
    }
    if IsUpper(c) {
      assert CAPITALS[c as nat - 'A' as nat] == c;
    }
  }

  lemma WrittenIs(c: char)
    ensures Written(c) == if IsAlphanumeric(c) then [Lower(c)] else ""
    ensures '-' !in Written(c)
  {
    SmallLetters(c);
    Capitals(c);
  }

  // ---- The slug holds the words --------------------------------------------

  /** A word has a character, and no hyphen. */
  predicate IsWord(w: string) {
    w != "" && '-' !in w
  }

  /** The completed words, each followed by a hyphen. */
  function Lead(words: seq<string>): (s: string) {
    if words == [] then "" else Lead(words[..|words| - 1]) + words[|words| - 1] + "-"
  }

  ghost predicate Shows(r: Reading, slug: string) {
    && (forall w :: w in r.words ==> IsWord(w)) && '-' !in r.word
    && slug == Lead(r.words) + r.word
  }

  function Kernel(s: string): (slug: string) {
    TrimStart(Collapse(s))
  }

  lemma ShowsEnd(r: Reading, slug: string)
    requires Shows(r, slug)
    ensures (slug == "" || EndsInDash(slug)) <==> r.word == ""
  {
  }

  lemma LeadMore(words: seq<string>, w: string)
    ensures Lead(words + [w]) == Lead(words) + w + "-" && Lead(words + [w]) + "" == Lead(words + [w])
  {
    assert (words + [w])[..|words|] == words;
  }

  lemma ShowsBreak(r: Reading, s: string)
    requires Shows(r, Kernel(s))
    ensures Shows(r.Break(), Kernel(s + "-"))
  {
    PushChar(s, '-');
    ShowsEnd(r, Kernel(s));
    if r.word != "" {
      LeadMore(r.words, r.word);
      assert IsWord(r.word);
    }
  }

  lemma ShowsLetter(r: Reading, s: string, d: char)
    requires Shows(r, Kernel(s)) && d != '-'
    ensures Shows(r.(word := r.word + [d]), Kernel(s + [d]))
  {
    PushChar(s, d);
    assert Lead(r.words) + r.word + [d] == Lead(r.words) + (r.word + [d]);
  }

  lemma WithHyphens(s: string)
    ensures s + "-" + "a" + "n" + "d" + "-" == s + "-and-"
  {
  }

  lemma WithBlanks(s: string)
    ensures s + " " + "a" + "n" + "d" + " " == s + " and "
  {
  }

  lemma ShowsAnd(r: Reading, s: string)
    requires Shows(r, Kernel(s))
    ensures Shows(Reading(r.Break().words + ["and"], ""), Kernel(s + "-and-"))
  {
    var b := r.Break();
    ShowsBreak(r, s);
    ShowsLetter(b, s + "-", 'a');
    ShowsLetter(b.(word := "a"), s + "-" + "a", 'n');
    ShowsLetter(b.(word := "an"), s + "-" + "a" + "n", 'd');
    ShowsBreak(b.(word := "and"), s + "-" + "a" + "n" + "d");
    WithHyphens(s);
  }

  lemma MappedLast(input: string, c: char)
    ensures Mapped(input + [c]) == Mapped(input) + if c == '&' then "-and-" else Kept(c)
  {
    var before := FlatMap(input, WithAnd);
    FlatMapAppend(input, c, WithAnd);
    if c == '&' {
      FlatMapConcat(before, "-and-", Kept);
      NameUnchanged("-and-");
    } else {
      FlatMapAppend(before, c, Kept);
    }
  }

  lemma ShowsTake(r: Reading, s: string, c: char)
    requires Shows(r, Kernel(s))
    ensures Shows(Take(r, c), Kernel(s + if c == '&' then "-and-" else Kept(c)))
  {
    WrittenIs(c);
    if c == ' ' || c == '-' {
      ShowsBreak(r, s);
    } else if c == '&' {
      ShowsAnd(r, s);
    } else if IsAlphanumeric(c) {
      ShowsLetter(r, s, Lower(c));
    } else {
      assert s + "" == s && r.word + "" == r.word;
    }
  }

  lemma ShowsNext(input: string, init: string, c: char)
    requires input == init + [c] && Shows(Read(init), Kernel(Mapped(init)))
    ensures Shows(Read(input), Kernel(Mapped(input)))
  {
    ShowsTake(Read(init), Mapped(init), c);
    MappedLast(init, c);
    ReadAppend(init, c);
  }

  lemma EmptyShows()
    ensures Shows(Read(""), Kernel(Mapped("")))
  {
    assert Mapped("") == "";
  }

  lemma {:induction false} ReadShows(input: string)
    ensures Shows(Read(input), Kernel(Mapped(input)))
  {
    if input == "" {
      EmptyShows();
    } else {
      ReadShows(input[..|input| - 1]);
      ShowsNext(input, input[..|input| - 1], input[|input| - 1]);
    }
  }

  lemma {:induction false} LeadIs(words: seq<string>)
    requires words != []
    ensures Lead(words) == Hyphenated(words) + "-"
  {
    if |words| > 1 {
      LeadIs(words[..|words| - 1]);
    }
  }

  lemma HyphenatedEnds(words: seq<string>)
    requires forall w :: w in words ==> IsWord(w)
    ensures !EndsInDash(Hyphenated(words))
  {
    if words != [] {
      var last := words[|words| - 1];
      assert IsWord(last) && last[|last| - 1] in last;
    }
  }

  lemma HyphenatedLast(words: seq<string>, w: string)
    ensures Hyphenated(words + [w]) == Lead(words) + w
  {
    assert (words + [w])[..|words|] == words;
    if words != [] {
      LeadIs(words);
    }
  }

  lemma TrimHyphen(s: string)
    requires !EndsInDash(s)
    ensures TrimEnd(s) == s && TrimEnd(s + "-") == s
  {
    assert (s + "-")[..|s|] == s;
  }

  /** Trimming the end leaves the words. */
  lemma ShowsTrimmed(r: Reading, slug: string)
    requires Shows(r, slug)
    ensures TrimEnd(slug) == Hyphenated(r.Break().words)
  {
    var words := r.Break().words;
    HyphenatedEnds(words);
    TrimHyphen(Hyphenated(words));
    if r.word != "" {
      HyphenatedLast(r.words, r.word);
    } else if words != [] {
      LeadIs(words);
    }
  }

  lemma CutIs(s: string)
    requires NoDoubleHyphen(s) && !EndsInDash(s)
    ensures TrimEnd(Truncate(s)) == Cut(s)
  {
    if |s| > 64 {
      var t := s[..64];
      assert t[..63] == s[..63];
    }
  }

  /**
   The slug consists of the words of the text, joined by hyphens, and cut.
   */
  lemma SlugIsWords(input: string)
    ensures Composed(input) == Cut(Hyphenated(Words(input)))
  {
    var slug := Kernel(Mapped(input));
    ReadShows(input);
    ShowsTrimmed(Read(input), slug);
    CollapseFacts(Mapped(input));
    TrimStartFacts(Collapse(Mapped(input)));
    TrimEndFacts(slug);
    CutIs(TrimEnd(slug));
  }

  // ---- Letters -------------------------------------------------------------

  /** The same letter of the alphabet, or the same character. */
  ghost predicate SameLetter(c: char, d: char) {
    c == d || exists i :: 0 <= i < 26 && {c, d} == {CAPITALS[i], SMALL[i]}
  }

  lemma SameLetterTaken(r: Reading, c: char, d: char)
    requires SameLetter(c, d)
    ensures Take(r, c) == Take(r, d)
  {
    if c != d {
      var i :| 0 <= i < 26 && {c, d} == {CAPITALS[i], SMALL[i]};
      TableEntry(i);
      assert c in {CAPITALS[i], SMALL[i]} && d in {CAPITALS[i], SMALL[i]};
      WrittenIs(c);
      WrittenIs(d);
    }
  }

  lemma {:induction false} SameWords(a: string, b: string)
    requires |a| == |b| && forall i :: 0 <= i < |a| ==> SameLetter(a[i], b[i])
    ensures Read(a) == Read(b)
  {
    if a != "" {
      SameWords(a[..|a| - 1], b[..|b| - 1]);
      SameLetterTaken(Read(a[..|a| - 1]), a[|a| - 1], b[|b| - 1]);
    }
  }

  /** Texts that differ only in the case of letters have the same slug. */
  lemma CaseDoesNotMatter(a: string, b: string)
    requires |a| == |b| && forall i :: 0 <= i < |a| ==> SameLetter(a[i], b[i])
    ensures Composed(a) == Composed(b)
  {
    SameWords(a, b);
    SlugIsWords(a);
    SlugIsWords(b);
  }

  /** The text without its hyphens. */
  function Letters(s: string): (r: string) {
    if s == "" then "" else Letters(s[..|s| - 1]) + if s[|s| - 1] == '-' then "" else [s[|s| - 1]]
  }

  lemma {:induction false} LettersConcat(a: string, b: string)
    ensures Letters(a + b) == Letters(a) + Letters(b)
  {
    if b == "" {
      assert a + b == a;
    } else {
      LettersConcat(a, b[..|b| - 1]);
      assert (a + b)[..|a + b| - 1] == a + b[..|b| - 1];
    }
  }

  lemma {:induction false} LettersOnly(s: string)
    requires '-' !in s
    ensures Letters(s) == s
  {
    if s != "" {
      LettersOnly(s[..|s| - 1]);
    }
  }

  lemma LettersMore(s: string, d: string)
    requires '-' !in d
    ensures Letters(s + d) == Letters(s) + d && Letters(s + "-") == Letters(s)
  {
    LettersConcat(s, d);
    LettersOnly(d);
    assert (s + "-")[..|s|] == s;
  }

  /** What a reading says so far. */
  function Said(r: Reading): (s: string) {
    Letters(Lead(r.words) + r.word)
  }

  lemma SaidBreak(r: Reading)
    ensures Said(r.Break()) == Said(r)
  {
    var slug := Lead(r.words) + r.word;
    if r.word != "" {
      LeadMore(r.words, r.word);
      LettersMore(slug, "");
    }
  }

  lemma SaidLetters(r: Reading, d: string)
    requires '-' !in d
    ensures Said(r.(word := r.word + d)) == Said(r) + d
  {
    LettersMore(Lead(r.words) + r.word, d);
    assert Lead(r.words) + (r.word + d) == Lead(r.words) + r.word + d;
  }

  lemma SaidMore(r: Reading, c: char)
    requires '-' !in r.word && c != '&'
    ensures Said(Take(r, c)) == Said(r) + Written(c) && '-' !in Take(r, c).word
  {
    WrittenIs(c);
    if c == ' ' || c == '-' {
      SaidBreak(r);
      assert Said(r) + "" == Said(r);
    } else {
      SaidLetters(r, Written(c));
    }
  }

  lemma {:induction false} SaidIs(input: string)
    requires '&' !in input
    ensures Said(Read(input)) == FlatMap(input, c => Written(c)) && '-' !in Read(input).word
  {
    if input != "" {
      var init, c := input[..|input| - 1], input[|input| - 1];
      SaidIs(init);
      SaidMore(Read(init), c);
      FlatMapAppend(init, c, c => Written(c));
      assert input == init + [c];
    }
  }

  /** Nothing is lost or invented: up to the cut, the slug has the letters and digits of the text, in order. */
  lemma LettersKept(input: string)
    requires '&' !in input
    ensures Composed(input) == Cut(Hyphenated(Words(input)))
    ensures Letters(Hyphenated(Words(input))) == FlatMap(input, c => Written(c))
  {
    SlugIsWords(input);
    SaidIs(input);
    SaidWords(Read(input));
  }

  lemma SaidWords(r: Reading)
    ensures Letters(Hyphenated(r.Break().words)) == Said(r)
  {
    if r.word != "" {
      HyphenatedLast(r.words, r.word);
    } else if r.words != [] {
      LeadIs(r.words);
      LettersMore(Hyphenated(r.words), "");
      assert Lead(r.words) + "" == Lead(r.words);
    }
  }

  /** The sign `&` reads as the word "and". */
  lemma AndIsWord(a: string, b: string)
    ensures Composed(a + "&" + b) == Composed(a + " and " + b)
  {
    SlugIsWords(a + "&" + b);
    SlugIsWords(a + " and " + b);
    AndRead(a);
    SameContinuation(a + "&", a + " and ", b);
  }

  lemma ReadAppend(a: string, c: char)
    ensures Read(a + [c]) == Take(Read(a), c)
  {
    assert (a + [c])[..|a|] == a;
  }

  /** Between blanks, the word is complete. */
  lemma TakeAnd(r: Reading)
    ensures Take(Take(Take(Take(Take(r, ' '), 'a'), 'n'), 'd'), ' ') == Take(r, '&')
  {
    WrittenIs('a');
    WrittenIs('n');
    WrittenIs('d');
    assert "" + "a" + "n" + "d" == "and";
  }

  lemma AndRead(a: string)
    ensures Read(a + "&") == Read(a + " and ")
  {
    ReadAppend(a, '&');
    ReadAppend(a, ' ');
    ReadAppend(a + " ", 'a');
    ReadAppend(a + " " + "a", 'n');
    ReadAppend(a + " " + "a" + "n", 'd');
    ReadAppend(a + " " + "a" + "n" + "d", ' ');
    TakeAnd(Read(a));
    WithBlanks(a);
  }

  lemma Regroup(a: string, init: string, c: char, rest: string)
    requires rest != "" && init == rest[..|rest| - 1] && c == rest[|rest| - 1]
    ensures a + init + [c] == a + rest
  {
  }

  lemma {:induction false} SameContinuation(a: string, b: string, rest: string)
    requires Read(a) == Read(b)
    ensures Read(a + rest) == Read(b + rest)
  {
    if rest == "" {
      assert a + rest == a && b + rest == b;
    } else {
      var init, c := rest[..|rest| - 1], rest[|rest| - 1];
      SameContinuation(a, b, init);
      SameNext(a + init, b + init, c);
      Regroup(a, init, c, rest);
      Regroup(b, init, c, rest);
    }
  }

  lemma SameNext(a: string, b: string, c: char)
    requires Read(a) == Read(b)
    ensures Read(a + [c]) == Read(b + [c])
  {
    ReadAppend(a, c);
    ReadAppend(b, c);
  }

  predicate InName(c: char) {
    c in SMALL || c in DIGITS || c == '-'
  }

  lemma NameCharsIff(s: string)
    ensures NameChars(s) <==> forall i :: 0 <= i < |s| ==> InName(s[i])
  {
    forall c: char
      ensures NameChar(c) <==> InName(c)
    {
      SmallLetters(c);
    }
    if !NameChars(s) {
      var c :| c in s && !NameChar(c);
      var i :| 0 <= i < |s| && s[i] == c;
    }
  }

  /** A valid name has 1 to 64 small letters, digits and hyphens, and no hyphen at either end. */
  lemma ValidNameIff(s: string)
    ensures ValidateName(s).Ok? <==>
              && 0 < |s| <= 64 && s[0] != '-' && s[|s| - 1] != '-'
              && forall i :: 0 <= i < |s| ==> InName(s[i])
  {
    NameCharsIff(s);
    if NameChars(s) {
      AsciiBytes(s);
    }
  }

  /** Which rule a refused name breaks: the first in this order. */
  lemma NameErrorIff(s: string)
    ensures ValidateName(s) == Err(Empty) <==> |s| == 0
    ensures ValidateName(s) == Err(TooLong) <==> |Utf8.Encode(s)| > 64
    ensures ValidateName(s) == Err(HyphenAtEdge) <==>
              0 < |s| && |Utf8.Encode(s)| <= 64 && (s[0] == '-' || s[|s| - 1] == '-')
    ensures ValidateName(s) == Err(InvalidCharacter) <==>
              && 0 < |s| && |Utf8.Encode(s)| <= 64 && s[0] != '-' && s[|s| - 1] != '-'
              && exists i :: 0 <= i < |s| && !InName(s[i])
  {
    NameCharsIff(s);
    if s != "" {
      assert Utf8.Encode(s) == Utf8.EncodeChar(s[0]) + Utf8.Encode(s[1..]);
    }
  }
}
