/**
 The text operations the triage scripts rely on, after Python's `str`: splitting
 into lines, whitespace tokens, substring search and decimal numerals.
 */
module Text {
  import opened Prelude

  /** `str.isspace` for one character. */
  predicate IsSpace(c: char) {
    || '\t' <= c <= '\r' || '\U{1c}' <= c <= ' ' || c == '\U{85}' || c == '\U{a0}' || c == '\U{1680}'
    || '\U{2000}' <= c <= '\U{200a}' || c == '\U{2028}' || c == '\U{2029}' || c == '\U{202f}'
    || c == '\U{205f}' || c == '\U{3000}'
  }

  predicate IsDigit(c: char) {
    '0' <= c <= '9'
  }

  ghost predicate AllDigits(s: string) {
    forall c :: c in s ==> IsDigit(c)
  }

  predicate StartsWith(s: string, p: string) {
    p <= s
  }

  // ---- Lines ---------------------------------------------------------------

  /** `s.split("\n")`. */
  function SplitLines(s: string): (lines: seq<string>)
    ensures |lines| > 0
  {
    if s == "" then [""]
    else
      var rest := SplitLines(s[1..]);
      if s[0] == '\n' then [""] + rest else [[s[0]] + rest[0]] + rest[1..]
  }

  /** `"\n".join(lines)` for at least one line. */
  function JoinLines(lines: seq<string>): (s: string)
    requires lines != []
  {
    if |lines| == 1 then lines[0] else lines[0] + "\n" + JoinLines(lines[1..])
  }

  lemma {:induction false} SplitOneLine(x: string)
    requires '\n' !in x
    ensures SplitLines(x) == [x]
  {
    if x != "" {
      SplitOneLine(x[1..]);
      assert [x[0]] + x[1..] == x;
    }
  }

  lemma {:induction false} SplitFirstLine(x: string, y: string)
    requires '\n' !in x
    ensures SplitLines(x + "\n" + y) == [x] + SplitLines(y)
  {
    var s := x + "\n" + y;
    if x == "" {
      assert s[1..] == y;
    } else {
      SplitFirstLine(x[1..], y);
      assert s[1..] == x[1..] + "\n" + y;
      assert [x[0]] + x[1..] == x;
    }
  }

  lemma {:induction false} JoinSplit(lines: seq<string>)
    requires lines != [] && forall l :: l in lines ==> '\n' !in l
    ensures SplitLines(JoinLines(lines)) == lines
  {
    if |lines| == 1 {
      SplitOneLine(lines[0]);
    } else {
      JoinSplit(lines[1..]);
      SplitFirstLine(lines[0], JoinLines(lines[1..]));
    }
  }

  // ---- Whitespace ----------------------------------------------------------

  function StripStart(s: string): (r: string) {
    if s != "" && IsSpace(s[0]) then StripStart(s[1..]) else s
  }

  function StripEnd(s: string): (r: string) {
    if s != "" && IsSpace(s[|s| - 1]) then StripEnd(s[..|s| - 1]) else s
  }

  /** `s.strip()`. */
  function Strip(s: string): (r: string) {
    StripEnd(StripStart(s))
  }

  predicate Trimmed(s: string) {
    s == "" || (!IsSpace(s[0]) && !IsSpace(s[|s| - 1]))
  }

  lemma {:induction false} StripStartFacts(s: string)
    ensures StripStart(s) == "" || !IsSpace(StripStart(s)[0])
    ensures forall c :: c in StripStart(s) ==> c in s
  {
    if s != "" && IsSpace(s[0]) {
      StripStartFacts(s[1..]);
    }
  }

  lemma {:induction false} StripEndFacts(s: string)
    ensures StripEnd(s) <= s
    ensures StripEnd(s) == "" || !IsSpace(StripEnd(s)[|StripEnd(s)| - 1])
  {
    if s != "" && IsSpace(s[|s| - 1]) {
      StripEndFacts(s[..|s| - 1]);
    }
  }

  /** Stripping leaves no space at either end and invents no character. */
  lemma StripFacts(s: string)
    ensures Trimmed(Strip(s))
    ensures forall c :: c in Strip(s) ==> c in s
  {
    StripStartFacts(s);
    StripEndFacts(StripStart(s));
  }

  lemma {:induction false} StripStartIs(s: string) returns (k: nat)
    ensures k <= |s| && StripStart(s) == s[k..]
    ensures forall j :: 0 <= j < k ==> IsSpace(s[j])
    ensures k < |s| ==> !IsSpace(s[k])
  {
    k := 0;
    if s != "" && IsSpace(s[0]) {
      k := StripStartIs(s[1..]);
      k := k + 1;
    }
  }

  lemma {:induction false} StripEndIs(s: string)
    ensures forall j :: |StripEnd(s)| <= j < |s| ==> IsSpace(s[j])
    decreases |s|
  {
    if s != "" && IsSpace(s[|s| - 1]) {
      StripEndIs(s[..|s| - 1]);
      StripEndFacts(s[..|s| - 1]);
    }
  }

  /** Stripping removes the spaces at both ends, and nothing else. */
  lemma StripIs(s: string) returns (i: nat, j: nat)
    ensures i <= j <= |s| && Strip(s) == s[i..j]
    ensures forall k :: 0 <= k < i || j <= k < |s| ==> IsSpace(s[k])
    ensures i < j ==> !IsSpace(s[i]) && !IsSpace(s[j - 1])
  {
    i := StripStartIs(s);
    var t := s[i..];
    StripEndIs(t);
    StripEndFacts(t);
    j := i + |StripEnd(t)|;
    forall k | j <= k < |s|
      ensures IsSpace(s[k])
    {
      assert s[k] == t[k - i];
    }
    assert StripEnd(t) == t[..j - i];
  }

  lemma {:induction false} SplitLinesFacts(s: string)
    ensures forall l :: l in SplitLines(s) ==> '\n' !in l
  {
    if s != "" {
      SplitLinesFacts(s[1..]);
    }
  }

  /** The characters up to the first space. */
  function Word(s: string): (w: string) {
    if s == "" || IsSpace(s[0]) then "" else [s[0]] + Word(s[1..])
  }

  /** `s.split()[0]`, when there is a token at all. */
  function FirstToken(s: string): (t: Option<string>) {
    var w := Word(StripStart(s));
    if w == "" then None else Some(w)
  }

  lemma {:induction false} WordPrefix(w: string, rest: string)
    requires forall c :: c in w ==> !IsSpace(c)
    requires rest == "" || IsSpace(rest[0])
    ensures Word(w + rest) == w
  {
    if w == "" {
      assert w + rest == rest;
    } else {
      WordPrefix(w[1..], rest);
      assert (w + rest)[1..] == w[1..] + rest;
    }
  }

  lemma {:induction false} WordIs(s: string)
    ensures Word(s) <= s && forall c :: c in Word(s) ==> !IsSpace(c)
    ensures |Word(s)| < |s| ==> IsSpace(s[|Word(s)|])
  {
    if s != "" && !IsSpace(s[0]) {
      WordIs(s[1..]);
    }
  }

  /** The first token is the first longest stretch without spaces. */
  lemma FirstTokenIs(s: string) returns (i: nat, j: nat)
    ensures i <= j <= |s| && (forall k :: 0 <= k < i ==> IsSpace(s[k]))
    ensures (forall k :: i <= k < j ==> !IsSpace(s[k])) && (j < |s| ==> IsSpace(s[j]))
    ensures FirstToken(s) == if i < j then Some(s[i..j]) else None
  {
    i := StripStartIs(s);
    var t := s[i..];
    WordIs(t);
    j := i + |Word(t)|;
    forall k | i <= k < j
      ensures !IsSpace(s[k])
    {
      assert s[k] == Word(t)[k - i] && Word(t)[k - i] in Word(t);
    }
    assert Word(t) == t[..j - i] == s[i..j];
  }

  /** A run of digits, after at most one blank, is the first token. */
  lemma TokenOfDigits(blank: string, d: string, rest: string)
    requires blank == "" || blank == " "
    requires d != "" && AllDigits(d)
    requires rest == "" || IsSpace(rest[0])
    ensures FirstToken(blank + d + rest) == Some(d)
  {
    var s := d + rest;
    assert s[0] == d[0] && d[0] in d;
    assert StripStart(s) == s;
    assert blank + d + rest == blank + s;
    if blank == " " {
      assert (blank + s)[1..] == s;
    } else {
      assert blank + s == s;
    }
    WordPrefix(d, rest);
  }

  // ---- Substrings ----------------------------------------------------------

  /** The index of the first occurrence of `sub`. */
  function Find(s: string, sub: string): (i: Option<nat>)
    ensures i.Some? ==> i.value + |sub| <= |s|
  {
    if sub <= s then Some(0)
    else if s == "" then None
    else
      var i := Find(s[1..], sub);
      if i.Some? then Some(i.value + 1) else None
  }

  ghost predicate OccursAt(s: string, sub: string, i: nat) {
    i + |sub| <= |s| && s[i..i + |sub|] == sub
  }

  /** It is the first place where the substring occurs, if it does. */
  lemma {:induction false} FindFirst(s: string, sub: string)
    ensures Find(s, sub).None? ==> forall i :: !OccursAt(s, sub, i)
    ensures Find(s, sub).Some? ==> OccursAt(s, sub, Find(s, sub).value)
    ensures Find(s, sub).Some? ==> forall i :: 0 <= i < Find(s, sub).value ==> !OccursAt(s, sub, i)
  {
    assert OccursAt(s, sub, 0) <==> sub <= s;
    if !(sub <= s) && s != "" {
      var rest := s[1..];
      FindFirst(rest, sub);
      forall i: nat | i > 0
        ensures OccursAt(s, sub, i) <==> OccursAt(rest, sub, i - 1)
      {
        if i + |sub| <= |s| {
          assert s[i..i + |sub|] == rest[i - 1..i - 1 + |sub|];
        }
      }
    }
  }

  /** The text before the first separator. */
  function BeforeFirst(s: string, sep: string): (p: string) {
    if Find(s, sep).Some? then s[..Find(s, sep).value] else s
  }

  /** `s.split(sep)[1]`: the text between the first separator and the next. */
  function SecondPiece(s: string, sep: string): (p: Option<string>) {
    var i := Find(s, sep);
    if i.None? then None else Some(BeforeFirst(s[i.value + |sep|..], sep))
  }

  /** A stretch without the separator's first character cannot begin an occurrence. */
  lemma {:induction false} FindSkip(x: string, t: string, sub: string)
    requires sub != "" && sub[0] !in x
    ensures Find(x + t, sub) == (if Find(t, sub).Some? then Some(|x| + Find(t, sub).value) else None)
  {
    if x == "" {
      assert x + t == t;
    } else {
      FindSkip(x[1..], t, sub);
      assert (x + t)[1..] == x[1..] + t;
      assert (x + t)[0] == x[0];
    }
  }

  lemma BeforeSkip(x: string, t: string, sep: string)
    requires sep != "" && sep[0] !in x
    ensures BeforeFirst(x + t, sep) == x + BeforeFirst(t, sep)
  {
    FindSkip(x, t, sep);
    if Find(t, sep).Some? {
      assert (x + t)[..|x| + Find(t, sep).value] == x + t[..Find(t, sep).value];
    }
  }

  // ---- Decimal numerals ----------------------------------------------------

  function DigitChar(d: nat): (c: char)
    requires d < 10
    ensures IsDigit(c)
  {
    '0' + d as char
  }

  function DigitOf(c: char): (d: nat)
    requires IsDigit(c)
    ensures d < 10
  {
    c as nat - '0' as nat
  }

  /** `str(n)`. */
  function Decimal(n: nat): (s: string)
    ensures s != "" && AllDigits(s)
  {
    if n < 10 then [DigitChar(n)] else Decimal(n / 10) + [DigitChar(n % 10)]
  }

  /** Digits, with single underscores allowed between them. */
  function DigitsValue(s: string): (v: Option<nat>) {
    if s == "" || !IsDigit(s[|s| - 1]) then None
    else
      var d, init := DigitOf(s[|s| - 1]), s[..|s| - 1];
      if init == "" then Some(d)
      else
        var high := DigitsValue(if init[|init| - 1] == '_' then init[..|init| - 1] else init);
        if high.None? then None else Some(10 * high.value + d)
  }

  /** `int(s)` on a token: an optional sign, then digits. */
  function ParseInt(s: string): (v: Option<int>) {
    if s == "" then None
    else if s[0] == '+' || s[0] == '-' then
      var v := DigitsValue(s[1..]);
      if v.None? then None
      else
        var n: int := v.value;
        Some(if s[0] == '-' then -n else n)
    else
      var v := DigitsValue(s);
      if v.None? then None else Some(v.value)
  }

  lemma {:induction false} DecimalValue(n: nat)
    ensures DigitsValue(Decimal(n)) == Some(n)
  {
    if n >= 10 {
      DecimalValue(n / 10);
      var s, init := Decimal(n), Decimal(n / 10);
      assert s[..|s| - 1] == init;
      assert init[|init| - 1] in init;
    }
  }

  /** A numeral may have a sign. */
  lemma SignedNumeral(n: nat)
    ensures ParseInt("-" + Decimal(n)) == Some(0 - n) && ParseInt("+" + Decimal(n)) == Some(n)
  {
    DecimalValue(n);
    assert ("-" + Decimal(n))[1..] == Decimal(n) && ("+" + Decimal(n))[1..] == Decimal(n);
  }

  /** A printed number parses back to itself. */
  lemma DecimalRoundTrip(n: nat)
    ensures ParseInt(Decimal(n)) == Some(n)
  {
    DecimalValue(n);
    assert Decimal(n)[0] in Decimal(n);
  }

  /** The numeral is in base ten, most significant digit first. */
  lemma DecimalDigits(n: nat)
    ensures n < 10 ==> Decimal(n) == ["0123456789"[n]]
    ensures n >= 10 ==> Decimal(n) == Decimal(n / 10) + ["0123456789"[n % 10]]
  {
  }

  /** The `:2d` format: padded on the left to two characters. */
  function PaddedBlank(n: nat): (b: string) {
    if |Decimal(n)| < 2 then " " else ""
  }
}
