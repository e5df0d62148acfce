/**
 Skill share links (crates/agent_skills/agent_skills.rs): a SKILL.md file carried
 whole in the query of a link, as unpadded base64url (sections 3.2 and 5 of RFC 4648).
 */
module ShareLink {
  import opened Prelude
  import opened Utf8
  import B64 = Base64Url
  import Frontmatter

  // ---- Base64url over bytes ----------------------------------------------------

  type Sextet = v: int | 0 <= v < 64

  function Sextets(a: Byte, b: Byte, c: Byte): (v: (Sextet, Sextet, Sextet, Sextet)) {
    (a / 4, a % 4 * 16 + b / 16, b % 16 * 4 + c / 64, c % 64)
  }

  function Octets(v0: Sextet, v1: Sextet, v2: Sextet, v3: Sextet): (b: (Byte, Byte, Byte)) {
    (v0 as int * 4 + v1 / 16, v1 % 16 * 16 as int + v2 / 4, v2 % 4 * 64 as int + v3)
  }

  function Digits(v0: Sextet, v1: Sextet, v2: Sextet, v3: Sextet): (t: string)
    ensures |t| == 4
  {
    [B64.Digit(v0), B64.Digit(v1), B64.Digit(v2), B64.Digit(v3)]
  }

  function Group(a: Byte, b: Byte, c: Byte): (t: string)
    ensures |t| == 4
  {
    var v := Sextets(a, b, c);
    Digits(v.0, v.1, v.2, v.3)
  }

  function Encode64(bs: seq<Byte>): (t: string) {
    if bs == [] then ""
    else if |bs| == 1 then Group(bs[0], 0, 0)[..2]
    else if |bs| == 2 then Group(bs[0], bs[1], 0)[..3]
    else Group(bs[0], bs[1], bs[2]) + Encode64(bs[3..])
  }

  predicate AllDigits(t: string) {
    forall c :: c in t ==> B64.IsDigit(c)
  }

  function Ungroup(t: string): (bs: seq<Byte>)
    requires |t| == 4 && AllDigits(t)
    ensures |bs| == 3
  {
    var b := Octets(B64.Value(t[0]), B64.Value(t[1]), B64.Value(t[2]), B64.Value(t[3]));
    [b.0, b.1, b.2]
  }

  /** The strict decoder: no padding, no stray digit, no bits left over. */
  function Decode64(t: string): (r: Option<seq<Byte>>)
    decreases |t|
  {
    if !AllDigits(t) then None
    else if t == "" then Some([])
    else if |t| == 1 then None
    else if |t| == 2 then
      if B64.Value(t[1]) % 16 == 0 then Some(Ungroup(t + "AA")[..1]) else None
    else if |t| == 3 then
      if B64.Value(t[2]) % 4 == 0 then Some(Ungroup(t + "A")[..2]) else None
    else
      var rest := Decode64(t[4..]);
      if rest.None? then None else Some(Ungroup(t[..4]) + rest.value)
  }

  lemma Pack4(x: int, y: int)
    requires 0 <= y < 4
    ensures (x * 4 + y) / 4 == x && (x * 4 + y) % 4 == y
  {
  }

  lemma Pack16(x: int, y: int)
    requires 0 <= y < 16
    ensures (x * 16 + y) / 16 == x && (x * 16 + y) % 16 == y
  {
  }

  lemma Pack64(x: int, y: int)
    requires 0 <= y < 64
    ensures (x * 64 + y) / 64 == x && (x * 64 + y) % 64 == y
  {
  }

  lemma OctetsOfSextets(a: Byte, b: Byte, c: Byte)
    ensures var v := Sextets(a, b, c);
            && Octets(v.0, v.1, v.2, v.3) == (a, b, c)
            && (c == 0 ==> v.3 == 0 && v.2 % 4 == 0)
            && (b == c == 0 ==> v.2 == 0 && v.1 % 16 == 0)
  {
    Pack16(a % 4, b / 16);
    Pack4(b % 16, c / 64);
    assert a / 4 * 4 + a % 4 == a && b / 16 * 16 + b % 16 == b && c / 64 * 64 + c % 64 == c;
  }

  lemma SextetsOfOctets(v0: Sextet, v1: Sextet, v2: Sextet, v3: Sextet)
    ensures var b := Octets(v0, v1, v2, v3);
            && Sextets(b.0, b.1, b.2) == (v0, v1, v2, v3)
            && (v3 == 0 && v2 % 4 == 0 ==> b.2 == 0)
            && (v3 == v2 == 0 && v1 % 16 == 0 ==> b.1 == 0)
  {
    Pack4(v0, v1 / 16);
    Pack16(v1 % 16, v2 / 4);
    Pack64(v2 % 4, v3);
    assert v1 / 16 * 16 + v1 % 16 == v1 && v2 / 4 * 4 + v2 % 4 == v2;
  }

  /** The four values are the 24 bits of the three bytes, in order. */
  lemma SextetsValue(a: Byte, b: Byte, c: Byte)
    ensures var v := Sextets(a, b, c);
            v.0 as int * 0x40000 + v.1 as int * 0x1000 + v.2 as int * 0x40 + v.3 as int
            == a as int * 0x10000 + b as int * 0x100 + c as int
  {
    assert a / 4 * 4 + a % 4 == a && b / 16 * 16 + b % 16 == b && c / 64 * 64 + c % 64 == c;
  }

  /** Writing four values as digits and reading the digits. */
  lemma DigitsRoundTrip(v0: Sextet, v1: Sextet, v2: Sextet, v3: Sextet)
    ensures var t := Digits(v0, v1, v2, v3);
            && AllDigits(t) && B64.Value(t[0]) == v0 && B64.Value(t[1]) == v1
            && B64.Value(t[2]) == v2 && B64.Value(t[3]) == v3
            && (v2 == 0 ==> t[2] == 'A') && (v3 == 0 ==> t[3] == 'A')
  {
    B64.DigitValue(v0);
    B64.DigitValue(v1);
    B64.DigitValue(v2);
    B64.DigitValue(v3);
  }

  lemma GroupRoundTrip(a: Byte, b: Byte, c: Byte)
    ensures AllDigits(Group(a, b, c)) && Ungroup(Group(a, b, c)) == [a, b, c]
    ensures c == 0 ==> Group(a, b, c)[3] == 'A' && B64.Value(Group(a, b, c)[2]) % 4 == 0
    ensures b == c == 0 ==> Group(a, b, c)[2] == 'A' && B64.Value(Group(a, b, c)[1]) % 16 == 0
  {
    var v := Sextets(a, b, c);
    OctetsOfSextets(a, b, c);
    DigitsRoundTrip(v.0, v.1, v.2, v.3);
  }

  lemma UngroupRoundTrip(t: string)
    requires |t| == 4 && AllDigits(t)
    ensures var bs := Ungroup(t); Group(bs[0], bs[1], bs[2]) == t
    ensures t[3] == 'A' && B64.Value(t[2]) % 4 == 0 ==> Ungroup(t)[2] == 0
    ensures t[2] == 'A' && t[3] == 'A' && B64.Value(t[1]) % 16 == 0 ==> Ungroup(t)[1] == 0
  {
    B64.ValueDigit(t[0]);
    B64.ValueDigit(t[1]);
    B64.ValueDigit(t[2]);
    B64.ValueDigit(t[3]);
    SextetsOfOctets(B64.Value(t[0]), B64.Value(t[1]), B64.Value(t[2]), B64.Value(t[3]));
  }

  /** The payload is plain base64url text. */
  lemma {:induction false} EncodedDigits(bs: seq<Byte>)
    ensures AllDigits(Encode64(bs))
  {
    if bs != [] {
      var b: Byte := if |bs| > 1 then bs[1] else 0;
      var c: Byte := if |bs| > 2 then bs[2] else 0;
      GroupRoundTrip(bs[0], b, c);
      if |bs| > 3 {
        EncodedDigits(bs[3..]);
      }
    }
  }

  /** Two digits stand for a group that ends in two zero digits. */
  lemma TwoDigits(g: string)
    requires |g| == 4 && AllDigits(g) && g[2] == 'A' && g[3] == 'A' && B64.Value(g[1]) % 16 == 0
    ensures Decode64(g[..2]) == Some(Ungroup(g)[..1])
  {
    assert g[..2] + "AA" == g;
  }

  /** Three digits stand for a group that ends in a zero digit. */
  lemma ThreeDigits(g: string)
    requires |g| == 4 && AllDigits(g) && g[3] == 'A' && B64.Value(g[2]) % 4 == 0
    ensures Decode64(g[..3]) == Some(Ungroup(g)[..2])
  {
    assert g[..3] + "A" == g;
  }

  /** The last group, of one or two bytes. */
  lemma TailDecodes(bs: seq<Byte>)
    requires |bs| == 1 || |bs| == 2
    ensures Decode64(Encode64(bs)) == Some(bs)
  {
    var b: Byte := if |bs| > 1 then bs[1] else 0;
    GroupRoundTrip(bs[0], b, 0);
    assert [bs[0], b, 0][..|bs|] == bs;
    if |bs| == 1 {
      TwoDigits(Group(bs[0], b, 0));
    } else {
      ThreeDigits(Group(bs[0], b, 0));
    }
  }

  lemma {:induction false} Encode64Decodes(bs: seq<Byte>)
    ensures Decode64(Encode64(bs)) == Some(bs)
  {
    if |bs| == 1 || |bs| == 2 {
      TailDecodes(bs);
    } else if |bs| > 2 {
      var g, t := Group(bs[0], bs[1], bs[2]), Encode64(bs);
      GroupRoundTrip(bs[0], bs[1], bs[2]);
      EncodedDigits(bs);
      Encode64Decodes(bs[3..]);
      assert t[..4] == g && t[4..] == Encode64(bs[3..]);
      assert [bs[0], bs[1], bs[2]] + bs[3..] == bs;
    }
  }

  lemma {:induction false} Decode64Encodes(t: string)
    requires Decode64(t).Some?
    ensures Encode64(Decode64(t).value) == t
    decreases |t|
  {
    var bs := Decode64(t).value;
    if |t| == 2 {
      UngroupRoundTrip(t + "AA");
    } else if |t| == 3 {
      UngroupRoundTrip(t + "A");
    } else if |t| > 3 {
      UngroupRoundTrip(t[..4]);
      Decode64Encodes(t[4..]);
      assert bs[3..] == Decode64(t[4..]).value;
      assert t == t[..4] + t[4..];
    }
  }

  /** Exactly the encodings decode: the two are inverse to each other. */
  lemma Decode64Exact(t: string, bs: seq<Byte>)
    ensures Decode64(t) == Some(bs) <==> t == Encode64(bs)
  {
    Encode64Decodes(bs);
    if Decode64(t) == Some(bs) {
      Decode64Encodes(t);
    }
  }

  // ---- Query parameters ----------------------------------------------------------

  datatype Url = Url(scheme: string, host: Option<string>, query: Option<string>)

  /** The URL library: parsing, and the lossy reading of percent-decoded bytes. */
  datatype Library = Library(parse: string -> Option<Url>, lossy: seq<Byte> -> string)

  function Hex(v: nat): (c: char)
    requires v < 16
  {
    if v < 10 then '0' + v as char else 'A' + (v - 10) as char
  }

  function HexValue(b: Byte): (v: Option<nat>)
    ensures v.Some? ==> v.value < 16
  {
    if 0x30 <= b <= 0x39 then Some(b - 0x30)
    else if 0x41 <= b <= 0x46 then Some(b - 0x41 + 10)
    else if 0x61 <= b <= 0x66 then Some(b - 0x61 + 10)
    else None
  }

  /** Letters, digits and four marks stay as they are in a form-encoded query. */
  predicate StaysInQuery(b: Byte) {
    || 0x30 <= b <= 0x39 || 0x41 <= b <= 0x5A || 0x61 <= b <= 0x7A
    || b == 0x2A || b == 0x2D || b == 0x2E || b == 0x5F
  }

  function FormEncode(bs: seq<Byte>): (t: string) {
    if bs == [] then ""
    else
      (if StaysInQuery(bs[0]) then [bs[0] as char]
       else if bs[0] == 0x20 then "+"
       else ['%', Hex(bs[0] / 16), Hex(bs[0] % 16)])
      + FormEncode(bs[1..])
  }

  function PercentDecode(bs: seq<Byte>): (r: seq<Byte>) {
    if bs == [] then []
    else if bs[0] == 0x2B then [0x20] + PercentDecode(bs[1..])
    else if bs[0] == 0x25 && |bs| >= 3 && HexValue(bs[1]).Some? && HexValue(bs[2]).Some? then
      [HexValue(bs[1]).value * 16 + HexValue(bs[2]).value] + PercentDecode(bs[3..])
    else [bs[0]] + PercentDecode(bs[1..])
  }

  function FormDecode(lib: Library, s: string): (r: string) {
    lib.lossy(PercentDecode(Encode(s)))
  }

  /** The text before and after the first `mark`; all of it and nothing when there is none. */
  function Cut(s: string, mark: char): (r: (string, string))
    ensures r.0 + (if mark in s then [mark] else "") + r.1 == s
    ensures mark !in r.0 && (mark !in s ==> r.1 == "")
  {
    if s == "" then ("", "")
    else if s[0] == mark then ("", s[1..])
    else
      var rest := Cut(s[1..], mark);
      ([s[0]] + rest.0, rest.1)
  }

  /** The value of the first parameter with this name. */
  function FindParam(lib: Library, query: string, name: string): (r: Option<string>)
    decreases |query|
  {
    if query == "" then None
    else
      var (pair, rest) := Cut(query, '&');
      assert |rest| < |query|;
      if pair == "" then FindParam(lib, rest, name)
      else
        var (key, value) := Cut(pair, '=');
        if FormDecode(lib, key) == name then Some(FormDecode(lib, value)) else FindParam(lib, rest, name)
  }

  /** The query between its ampersands. */
  function Pieces(query: string): (ps: seq<string>)
    decreases |query|
  {
    if '&' !in query then [query]
    else
      var (piece, rest) := Cut(query, '&');
      assert |rest| < |query|;
      [piece] + Pieces(rest)
  }

  function JoinPieces(ps: seq<string>): (query: string)
    requires ps != []
  {
    if |ps| == 1 then ps[0] else ps[0] + "&" + JoinPieces(ps[1..])
  }

  lemma {:induction false} PiecesJoin(query: string)
    ensures Pieces(query) != [] && JoinPieces(Pieces(query)) == query
    ensures forall p :: p in Pieces(query) ==> '&' !in p
    decreases |query|
  {
    if '&' in query {
      var (piece, rest) := Cut(query, '&');
      PiecesJoin(rest);
      assert Pieces(query)[1..] == Pieces(rest);
    }
  }

  /** The piece is a parameter of this name. */
  predicate Names(lib: Library, piece: string, name: string) {
    piece != "" && FormDecode(lib, Cut(piece, '=').0) == name
  }

  lemma FindPiece(lib: Library, piece: string, rest: string, more: bool, name: string)
    requires '&' !in piece && (!more ==> rest == "")
    ensures FindParam(lib, piece + (if more then "&" else "") + rest, name)
            == if Names(lib, piece, name) then Some(FormDecode(lib, Cut(piece, '=').1)) else FindParam(lib, rest, name)
  {
    var query := piece + (if more then "&" else "") + rest;
    if more {
      CutFirst(piece, '&', rest);
      assert query == piece + ['&'] + rest;
    } else {
      assert query == piece;
      CutAbsent(piece, '&');
    }
  }

  /** The pieces name the parameter at some position, and nowhere before. */
  ghost predicate FirstNamed(lib: Library, ps: seq<string>, name: string, i: nat) {
    && i < |ps| && Names(lib, ps[i], name)
    && forall j :: 0 <= j < i ==> !Names(lib, ps[j], name)
  }

  /** Cutting off the first piece. */
  lemma FirstPiece(lib: Library, query: string, name: string)
    ensures var ps := Pieces(query);
            && ps != [] && (|ps| > 1 ==> ps[1..] == Pieces(Cut(query, '&').1) && |Cut(query, '&').1| < |query|)
            && FindParam(lib, query, name)
               == if Names(lib, ps[0], name) then Some(FormDecode(lib, Cut(ps[0], '=').1))
                  else if |ps| == 1 then None
                  else FindParam(lib, Cut(query, '&').1, name)
  {
    var (piece, rest) := Cut(query, '&');
    if '&' in query {
      FindPiece(lib, piece, rest, true, name);
      assert piece + "&" + rest == query;
      assert ([piece] + Pieces(rest))[1..] == Pieces(rest);
      PiecesJoin(rest);
    } else {
      FindPiece(lib, query, "", false, name);
      assert query + "" + "" == query;
    }
  }

  lemma NamedBehind(lib: Library, ps: seq<string>, name: string, i: nat)
    requires i > 0 && FirstNamed(lib, ps, name, i)
    ensures !Names(lib, ps[0], name) && FirstNamed(lib, ps[1..], name, i - 1) && ps[1..][i - 1] == ps[i]
  {
    assert forall j :: 0 <= j < i - 1 ==> ps[1..][j] == ps[j + 1];
  }

  /** The parameter is the first piece of that name, wherever it stands in the query. */
  lemma {:induction false} FindParamAt(lib: Library, query: string, name: string, i: nat)
    requires FirstNamed(lib, Pieces(query), name, i)
    ensures FindParam(lib, query, name) == Some(FormDecode(lib, Cut(Pieces(query)[i], '=').1))
    decreases |query|
  {
    FirstPiece(lib, query, name);
    if i > 0 {
      NamedBehind(lib, Pieces(query), name, i);
      FindParamAt(lib, Cut(query, '&').1, name, i - 1);
    }
  }

  /** There is none exactly when no piece has the name. */
  lemma {:induction false} NoParamIff(lib: Library, query: string, name: string)
    ensures FindParam(lib, query, name).None? <==> forall p :: p in Pieces(query) ==> !Names(lib, p, name)
    decreases |query|
  {
    var ps := Pieces(query);
    FirstPiece(lib, query, name);
    assert forall p :: p in ps <==> p == ps[0] || p in ps[1..];
    if |ps| > 1 {
      NoParamIff(lib, Cut(query, '&').1, name);
    }
  }

  lemma {:induction false} HexDigits(v: nat)
    requires v < 16
    ensures var c := Hex(v); c < '\U{80}' && HexValue(c as int) == Some(v) && c == "0123456789ABCDEF"[v]
  {
  }

  lemma EscapeDecodes(b: Byte, rest: string)
    ensures PercentDecode(Encode(['%', Hex(b / 16), Hex(b % 16)] + rest)) == [b] + PercentDecode(Encode(rest))
  {
    HexDigits(b / 16);
    HexDigits(b % 16);
    EscapeBytes(Hex(b / 16), Hex(b % 16), rest);
    var t := Encode(['%', Hex(b / 16), Hex(b % 16)] + rest);
    assert t[3..] == Encode(rest);
  }

  /** Query decoding undoes query encoding on any bytes. */
  lemma {:induction false} FormRoundTrip(bs: seq<Byte>)
    ensures PercentDecode(Encode(FormEncode(bs))) == bs
  {
    if bs != [] {
      var b, rest := bs[0], FormEncode(bs[1..]);
      FormRoundTrip(bs[1..]);
      assert bs == [b] + bs[1..];
      if StaysInQuery(b) {
        assert FormEncode(bs)[1..] == rest;
      } else if b == 0x20 {
        assert FormEncode(bs)[1..] == rest;
      } else {
        EscapeDecodes(b, rest);
      }
    }
  }

  lemma EscapeBytes(c: char, d: char, rest: string)
    requires c < '\U{80}' && d < '\U{80}'
    ensures Encode(['%', c, d] + rest) == [0x25, c as int, d as int] + Encode(rest)
  {
    EncodeAppend(['%', c, d], rest);
    assert ['%', c, d][1..] == [c, d] && [c, d][1..] == [d] && [d][1..] == "";
    assert Encode([d]) == [d as int] && Encode([c, d]) == [c as int, d as int];
  }

  // ---- Links -----------------------------------------------------------------------

  const SCHEME := "orion"
  const LEGACY_SCHEME := "zed"
  const HOST := "skill"
  const DATA_PARAM := "data"

  datatype Error = NotAUrl | NotASkillLink | MissingData | NotBase64 | TooLarge | NotUtf8

  function Payload(content: string): (t: string) {
    Encode64(Encode(content))
  }

  /** A link as the URL library writes it, for a scheme and a parameter value. */
  function Link(scheme: string, data: string): (link: string) {
    scheme + "://" + HOST + "?" + DATA_PARAM + "=" + FormEncode(Encode(data))
  }

  function EncodeLink(content: string): (link: string) {
    Link(SCHEME, Payload(content))
  }

  function DecodeLink(lib: Library, link: string): (r: Result<string, Error>) {
    var url := lib.parse(link);
    if url.None? then Err(NotAUrl)
    else if !(url.value.scheme in [SCHEME, LEGACY_SCHEME] && url.value.host == Some(HOST)) then Err(NotASkillLink)
    else
      var data := if url.value.query.None? then None else FindParam(lib, url.value.query.value, DATA_PARAM);
      if data.None? then Err(MissingData) else DecodeData(data.value)
  }

  function DecodeData(data: string): (r: Result<string, Error>) {
    var bytes := Decode64(data);
    if bytes.None? then Err(NotBase64)
    else if |bytes.value| > Frontmatter.MAX_SKILL_FILE_SIZE then Err(TooLarge)
    else
      var content := Decode(bytes.value);
      if content.None? then Err(NotUtf8) else Ok(content.value)
  }

  /** The library reads back the parts of a plain link, and loses nothing from valid UTF-8. */
  ghost predicate Faithful(lib: Library) {
    && (forall scheme, data {:trigger Link(scheme, data)} :: scheme in [SCHEME, LEGACY_SCHEME] && AllDigits(data) ==>
          lib.parse(Link(scheme, data)) == Some(Url(scheme, Some(HOST), Some(DATA_PARAM + "=" + data))))
    && (forall s :: lib.lossy(Encode(s)) == s)
  }

  lemma {:induction false} PlainBytes(t: string)
    requires AllDigits(t)
    ensures |Encode(t)| == |t|
    ensures forall i :: 0 <= i < |t| ==> Encode(t)[i] == t[i] as int && StaysInQuery(Encode(t)[i])
  {
    if t != "" {
      PlainBytes(t[1..]);
      assert t[0] in t;
    }
  }

  lemma {:induction false} PlainFormEncode(bs: seq<Byte>)
    requires forall b :: b in bs ==> StaysInQuery(b)
    ensures |FormEncode(bs)| == |bs| && forall i :: 0 <= i < |bs| ==> FormEncode(bs)[i] == bs[i] as char
    ensures PercentDecode(bs) == bs
  {
    if bs != [] {
      assert bs[0] in bs;
      PlainFormEncode(bs[1..]);
      assert bs == [bs[0]] + bs[1..];
    }
  }

  /** Query encoding leaves the payload as it is, and so does query decoding. */
  lemma PayloadUnchanged(lib: Library, t: string)
    requires AllDigits(t) && Faithful(lib)
    ensures FormEncode(Encode(t)) == t && FormDecode(lib, t) == t
  {
    PlainBytes(t);
    PlainFormEncode(Encode(t));
  }

  lemma {:induction false} CutAbsent(s: string, mark: char)
    requires mark !in s
    ensures Cut(s, mark) == (s, "")
  {
    if s != "" {
      CutAbsent(s[1..], mark);
      assert [s[0]] + s[1..] == s;
    }
  }

  lemma {:induction false} CutFirst(s: string, mark: char, t: string)
    requires mark !in s
    ensures Cut(s + [mark] + t, mark) == (s, t)
  {
    var all := s + [mark] + t;
    if s == "" {
      assert all[1..] == t;
    } else {
      assert all[1..] == s[1..] + [mark] + t;
      CutFirst(s[1..], mark, t);
      assert [s[0]] + s[1..] == s;
    }
  }

  lemma FindOnly(lib: Library, name: string, t: string)
    requires Faithful(lib) && AllDigits(name) && name != "" && AllDigits(t)
    ensures FindParam(lib, name + "=" + t, name) == Some(t)
  {
    var query := name + "=" + t;
    CutAbsent(query, '&');
    CutFirst(name, '=', t);
    PayloadUnchanged(lib, name);
    PayloadUnchanged(lib, t);
  }

  lemma DataParamPlain()
    ensures AllDigits(DATA_PARAM)
  {
    assert forall i :: 0 <= i < 4 ==> B64.IsDigit("data"[i]);
  }

  /**
   Decoding an encoded link, under either scheme, gives the content back whenever
   it is no larger than the limit, and reports the size otherwise.
   */
  lemma ShareRoundTrip(lib: Library, scheme: string, content: string)
    requires Faithful(lib) && scheme in ["orion", "zed"]
    ensures DecodeLink(lib, Link(scheme, Payload(content)))
            == if |Encode(content)| <= 102400 then Ok(content) else Err(TooLarge)
  {
    var t := Payload(content);
    EncodedDigits(Encode(content));
    DataParamPlain();
    FindOnly(lib, DATA_PARAM, t);
    Encode64Decodes(Encode(content));
    EncodeThenDecode(content);
  }

  /** Every accepted link carries exactly the canonical payload of its content, within the limit. */
  lemma DecodeLinkExact(lib: Library, link: string, content: string)
    ensures DecodeLink(lib, link) == Ok(content) <==>
            && lib.parse(link).Some?
            && var url := lib.parse(link).value;
               && url.scheme in ["orion", "zed"] && url.host == Some("skill") && url.query.Some?
               && FindParam(lib, url.query.value, "data") == Some(Payload(content))
               && |Encode(content)| <= 102400
  {
    if lib.parse(link).Some? && lib.parse(link).value.query.Some? {
      var data := FindParam(lib, lib.parse(link).value.query.value, DATA_PARAM);
      if data.Some? {
        Decode64Exact(data.value, Encode(content));
        if Decode64(data.value).Some? {
          DecodeExact(Decode64(data.value).value, content);
        }
      }
    }
  }

  /** The data that a link of this application carries. */
  ghost predicate Carries(lib: Library, link: string, data: string) {
    && lib.parse(link).Some?
    && var url := lib.parse(link).value;
       && url.scheme in ["orion", "zed"] && url.host == Some("skill") && url.query.Some?
       && FindParam(lib, url.query.value, "data") == Some(data)
  }

  /** Data is refused when it is no base64url text at all. */
  lemma NotBase64Iff(lib: Library, link: string, data: string)
    requires Carries(lib, link, data)
    ensures DecodeLink(lib, link) == Err(NotBase64) <==> forall bs :: data != Encode64(bs)
  {
    if Decode64(data).Some? {
      Decode64Encodes(data);
    }
    forall bs | data == Encode64(bs)
      ensures Decode64(data) == Some(bs)
    {
      Encode64Decodes(bs);
    }
  }

  /** Otherwise it is refused when there are too many bytes, or when they are no UTF-8. */
  lemma BytesErrorIff(lib: Library, link: string, bytes: seq<Byte>)
    requires Carries(lib, link, Encode64(bytes))
    ensures DecodeLink(lib, link) == Err(TooLarge) <==> |bytes| > 102400
    ensures DecodeLink(lib, link) == Err(NotUtf8) <==> |bytes| <= 102400 && forall s :: bytes != Encode(s)
  {
    Encode64Decodes(bytes);
    NotDecodedIff(bytes);
  }

  lemma LinkErrorIff(lib: Library, link: string)
    ensures DecodeLink(lib, link) == Err(NotAUrl) <==> lib.parse(link).None?
    ensures DecodeLink(lib, link) == Err(NotASkillLink) <==>
              lib.parse(link).Some? && var url := lib.parse(link).value; !(url.scheme in ["orion", "zed"] && url.host == Some("skill"))
    ensures DecodeLink(lib, link) == Err(MissingData) <==>
              && lib.parse(link).Some?
              && var url := lib.parse(link).value;
                 && url.scheme in ["orion", "zed"] && url.host == Some("skill")
                 && (url.query.Some? ==> FindParam(lib, url.query.value, "data") == None)
  {
  }

  lemma LinkShowsPayload(content: string)
    ensures EncodeLink(content) == "orion" + "://" + "skill" + "?" + "data" + "=" + Payload(content)
  {
    EncodedDigits(Encode(content));
    PlainBytes(Payload(content));
    PlainFormEncode(Encode(Payload(content)));
    assert FormEncode(Encode(Payload(content))) == Payload(content);
  }

  /** Different contents never share a link. */
  lemma LinksDistinguish(a: string, b: string)
    ensures EncodeLink(a) == EncodeLink(b) <==> a == b
  {
    LinkShowsPayload(a);
    LinkShowsPayload(b);
    if EncodeLink(a) == EncodeLink(b) {
      var prefix := SCHEME + "://" + HOST + "?" + DATA_PARAM + "=";
      assert (prefix + Payload(a))[|prefix|..] == Payload(a);
      assert (prefix + Payload(b))[|prefix|..] == Payload(b);
      Encode64Decodes(Encode(a));
      Encode64Decodes(Encode(b));
      EncodeThenDecode(a);
      EncodeThenDecode(b);
    }
  }
}
