/** The base64url alphabet (section 5 of RFC 4648), as a bijection with 0..63. */
module Base64Url {

  function Digit(v: nat): (c: char)
    requires v < 64
  {
    if v < 26 then 'A' + v as char
    else if v < 52 then 'a' + (v - 26) as char
    else if v < 62 then '0' + (v - 52) as char
    else if v == 62 then '-'
    else '_'
  }

  predicate IsDigit(c: char) {
    'A' <= c <= 'Z' || 'a' <= c <= 'z' || '0' <= c <= '9' || c == '-' || c == '_'
  }

  function Value(c: char): (v: nat)
    requires IsDigit(c)
    ensures v < 64
  {
    if 'A' <= c <= 'Z' then c as nat - 'A' as nat
    else if 'a' <= c <= 'z' then c as nat - 'a' as nat + 26
    else if '0' <= c <= '9' then c as nat - '0' as nat + 52
    else if c == '-' then 62
    else 63
  }

  lemma DigitValue(v: nat)
    requires v < 64
    ensures IsDigit(Digit(v)) && Value(Digit(v)) == v
  {
  }

  lemma ValueDigit(c: char)
    requires IsDigit(c)
    ensures Digit(Value(c)) == c
  {
  }
}
