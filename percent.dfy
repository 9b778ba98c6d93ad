/** Percent-decoding as `urllib.unquote` of Python 2 does it (section 2.1 of
    RFC 3986): `%` followed by two hexadecimal digits becomes that octet, any
    other `%` is kept as it is. `Quote` is the matching encoder (as
    `urllib.quote` with its default safe set), given here as the inverse. */
module Percent {
  import opened PyText

  predicate IsHex(ch: char) {
    ('0' <= ch <= '9') || ('a' <= ch <= 'f') || ('A' <= ch <= 'F')
  }

  function HexValue(ch: char): (v: nat)
    requires IsHex(ch)
    ensures v < 16
  {
    if '0' <= ch <= '9' then ch as int - '0' as int
    else if 'a' <= ch <= 'f' then ch as int - 'a' as int + 10
    else ch as int - 'A' as int + 10
  }

  /** `urllib.unquote(s)`. */
  function Unquote(s: string): (r: string)
    ensures |r| <= |s|
    ensures '%' !in s ==> r == s
    decreases |s|
  {
    if |s| == 0 then ""
    else if s[0] == '%' && |s| >= 3 && IsHex(s[1]) && IsHex(s[2]) then
      [(16 * HexValue(s[1]) + HexValue(s[2])) as char] + Unquote(s[3..])
    else
      assert s[0] != '%' ==> '%' !in s[1..] || '%' in s;
      [s[0]] + Unquote(s[1..])
  }

  /** The characters `urllib.quote` leaves alone: letters, digits, `_.-` and `/`. */
  predicate IsSafe(ch: char) {
    ('a' <= ch <= 'z') || ('A' <= ch <= 'Z') || ('0' <= ch <= '9')
    || ch == '_' || ch == '.' || ch == '-' || ch == '/'
  }

  function HexDigit(n: nat): (ch: char)
    requires n < 16
    ensures IsHex(ch) && HexValue(ch) == n
  {
    if n < 10 then ('0' as int + n) as char else ('A' as int + n - 10) as char
  }

  predicate IsOctets(s: string) {
    forall i :: 0 <= i < |s| ==> s[i] as int < 256
  }

  function QuoteChar(ch: char): (r: string)
    requires ch as int < 256
  {
    if IsSafe(ch) then [ch]
    else ['%', HexDigit(ch as int / 16), HexDigit(ch as int % 16)]
  }

  /** `urllib.quote(s)`: every octet outside the safe set as `%XX`. */
  function Quote(s: string): (r: string)
    requires IsOctets(s)
    ensures forall i :: 0 <= i < |r| ==> r[i] == '%' || IsSafe(r[i]) || IsHex(r[i])
  {
    if |s| == 0 then "" else QuoteChar(s[0]) + Quote(s[1..])
  }

  /** Decoding the encoding of one octet yields that octet and leaves the rest. */
  lemma UnquoteQuoteChar(c: char, rest: string)
    requires c as int < 256
    ensures Unquote(QuoteChar(c) + rest) == [c] + Unquote(rest)
  {
    var q := QuoteChar(c) + rest;
    if IsSafe(c) {
      assert q[0] == c && q[1..] == rest;
    } else {
      var hi, lo := HexDigit(c as int / 16), HexDigit(c as int % 16);
      assert q[0] == '%' && q[1] == hi && q[2] == lo && q[3..] == rest;
      assert 16 * (c as int / 16) + c as int % 16 == c as int;
      assert (16 * HexValue(hi) + HexValue(lo)) as char == c;
    }
  }

  /** Decoding undoes encoding: `unquote(quote(x)) == x`. */
  lemma {:induction false} UnquoteQuote(s: string)
    requires IsOctets(s)
    ensures Unquote(Quote(s)) == s
    decreases |s|
  {
    if |s| > 0 {
      UnquoteQuote(s[1..]);
      UnquoteQuoteChar(s[0], Quote(s[1..]));
    }
  }
}
