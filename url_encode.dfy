/**
 * Query-string encoding as `urlencode` does it with its default `quote_plus`:
 * text is encoded to UTF-8, unreserved bytes (section 2.3 of RFC 3986) stay as
 * they are, a space becomes "+", and every other byte becomes "%XY"
 * (section 2.1 of RFC 3986, upper-case hex digits).
 */
module UrlEncode {
  import opened Basics
  import opened Text

  newtype byte = x: int | 0 <= x < 256

  /** The UTF-8 encoding of one Unicode scalar value. */
  function Utf8Char(c: char): (bs: seq<byte>)
    ensures 1 <= |bs| <= 4
    ensures |bs| == 1 <==> c as int < 0x80
    ensures |bs| == 1 ==> bs[0] as int == c as int
  {
    var n := c as int;
    if n < 0x80 then [n as byte]
    else if n < 0x800 then [(0xC0 + n / 64) as byte, (0x80 + n % 64) as byte]
    else if n < 0x10000 then
      [(0xE0 + n / 4096) as byte, (0x80 + (n / 64) % 64) as byte, (0x80 + n % 64) as byte]
    else
      [(0xF0 + n / 262144) as byte, (0x80 + (n / 4096) % 64) as byte,
       (0x80 + (n / 64) % 64) as byte, (0x80 + n % 64) as byte]
  }

  /** `s.encode("utf-8")`. */
  function Utf8(s: string): seq<byte> {
    if s == [] then [] else Utf8Char(s[0]) + Utf8(s[1..])
  }

  /** Letters, digits and `_.-~`: the bytes `quote` never escapes. */
  predicate Unreserved(b: byte) {
    || (b as int >= 'A' as int && b as int <= 'Z' as int)
    || (b as int >= 'a' as int && b as int <= 'z' as int)
    || (b as int >= '0' as int && b as int <= '9' as int)
    || b as int == '_' as int || b as int == '.' as int || b as int == '-' as int || b as int == '~' as int
  }

  predicate UnreservedChar(c: char) {
    c as int < 0x80 && Unreserved(c as int as byte)
  }

  function HexDigit(d: int): (c: char)
    requires 0 <= d < 16
    ensures UnreservedChar(c) && c != '%' && c != '+'
    ensures HexValue(c) == Some(d)
  {
    if d < 10 then ('0' as int + d) as char else ('A' as int + d - 10) as char
  }

  function HexValue(c: char): Option<int> {
    if '0' <= c <= '9' then Some(c as int - '0' as int)
    else if 'A' <= c <= 'F' then Some(c as int - 'A' as int + 10)
    else if 'a' <= c <= 'f' then Some(c as int - 'a' as int + 10)
    else None
  }

  /** How `quote_plus` writes one byte. */
  function QuoteByte(b: byte): (s: string)
    ensures forall k :: 0 <= k < |s| ==> UnreservedChar(s[k]) || s[k] == '%' || s[k] == '+'
  {
    if Unreserved(b) then [b as int as char]
    else if b == 0x20 then "+"
    else ['%', HexDigit(b as int / 16), HexDigit(b as int % 16)]
  }

  function QuoteBytes(bs: seq<byte>): (s: string)
    ensures forall k :: 0 <= k < |s| ==> UnreservedChar(s[k]) || s[k] == '%' || s[k] == '+'
  {
    if bs == [] then []
    else
      var head, tail := QuoteByte(bs[0]), QuoteBytes(bs[1..]);
      assert forall k :: |head| <= k < |head| + |tail| ==> (head + tail)[k] == tail[k - |head|];
      head + tail
  }

  /**
   * `quote_plus(s)`: the result holds only unreserved characters, "%" and "+", so
   * never a query-string separator ("&", "="), a fragment mark or a space.
   */
  function QuotePlus(s: string): (r: string)
    ensures forall k :: 0 <= k < |r| ==> UnreservedChar(r[k]) || r[k] == '%' || r[k] == '+'
    ensures '&' !in r && '=' !in r && '#' !in r && ' ' !in r
  {
    QuoteBytes(Utf8(s))
  }

  /** `unquote_to_bytes` after "+" is read as a space: the inverse of `QuoteBytes`. */
  function UnquotePlus(s: string): Option<seq<byte>>
    decreases |s|
  {
    if s == [] then Some([])
    else if s[0] == '%' then
      if |s| >= 3 && HexValue(s[1]).Some? && HexValue(s[2]).Some? then
        var rest := UnquotePlus(s[3..]);
        if rest.Some? then Some([(HexValue(s[1]).value * 16 + HexValue(s[2]).value) as byte] + rest.value) else None
      else None
    else if s[0] == '+' then
      var rest := UnquotePlus(s[1..]);
      if rest.Some? then Some([0x20] + rest.value) else None
    else if s[0] as int < 0x80 then
      var rest := UnquotePlus(s[1..]);
      if rest.Some? then Some([s[0] as int as byte] + rest.value) else None
    else None
  }

  lemma UnquoteEscaped(b: byte, rest: string)
    requires !Unreserved(b) && b != 0x20
    ensures UnquotePlus(QuoteByte(b) + rest) ==
              if UnquotePlus(rest).Some? then Some([b] + UnquotePlus(rest).value) else None
  {
    var hi, lo := b as int / 16, b as int % 16;
    var s := QuoteByte(b) + rest;
    assert s[0] == '%' && s[1] == HexDigit(hi) && s[2] == HexDigit(lo) && s[3..] == rest;
    assert (hi * 16 + lo) as byte == b;
  }

  lemma UnquoteByte(b: byte, rest: string)
    ensures UnquotePlus(QuoteByte(b) + rest) ==
              if UnquotePlus(rest).Some? then Some([b] + UnquotePlus(rest).value) else None
  {
    var s := QuoteByte(b) + rest;
    if Unreserved(b) {
      assert s[0] == b as int as char && s[1..] == rest;
    } else if b == 0x20 {
      assert s[0] == '+' && s[1..] == rest;
    } else {
      UnquoteEscaped(b, rest);
    }
  }

  /** Decoding the encoded bytes gives them back. */
  lemma {:induction false} UnquoteQuoteBytes(bs: seq<byte>)
    ensures UnquotePlus(QuoteBytes(bs)) == Some(bs)
  {
    if bs != [] {
      UnquoteQuoteBytes(bs[1..]);
      UnquoteByte(bs[0], QuoteBytes(bs[1..]));
      assert [bs[0]] + bs[1..] == bs;
    }
  }

  /** `unquote_plus(quote_plus(q))` recovers the UTF-8 bytes of `q`. */
  lemma QuotePlusRoundTrip(q: string)
    ensures UnquotePlus(QuotePlus(q)) == Some(Utf8(q))
  {
    UnquoteQuoteBytes(Utf8(q));
  }

  /** `str(n)` for an integer. */
  function DecimalString(n: int): (s: string)
    ensures |s| > 0
    ensures forall k :: 0 <= k < |s| ==> ('0' <= s[k] <= '9') || s[k] == '-'
    ensures n >= 0 ==> forall k :: 0 <= k < |s| ==> '0' <= s[k] <= '9'
    decreases if n < 0 then 1 - n else n
  {
    if n < 0 then "-" + DecimalString(-n)
    else if n < 10 then [('0' as int + n) as char]
    else
      var head, tail := DecimalString(n / 10), [('0' as int + n % 10) as char];
      assert forall k :: 0 <= k < |head| ==> (head + tail)[k] == head[k];
      head + tail
  }

  /** `int(s)` for what `str` writes: an optional "-" and decimal digits. */
  function ParseDecimal(s: string): Option<int> {
    if |s| > 0 && IsDigits(s) then Some(DigitsValue(s) as int)
    else if |s| > 1 && s[0] == '-' && IsDigits(s[1..]) then Some(0 - DigitsValue(s[1..]))
    else None
  }

  lemma {:induction false} DigitsOfDecimal(n: nat)
    ensures IsDigits(DecimalString(n)) && DigitsValue(DecimalString(n)) == n
    decreases n
  {
    if n >= 10 {
      DigitsOfDecimal(n / 10);
      var s := DecimalString(n);
      assert s[..|s| - 1] == DecimalString(n / 10);
    }
  }

  /** `int(str(n)) == n`. */
  lemma DecimalRoundTrip(n: int)
    ensures ParseDecimal(DecimalString(n)) == Some(n)
  {
    if n >= 0 {
      DigitsOfDecimal(n);
    } else {
      DigitsOfDecimal(-n);
      ParseNegative(DecimalString(n), DecimalString(-n), -n);
    }
  }

  /** A "-" before decimal digits reads as the negated value. */
  lemma ParseNegative(s: string, t: string, m: nat)
    requires s == "-" + t && |t| > 0 && IsDigits(t) && DigitsValue(t) == m
    ensures ParseDecimal(s) == Some(-(m as int))
  {
    assert s[0] == '-' && !IsDigit(s[0]) && s[1..] == t;
  }
}
