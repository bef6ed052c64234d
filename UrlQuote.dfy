/**
 * `urllib.parse.quote` with its default `safe='/'`: percent-encoding as in
 * section 2.1 of RFC 3986. Letters, digits, `_ . - ~` and `/` are kept; every
 * other character is UTF-8 encoded and each byte written as `%` followed by two
 * upper-case hexadecimal digits. `PercentDecode` is `unquote_to_bytes`, the
 * inverse at the byte level.
 */
module UrlQuote {
  import opened Wrappers
  import opened PyStr

  type Byte = b: int | 0 <= b < 256

  /** The characters `quote` never encodes: RFC 3986 unreserved, plus `/`. */
  predicate KeptByQuote(c: char) {
    ('A' <= c <= 'Z') || ('a' <= c <= 'z') || ('0' <= c <= '9')
    || c == '_' || c == '.' || c == '-' || c == '~' || c == '/'
  }

  /** The UTF-8 encoding of one Unicode scalar value. */
  function Utf8(c: char): (bs: seq<Byte>)
    ensures 1 <= |bs| <= 4
    ensures c as int < 0x80 <==> |bs| == 1
    ensures c as int < 0x80 ==> bs == [c as int]
  {
    var cp := c as int;
    if cp < 0x80 then [cp]
    else if cp < 0x800 then [0xC0 + cp / 0x40, 0x80 + cp % 0x40]
    else if cp < 0x1_0000 then [0xE0 + cp / 0x1000, 0x80 + (cp / 0x40) % 0x40, 0x80 + cp % 0x40]
    else [0xF0 + cp / 0x4_0000, 0x80 + (cp / 0x1000) % 0x40, 0x80 + (cp / 0x40) % 0x40, 0x80 + cp % 0x40]
  }

  /** `s.encode("utf-8")`. */
  function Utf8String(s: String): seq<Byte> {
    if s == [] then [] else Utf8(s[0]) + Utf8String(s[1..])
  }

  predicate IsHexUpper(c: char) {
    ('0' <= c <= '9') || ('A' <= c <= 'F')
  }

  function HexDigit(d: nat): (c: char)
    requires d < 16
    ensures IsHexUpper(c)
  {
    if d < 10 then ('0' as int + d) as char else ('A' as int + d - 10) as char
  }

  /** The value of a hexadecimal digit of either case, as `unquote` reads it. */
  function HexValue(c: char): Option<nat> {
    if '0' <= c <= '9' then Some(c as int - '0' as int)
    else if 'A' <= c <= 'F' then Some(c as int - 'A' as int + 10)
    else if 'a' <= c <= 'f' then Some(c as int - 'a' as int + 10)
    else None
  }

  lemma HexRoundTrip(d: nat)
    requires d < 16
    ensures HexValue(HexDigit(d)) == Some(d)
  {
  }

  /** `%XX` for one byte. */
  function PercentByte(b: Byte): (r: String)
    ensures |r| == 3 && r[0] == '%' && IsHexUpper(r[1]) && IsHexUpper(r[2])
  {
    ['%', HexDigit(b / 16), HexDigit(b % 16)]
  }

  function PercentBytes(bs: seq<Byte>): String {
    if bs == [] then [] else PercentByte(bs[0]) + PercentBytes(bs[1..])
  }

  /** The characters `quote` may emit. */
  predicate InQuoteAlphabet(c: char) {
    KeptByQuote(c) || c == '%' || IsHexUpper(c)
  }

  function QuoteChar(c: char): String {
    if KeptByQuote(c) then [c] else PercentBytes(Utf8(c))
  }

  /** `urllib.parse.quote(s)`. */
  function Quote(s: String): (r: String)
    ensures |r| >= |s|
  {
    if s == [] then [] else QuoteChar(s[0]) + Quote(s[1..])
  }

  /** Quoting only ever produces unreserved characters, `/`, `%` and
      upper-case hexadecimal digits. */
  lemma {:induction false} QuoteAlphabet(s: String)
    ensures forall k | 0 <= k < |Quote(s)| :: InQuoteAlphabet(Quote(s)[k])
  {
    if s != [] {
      QuoteCharAlphabet(s[0]);
      QuoteAlphabet(s[1..]);
      var q := QuoteChar(s[0]);
      assert forall k | |q| <= k < |Quote(s)| :: Quote(s)[k] == Quote(s[1..])[k - |q|];
    }
  }

  lemma {:induction false} PercentBytesAlphabet(bs: seq<Byte>)
    ensures forall k | 0 <= k < |PercentBytes(bs)| :: InQuoteAlphabet(PercentBytes(bs)[k])
  {
    if bs != [] {
      PercentBytesAlphabet(bs[1..]);
    }
  }

  lemma QuoteCharAlphabet(c: char)
    ensures forall k | 0 <= k < |QuoteChar(c)| :: InQuoteAlphabet(QuoteChar(c)[k])
  {
    if !KeptByQuote(c) {
      PercentBytesAlphabet(Utf8(c));
    }
  }

  /** No character that ends or splits a URL component survives quoting: no
      blank, `?`, `&`, `#`, `,`, `=` or braces. */
  lemma QuoteHasNoDelimiters(s: String)
    ensures forall k | 0 <= k < |Quote(s)| :: Quote(s)[k] !in " ?&#,={}"
  {
    QuoteAlphabet(s);
  }

  /** Text made only of kept characters is its own quotation. */
  lemma {:induction false} QuoteKeeps(s: String)
    requires forall k | 0 <= k < |s| :: KeptByQuote(s[k])
    ensures Quote(s) == s
  {
    if s != [] {
      QuoteKeeps(s[1..]);
    }
  }

  /** `urllib.parse.unquote_to_bytes(s)`: `%` with two hexadecimal digits is
      one byte; every other character stands for its UTF-8 bytes. */
  function PercentDecode(s: String): seq<Byte> {
    if s == [] then []
    else if s[0] == '%' && |s| >= 3 && HexValue(s[1]).Some? && HexValue(s[2]).Some? then
      [HexValue(s[1]).value * 16 + HexValue(s[2]).value] + PercentDecode(s[3..])
    else Utf8(s[0]) + PercentDecode(s[1..])
  }

  lemma {:induction false} DecodePercentBytes(bs: seq<Byte>, rest: String)
    ensures PercentDecode(PercentBytes(bs) + rest) == bs + PercentDecode(rest)
  {
    if bs != [] {
      var b := bs[0];
      var s := PercentBytes(bs) + rest;
      HexRoundTrip(b / 16);
      HexRoundTrip(b % 16);
      assert s == PercentByte(b) + (PercentBytes(bs[1..]) + rest);
      assert s[3..] == PercentBytes(bs[1..]) + rest;
      DecodePercentBytes(bs[1..], rest);
      assert bs == [b] + bs[1..];
    } else {
      assert PercentBytes(bs) + rest == rest;
    }
  }

  /** Decoding what `quote` produced gives back the UTF-8 bytes of the input:
      the quoted name loses nothing. */
  lemma {:induction false} DecodeQuote(s: String)
    ensures PercentDecode(Quote(s)) == Utf8String(s)
  {
    if s != [] {
      var c := s[0];
      DecodeQuote(s[1..]);
      if KeptByQuote(c) {
        assert Quote(s) == [c] + Quote(s[1..]);
        assert ([c] + Quote(s[1..]))[1..] == Quote(s[1..]);
      } else {
        DecodePercentBytes(Utf8(c), Quote(s[1..]));
      }
    }
  }

  /** Quoting is compositional: the quotation of a concatenation is the
      concatenation of the quotations. */
  lemma {:induction false} QuoteConcat(s: String, t: String)
    ensures Quote(s + t) == Quote(s) + Quote(t)
  {
    if s != [] {
      assert (s + t)[0] == s[0] && (s + t)[1..] == s[1..] + t;
      QuoteConcat(s[1..], t);
    } else {
      assert s + t == t;
    }
  }

  /** A blank is quoted as `%20`. */
  lemma QuoteBlank()
    ensures Quote(" ") == "%20"
  {
    assert PercentBytes([32]) == "%20" by {
      assert PercentByte(32) == "%20";
    }
  }
}
