/** Percent-encoding of query components in the style of section 2.1 of
    RFC 3986, as `urllib.parse` does it: `quote` (safe `/`), `quote_plus`
    (safe nothing, space becomes `+`), `unquote` and `unquote_plus`. Every
    character outside the always-safe set is written as `%XX` per byte of
    its UTF-8 form, with upper-case hex digits. */
module Percent {
  import opened Base
  import Utf8

  /** Letters, digits and `_.-~`: never escaped. */
  predicate AlwaysSafe(c: char) {
    ('A' <= c <= 'Z') || ('a' <= c <= 'z') || ('0' <= c <= '9') || c == '_' || c == '.' || c == '-' || c == '~'
  }

  predicate IsHex(c: char) {
    ('0' <= c <= '9') || ('A' <= c <= 'F') || ('a' <= c <= 'f')
  }

  function HexDigit(d: nat): (c: char)
    requires d < 16
    ensures IsHex(c)
  {
    "0123456789ABCDEF"[d]
  }

  function HexValue(c: char): (d: nat)
    requires IsHex(c)
    ensures d < 16
  {
    if '0' <= c <= '9' then c as int - '0' as int
    else if 'A' <= c <= 'F' then c as int - 'A' as int + 10
    else c as int - 'a' as int + 10
  }

  lemma HexValueDigit(d: nat)
    requires d < 16
    ensures HexValue(HexDigit(d)) == d
  {
  }

  /** `%XX` for every byte. */
  function EscapeBytes(bs: Bytes): (s: string)
    ensures |s| == 3 * |bs|
    decreases |bs|
  {
    if |bs| == 0 then ""
    else ['%', HexDigit(bs[0] / 16), HexDigit(bs[0] % 16)] + EscapeBytes(bs[1..])
  }

  /** The characters `quote` (`plus` false, safe `/`) or `quote_plus`
      (`plus` true, safe nothing) can emit. */
  predicate Emitted(c: char, plus: bool) {
    AlwaysSafe(c) || c == '%' || (!plus && c == '/') || (plus && c == '+')
  }

  function QuoteChar(c: char, plus: bool): string {
    if AlwaysSafe(c) || (!plus && c == '/') then [c]
    else if plus && c == ' ' then "+"
    else EscapeBytes(Utf8.EncodeChar(c))
  }

  /** `quote(s, safe='/')` when `plus` is false, `quote_plus(s, safe='')`
      when it is true. The output holds no separator of a query string
      (`&`, `=`, `#`, a space), nor `?` unless it was safe to leave it. */
  function QuoteWith(s: string, plus: bool): (r: string)
    ensures forall i :: 0 <= i < |r| ==> Emitted(r[i], plus)
    ensures |r| >= |s|
    ensures r == "" <==> s == ""
    decreases |s|
  {
    if |s| == 0 then ""
    else
      var head := QuoteChar(s[0], plus);
      assert forall i :: 0 <= i < |head| ==> Emitted(head[i], plus) by {
        EscapeEmitted(Utf8.EncodeChar(s[0]), plus);
      }
      head + QuoteWith(s[1..], plus)
  }

  /** An escape is `%` and hex digits only. */
  lemma {:induction false} EscapeEmitted(bs: Bytes, plus: bool)
    ensures forall i :: 0 <= i < |EscapeBytes(bs)| ==> EscapeBytes(bs)[i] == '%' || IsHex(EscapeBytes(bs)[i])
    ensures forall i :: 0 <= i < |EscapeBytes(bs)| ==> Emitted(EscapeBytes(bs)[i], plus)
    decreases |bs|
  {
    if |bs| > 0 {
      EscapeEmitted(bs[1..], plus);
    }
  }

  /** A quoted string holds none of the query separators `&`, `=`, `#`. */
  lemma QuoteOmits(s: string, plus: bool)
    ensures var r := QuoteWith(s, plus); '&' !in r && '=' !in r && '#' !in r
  {
    var r := QuoteWith(s, plus);
    forall i | 0 <= i < |r| ensures r[i] != '&' && r[i] != '=' && r[i] != '#' {
      assert Emitted(r[i], plus);
    }
  }

  /** Only letters, digits and `_.-~`. */
  predicate Unreserved(s: string) {
    forall i :: 0 <= i < |s| ==> AlwaysSafe(s[i])
  }

  /** `quote` and `quote_plus` leave unreserved text as it is. */
  lemma {:induction false} QuoteUnreserved(s: string, plus: bool)
    requires Unreserved(s)
    ensures QuoteWith(s, plus) == s
    decreases |s|
  {
    if |s| > 0 {
      QuoteUnreserved(s[1..], plus);
      assert s == [s[0]] + s[1..];
    }
  }

  function Quote(s: string): string {
    QuoteWith(s, false)
  }

  function QuotePlus(s: string): string {
    QuoteWith(s, true)
  }

  /** `unquote_to_bytes`: `%XX` with two hex digits becomes that byte; any
      other character (a lone `%` included) stands for its UTF-8 bytes. */
  function UnquoteToBytes(s: string): Bytes
    decreases |s|
  {
    if |s| == 0 then []
    else if s[0] == '%' && |s| >= 3 && IsHex(s[1]) && IsHex(s[2]) then
      [HexValue(s[1]) * 16 + HexValue(s[2])] + UnquoteToBytes(s[3..])
    else Utf8.EncodeChar(s[0]) + UnquoteToBytes(s[1..])
  }

  /** `unquote(s)`, decoding with replacement characters. */
  function Unquote(s: string): string {
    Utf8.Decode(UnquoteToBytes(s))
  }

  /** `s.replace('+', ' ')` */
  function PlusToSpace(s: string): (r: string)
    ensures |r| == |s|
    ensures forall i :: 0 <= i < |s| ==> r[i] == (if s[i] == '+' then ' ' else s[i])
  {
    seq(|s|, i requires 0 <= i < |s| => if s[i] == '+' then ' ' else s[i])
  }

  /** `unquote_plus(s)` */
  function UnquotePlus(s: string): string {
    Unquote(PlusToSpace(s))
  }

  /** The two hex digits of a byte read back to that byte. */
  lemma ByteDigits(b: Byte)
    ensures HexValue(HexDigit(b / 16)) * 16 + HexValue(HexDigit(b % 16)) == b
  {
    HexValueDigit(b / 16);
    HexValueDigit(b % 16);
  }

  /** One `%XX` escape read back to its byte. */
  lemma UnquoteEscape(b: Byte, rest: string)
    ensures UnquoteToBytes(['%', HexDigit(b / 16), HexDigit(b % 16)] + rest) == [b] + UnquoteToBytes(rest)
  {
    var s := ['%', HexDigit(b / 16), HexDigit(b % 16)] + rest;
    ByteDigits(b);
    assert s[0] == '%' && s[1] == HexDigit(b / 16) && s[2] == HexDigit(b % 16);
    assert s[3..] == rest;
  }

  lemma {:induction false} EscapeToBytes(bs: Bytes, rest: string)
    ensures UnquoteToBytes(EscapeBytes(bs) + rest) == bs + UnquoteToBytes(rest)
    decreases |bs|
  {
    if |bs| > 0 {
      EscapeStep(bs, rest);
      EscapeToBytes(bs[1..], rest);
      assert bs == [bs[0]] + bs[1..];
    } else {
      assert EscapeBytes(bs) + rest == rest;
    }
  }

  /** The first escape of a byte string reads back to its first byte. */
  lemma EscapeStep(bs: Bytes, rest: string)
    requires |bs| > 0
    ensures UnquoteToBytes(EscapeBytes(bs) + rest) == [bs[0]] + UnquoteToBytes(EscapeBytes(bs[1..]) + rest)
  {
    var b := bs[0];
    var tail := EscapeBytes(bs[1..]) + rest;
    assert EscapeBytes(bs) + rest == ['%', HexDigit(b / 16), HexDigit(b % 16)] + tail;
    UnquoteEscape(b, tail);
  }

  lemma PlusToSpaceAppend(a: string, b: string)
    ensures PlusToSpace(a + b) == PlusToSpace(a) + PlusToSpace(b)
  {
  }

  /** One quoted character, read back to bytes, is that character's UTF-8. */
  lemma QuotedCharBytes(c: char, plus: bool, rest: string)
    ensures UnquoteToBytes(PlusToSpace(QuoteChar(c, plus)) + rest) == Utf8.EncodeChar(c) + UnquoteToBytes(rest)
  {
    if AlwaysSafe(c) || (!plus && c == '/') || (plus && c == ' ') {
      var h := if plus && c == ' ' then ' ' else c;
      assert PlusToSpace(QuoteChar(c, plus)) == [h];
      assert ([h] + rest)[1..] == rest;
    } else {
      var e := EscapeBytes(Utf8.EncodeChar(c));
      EscapeEmitted(Utf8.EncodeChar(c), plus);
      assert PlusToSpace(e) == e;
      EscapeToBytes(Utf8.EncodeChar(c), rest);
    }
  }

  /** What `unquote_plus` sees of a quoted string, read back to bytes, is the
      UTF-8 of the original. */
  lemma {:induction false} QuotedBytes(s: string, plus: bool)
    ensures UnquoteToBytes(PlusToSpace(QuoteWith(s, plus))) == Utf8.Encode(s)
    decreases |s|
  {
    if |s| > 0 {
      var head := QuoteChar(s[0], plus);
      var tail := QuoteWith(s[1..], plus);
      PlusToSpaceAppend(head, tail);
      QuotedCharBytes(s[0], plus, PlusToSpace(tail));
      QuotedBytes(s[1..], plus);
    } else {
      assert PlusToSpace("") == "";
    }
  }

  /** `unquote_plus(quote_plus(s)) == s` and `unquote_plus(quote(s)) == s`. */
  lemma QuoteRoundTrip(s: string, plus: bool)
    ensures UnquotePlus(QuoteWith(s, plus)) == s
  {
    QuotedBytes(s, plus);
    Utf8.DecodeEncode(s);
  }

  /** `quote` never emits `+`, so `unquote` and `unquote_plus` agree on its
      output, and `unquote(quote(s)) == s`. */
  lemma UnquoteQuote(s: string)
    ensures PlusToSpace(Quote(s)) == Quote(s)
    ensures Unquote(Quote(s)) == s
  {
    var q := Quote(s);
    assert forall i :: 0 <= i < |q| ==> q[i] != '+' by {
      forall i | 0 <= i < |q| ensures q[i] != '+' {
        assert Emitted(q[i], false);
      }
    }
    assert PlusToSpace(q) == q;
    QuoteRoundTrip(s, false);
  }

  /** Quoting is injective: distinct strings never quote alike. */
  lemma QuoteInjective(s: string, t: string, plus: bool)
    requires QuoteWith(s, plus) == QuoteWith(t, plus)
    ensures s == t
  {
    QuoteRoundTrip(s, plus);
    QuoteRoundTrip(t, plus);
  }
}
