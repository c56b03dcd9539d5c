/** Percent-encoding as Python's `urllib.parse.quote` does it (section 2.1 of
    RFC 3986): text is encoded as UTF-8, the unreserved characters and the
    caller's safe ASCII characters stay literal, and every other byte becomes
    `%` and two upper-case hex digits. `Unquote` is
    `urllib.parse.unquote_to_bytes`, the inverse. */
module Percent {
  import opened Wrappers

  type Byte = b: int | 0 <= b < 256

  // ---------------------------------------------------------------------
  // UTF-8

  predicate Continuation(b: int) {
    0x80 <= b < 0xC0
  }

  /** The UTF-8 encoding of one code point. */
  function Utf8Char(c: char): (r: seq<Byte>)
    ensures 1 <= |r| <= 4
    ensures |r| == 1 <==> c as int < 0x80
    ensures |r| == 1 ==> r[0] == c as int
    ensures forall i :: 1 <= i < |r| ==> Continuation(r[i])
    ensures |r| == LeadLength(r[0])
  {
    var n := c as int;
    var q1 := n / 0x40;
    var q2 := q1 / 0x40;
    var q3 := q2 / 0x40;
    if n < 0x80 then [n]
    else if n < 0x800 then [0xC0 + q1, 0x80 + n % 0x40]
    else if n < 0x10000 then [0xE0 + q2, 0x80 + q1 % 0x40, 0x80 + n % 0x40]
    else [0xF0 + q3, 0x80 + q2 % 0x40, 0x80 + q1 % 0x40, 0x80 + n % 0x40]
  }

  /** How many bytes a sequence starting with `b` takes. */
  function LeadLength(b: Byte): nat {
    if b < 0x80 then 1 else if b < 0xE0 then 2 else if b < 0xF0 then 3 else 4
  }

  function Utf8(s: string): (r: seq<Byte>)
    ensures |r| >= |s|
  {
    if s == [] then [] else Utf8Char(s[0]) + Utf8(s[1..])
  }

  /** The code point a sequence of `LeadLength` bytes stands for. */
  function CodePoint(bs: seq<Byte>): int
    requires 1 <= |bs| <= 4
  {
    var b0: int := bs[0];
    if |bs| == 1 then b0
    else
      var b1: int := bs[1];
      if |bs| == 2 then (b0 - 0xC0) * 0x40 + (b1 - 0x80)
      else
        var b2: int := bs[2];
        if |bs| == 3 then (b0 - 0xE0) * 0x1000 + (b1 - 0x80) * 0x40 + (b2 - 0x80)
        else
          var b3: int := bs[3];
          (b0 - 0xF0) * 0x40000 + (b1 - 0x80) * 0x1000 + (b2 - 0x80) * 0x40 + (b3 - 0x80)
  }

  predicate ScalarValue(n: int) {
    0 <= n < 0xD800 || 0xE000 <= n < 0x11_0000
  }

  /** Strict UTF-8 decoding: a sequence that is cut short, names no scalar
      value or is not the shortest encoding of its code point is rejected. */
  function DecodeUtf8(bs: seq<Byte>): (r: Option<string>)
    decreases |bs|
  {
    if bs == [] then Some([])
    else
      var n := LeadLength(bs[0]);
      if n > |bs| then None
      else
        var cp := CodePoint(bs[..n]);
        if !ScalarValue(cp) || Utf8Char(cp as char) != bs[..n] then None
        else match DecodeUtf8(bs[n..])
          case None => None
          case Some(rest) => Some([cp as char] + rest)
  }

  lemma Utf8CharCodePoint(c: char)
    ensures CodePoint(Utf8Char(c)) == c as int
  {
    var n := c as int;
    var q1 := n / 0x40;
    var q2 := q1 / 0x40;
    var q3 := q2 / 0x40;
    assert n == q1 * 0x40 + n % 0x40;
    assert q1 == q2 * 0x40 + q1 % 0x40;
    assert q2 == q3 * 0x40 + q2 % 0x40;
  }

  lemma {:induction false} DecodeUtf8Inverse(s: string)
    ensures DecodeUtf8(Utf8(s)) == Some(s)
    decreases |s|
  {
    if s != [] {
      var e := Utf8Char(s[0]);
      var bs := Utf8(s);
      assert bs == e + Utf8(s[1..]);
      assert bs[0] == e[0];
      assert bs[..|e|] == e;
      assert bs[|e|..] == Utf8(s[1..]);
      Utf8CharCodePoint(s[0]);
      DecodeUtf8Inverse(s[1..]);
      assert [s[0]] + s[1..] == s;
    }
  }

  /** Bytes that decode are the encoding of what they decode to. */
  lemma {:induction false} DecodeUtf8Encodes(bs: seq<Byte>)
    requires DecodeUtf8(bs).Some?
    ensures Utf8(DecodeUtf8(bs).value) == bs
    decreases |bs|
  {
    if bs != [] {
      var n, c := DecodeUtf8Step(bs);
      DecodeUtf8Encodes(bs[n..]);
      EncodesStep(bs, n, c, DecodeUtf8(bs[n..]).value);
    }
  }

  lemma EncodesStep(bs: seq<Byte>, n: nat, c: char, rest: string)
    requires 1 <= n <= |bs| && Utf8Char(c) == bs[..n] && Utf8(rest) == bs[n..]
    ensures Utf8([c] + rest) == bs
  {
    Utf8Cons(c, rest);
    assert bs == bs[..n] + bs[n..];
  }

  /** The first character decoded is the one the leading bytes encode. */
  lemma DecodeUtf8Step(bs: seq<Byte>) returns (n: nat, c: char)
    requires bs != [] && DecodeUtf8(bs).Some?
    ensures 1 <= n <= |bs| && Utf8Char(c) == bs[..n]
    ensures DecodeUtf8(bs[n..]).Some? && DecodeUtf8(bs).value == [c] + DecodeUtf8(bs[n..]).value
  {
    n := LeadLength(bs[0]);
    c := CodePoint(bs[..n]) as char;
  }

  lemma Utf8Cons(c: char, rest: string)
    ensures Utf8([c] + rest) == Utf8Char(c) + Utf8(rest)
  {
    var s := [c] + rest;
    assert s[0] == c && s[1..] == rest;
  }

  /** Different texts have different encodings. */
  lemma Utf8Injective(s: string, t: string)
    requires Utf8(s) == Utf8(t)
    ensures s == t
  {
    DecodeUtf8Inverse(s);
    DecodeUtf8Inverse(t);
  }

  // ---------------------------------------------------------------------
  // quote

  /** Letters, digits and `_.-~`, which `quote` never encodes. */
  predicate AlwaysSafe(c: char) {
    ('A' <= c <= 'Z') || ('a' <= c <= 'z') || ('0' <= c <= '9') || c == '_' || c == '.' || c == '-' || c == '~'
  }

  /** `quote` keeps the always-safe characters and the ASCII ones of `safe`;
      non-ASCII characters in `safe` are ignored. */
  predicate Literal(c: char, safe: set<char>) {
    AlwaysSafe(c) || (c in safe && c as int < 0x80)
  }

  /** The upper-case hex digit for `d`. */
  function HexDigit(d: nat): (c: char)
    requires d < 16
    ensures IsUpperHex(c)
  {
    if d < 10 then ('0' as int + d) as char else ('A' as int + d - 10) as char
  }

  predicate IsUpperHex(c: char) {
    ('0' <= c <= '9') || ('A' <= c <= 'F')
  }

  predicate IsHex(c: char) {
    ('0' <= c <= '9') || ('A' <= c <= 'F') || ('a' <= c <= 'f')
  }

  function HexValue(c: char): (n: nat)
    requires IsHex(c)
    ensures n < 16
  {
    if '0' <= c <= '9' then c as int - '0' as int
    else if 'A' <= c <= 'F' then c as int - 'A' as int + 10
    else c as int - 'a' as int + 10
  }

  /** A character that can appear in `quote`'s output. */
  predicate QuotedChar(c: char, safe: set<char>) {
    Literal(c, safe) || c == '%' || IsUpperHex(c)
  }

  /** `%XX` for one byte. */
  function PercentByte(b: Byte): (r: string)
    ensures |r| == 3 && r[0] == '%' && IsHex(r[1]) && IsHex(r[2])
    ensures HexValue(r[1]) * 16 + HexValue(r[2]) == b
    ensures forall i :: 0 <= i < 3 ==> r[i] == '%' || IsUpperHex(r[i])
  {
    ['%', HexDigit(b / 16), HexDigit(b % 16)]
  }

  function PercentBytes(bs: seq<Byte>): (r: string)
    ensures |r| == 3 * |bs|
    ensures forall i :: 0 <= i < |r| ==> r[i] == '%' || IsUpperHex(r[i])
  {
    if bs == [] then [] else PercentByte(bs[0]) + PercentBytes(bs[1..])
  }

  function QuoteChar(c: char, safe: set<char>): (r: string)
    ensures forall i :: 0 <= i < |r| ==> QuotedChar(r[i], safe)
  {
    if Literal(c, safe) then [c] else PercentBytes(Utf8Char(c))
  }

  /** `urllib.parse.quote(s, safe=...)`. */
  function Quote(s: string, safe: set<char>): (r: string)
    ensures forall i :: 0 <= i < |r| ==> QuotedChar(r[i], safe)
    ensures |r| >= |s|
  {
    if s == [] then [] else QuoteChar(s[0], safe) + Quote(s[1..], safe)
  }

  predicate AllLiteral(s: string, safe: set<char>) {
    forall i :: 0 <= i < |s| ==> Literal(s[i], safe)
  }

  /** A text of literal characters only is left as it is. */
  lemma {:induction false} QuoteLiteral(s: string, safe: set<char>)
    requires AllLiteral(s, safe)
    ensures Quote(s, safe) == s
    decreases |s|
  {
    if s != [] {
      QuoteLiteral(s[1..], safe);
    }
  }

  // ---------------------------------------------------------------------
  // unquote_to_bytes

  /** `urllib.parse.unquote_to_bytes`: `%` and two hex digits (either case)
      is a byte; anything else stands for its own UTF-8 encoding. */
  function Unquote(s: string): seq<Byte>
    decreases |s|
  {
    if s == [] then []
    else if |s| >= 3 && s[0] == '%' && IsHex(s[1]) && IsHex(s[2]) then
      [HexValue(s[1]) * 16 + HexValue(s[2])] + Unquote(s[3..])
    else Utf8Char(s[0]) + Unquote(s[1..])
  }

  lemma UnquotePercentByte(b: Byte, rest: string)
    ensures Unquote(PercentByte(b) + rest) == [b] + Unquote(rest)
  {
    var p := PercentByte(b);
    var s := p + rest;
    assert s[0] == p[0] && s[1] == p[1] && s[2] == p[2];
    assert s[3..] == rest;
  }

  lemma {:induction false} UnquotePercentBytes(bs: seq<Byte>, rest: string)
    ensures Unquote(PercentBytes(bs) + rest) == bs + Unquote(rest)
    decreases |bs|
  {
    if bs != [] {
      var tail := PercentBytes(bs[1..]) + rest;
      assert PercentBytes(bs) + rest == PercentByte(bs[0]) + tail;
      UnquotePercentByte(bs[0], tail);
      UnquotePercentBytes(bs[1..], rest);
      assert bs == [bs[0]] + bs[1..];
    } else {
      assert PercentBytes(bs) + rest == rest;
    }
  }

  lemma UnquoteQuoteChar(c: char, safe: set<char>, rest: string)
    requires '%' !in safe
    ensures Unquote(QuoteChar(c, safe) + rest) == Utf8Char(c) + Unquote(rest)
  {
    if Literal(c, safe) {
      var s := [c] + rest;
      assert s[0] == c && s[1..] == rest;
    } else {
      UnquotePercentBytes(Utf8Char(c), rest);
    }
  }

  /** Unquoting undoes quoting, down to the UTF-8 bytes, whenever `%` itself
      is not kept literal. */
  lemma {:induction false} UnquoteQuote(s: string, safe: set<char>)
    requires '%' !in safe
    ensures Unquote(Quote(s, safe)) == Utf8(s)
    decreases |s|
  {
    if s != [] {
      UnquoteQuoteChar(s[0], safe, Quote(s[1..], safe));
      UnquoteQuote(s[1..], safe);
    }
  }

  /** So quoting loses nothing: different texts quote differently. */
  lemma QuoteInjective(s: string, t: string, safe: set<char>)
    requires '%' !in safe
    requires Quote(s, safe) == Quote(t, safe)
    ensures s == t
  {
    UnquoteQuote(s, safe);
    UnquoteQuote(t, safe);
    Utf8Injective(s, t);
  }
}
