/** The `mailto:` URI builder (src/dseomn_website/iri.py), following RFC 6068:
    the address is percent-encoded with `@` kept, the headers and the body
    form the query, and every body line ends with CRLF as section 5 of
    RFC 6068 asks. */
module Iri {
  import opened Wrappers
  import opened Strings
  import opened Percent

  /** A header name and its value. */
  type Pair = (string, string)

  // ---------------------------------------------------------------------
  // The query dict: insertion-ordered pairs

  function Keys(q: seq<Pair>): (r: seq<string>)
    ensures |r| == |q| && forall i :: 0 <= i < |q| ==> r[i] == q[i].0
  {
    if q == [] then [] else [q[0].0] + Keys(q[1..])
  }

  predicate DistinctKeys(q: seq<Pair>) {
    forall i, j :: 0 <= i < j < |q| ==> q[i].0 != q[j].0
  }

  /** `q.get(k)`. */
  function Lookup(q: seq<Pair>, k: string): (r: Option<string>)
    ensures r.Some? <==> k in Keys(q)
  {
    if q == [] then None
    else if q[0].0 == k then Some(q[0].1)
    else Lookup(q[1..], k)
  }

  /** `q[k] = v`: a new key goes last, an existing one keeps its place. */
  function Assign(q: seq<Pair>, k: string, v: string): (r: seq<Pair>)
    ensures Keys(r) == if k in Keys(q) then Keys(q) else Keys(q) + [k]
  {
    if q == [] then [(k, v)]
    else if q[0].0 == k then [(k, v)] + q[1..]
    else
      var r := [q[0]] + Assign(q[1..], k, v);
      assert r[1..] == Assign(q[1..], k, v);
      r
  }

  /** After `q[k] = v`, `k` has value `v` and every other key keeps its
      value. */
  lemma {:induction false} AssignLookup(q: seq<Pair>, k: string, v: string, k': string)
    ensures Lookup(Assign(q, k, v), k') == if k' == k then Some(v) else Lookup(q, k')
    decreases |q|
  {
    if q != [] && q[0].0 != k {
      var r := Assign(q, k, v);
      assert r[0] == q[0] && r[1..] == Assign(q[1..], k, v);
      AssignLookup(q[1..], k, v, k');
    }
  }

  /** Keys stay distinct. */
  lemma AssignDistinct(q: seq<Pair>, k: string, v: string)
    requires DistinctKeys(q)
    ensures DistinctKeys(Assign(q, k, v))
  {
    var r := Assign(q, k, v);
    assert forall i :: 0 <= i < |r| ==> r[i].0 == Keys(r)[i];
  }

  /** `q.update(hs)`, one pair after another. */
  function UpdateAll(q: seq<Pair>, hs: seq<Pair>): seq<Pair>
    decreases |hs|
  {
    if hs == [] then q else UpdateAll(Assign(q, hs[0].0, hs[0].1), hs[1..])
  }

  /** The query dict `mailto` builds. */
  function QueryOf(headers: seq<Pair>, body: Option<string>): seq<Pair> {
    var q := UpdateAll([], headers);
    if body.Some? then Assign(q, "body", BodyValue(body.value)) else q
  }

  /** Builds the query dict step by step, as `mailto` does. */
  method BuildQuery(headers: seq<Pair>, body: Option<string>) returns (query: seq<Pair>)
    ensures query == QueryOf(headers, body)
  {
    query := [];
    var i := 0;
    while i < |headers|
      invariant 0 <= i <= |headers|
      invariant UpdateAll(query, headers[i..]) == UpdateAll([], headers)
    {
      assert headers[i..][1..] == headers[i + 1..];
      query := Assign(query, headers[i].0, headers[i].1);
      i := i + 1;
    }
    if body.Some? {
      query := Assign(query, "body", BodyValue(body.value));
    }
  }

  lemma {:induction false} UpdateAllFresh(q: seq<Pair>, hs: seq<Pair>)
    requires DistinctKeys(q + hs)
    ensures UpdateAll(q, hs) == q + hs
    decreases |hs|
  {
    if hs != [] {
      var k := hs[0].0;
      assert k !in Keys(q) by {
        forall i | 0 <= i < |q| ensures q[i].0 != k {
          assert (q + hs)[i] == q[i] && (q + hs)[|q|] == hs[0];
        }
      }
      AssignFresh(q, k, hs[0].1);
      assert (q + [hs[0]]) + hs[1..] == q + hs;
      UpdateAllFresh(q + [hs[0]], hs[1..]);
    }
  }

  lemma {:induction false} AssignFresh(q: seq<Pair>, k: string, v: string)
    requires k !in Keys(q)
    ensures Assign(q, k, v) == q + [(k, v)]
    decreases |q|
  {
    if q != [] {
      var tail := q[1..];
      assert Keys(q)[0] == q[0].0;
      assert k !in Keys(tail) by {
        forall i | 0 <= i < |tail|
          ensures Keys(tail)[i] != k
        {
          assert Keys(tail)[i] == Keys(q)[i + 1];
        }
      }
      AssignFresh(tail, k, v);
      calc {
        Assign(q, k, v);
        [q[0]] + Assign(tail, k, v);
        [q[0]] + (tail + [(k, v)]);
        { assert q == [q[0]] + tail; }
        q + [(k, v)];
      }
    }
  }

  /** Headers given as a mapping (distinct names) become the query in their
      own order; a `body` argument replaces a `body` header in place or is
      appended after the headers. */
  lemma QueryOfMapping(headers: seq<Pair>, body: Option<string>)
    requires DistinctKeys(headers)
    ensures body.None? ==> QueryOf(headers, body) == headers
    ensures body.Some? ==>
      Keys(QueryOf(headers, body)) == (if "body" in Keys(headers) then Keys(headers) else Keys(headers) + ["body"])
    ensures DistinctKeys(QueryOf(headers, body))
  {
    assert [] + headers == headers;
    UpdateAllFresh([], headers);
    if body.Some? {
      AssignDistinct(headers, "body", BodyValue(body.value));
    }
  }

  /** The `body` argument wins over a `body` header; every other header
      keeps its value. */
  lemma QueryOfValues(headers: seq<Pair>, body: Option<string>, k: string)
    requires DistinctKeys(headers)
    ensures body.Some? && k == "body" ==> Lookup(QueryOf(headers, body), k) == Some(BodyValue(body.value))
    ensures k != "body" ==> Lookup(QueryOf(headers, body), k) == Lookup(headers, k)
  {
    assert [] + headers == headers;
    UpdateAllFresh([], headers);
    if body.Some? {
      AssignLookup(headers, "body", BodyValue(body.value), k);
    }
  }

  // ---------------------------------------------------------------------
  // The body: str.splitlines and CRLF line ends

  /** The line boundaries of Python's `str.splitlines`. */
  predicate IsLineBreak(c: char) {
    c == '\n' || c == '\r' || c == '\U{0B}' || c == '\U{0C}' || c == '\U{1C}' || c == '\U{1D}'
    || c == '\U{1E}' || c == '\U{85}' || c == '\U{2028}' || c == '\U{2029}'
  }

  predicate NoBreaks(s: string) {
    forall i :: 0 <= i < |s| ==> !IsLineBreak(s[i])
  }

  /** Where the first line of `s` ends. */
  function LineEnd(s: string): (i: nat)
    ensures i <= |s| && (i < |s| ==> IsLineBreak(s[i])) && NoBreaks(s[..i])
  {
    if s == [] || IsLineBreak(s[0]) then 0
    else
      var j := LineEnd(s[1..]);
      assert s[..j + 1] == [s[0]] + s[1..][..j];
      1 + j
  }

  /** `s.splitlines()`: the lines without their ends; `\r\n` is one end, and
      a final line end starts no further line. */
  function SplitLines(s: string): (r: seq<string>)
    ensures forall i :: 0 <= i < |r| ==> NoBreaks(r[i])
    decreases |s|
  {
    if s == [] then []
    else
      var i := LineEnd(s);
      if i == |s| then
        assert s[..i] == s;
        [s]
      else
        var next := if s[i] == '\r' && i + 1 < |s| && s[i + 1] == '\n' then i + 2 else i + 1;
        [s[..i]] + SplitLines(s[next..])
  }

  /** `"".join(f"{line}\r\n" for line in lines)`. */
  function CrlfLines(lines: seq<string>): (r: string)
    ensures lines == [] <==> r == ""
  {
    if lines == [] then "" else lines[0] + "\r\n" + CrlfLines(lines[1..])
  }

  /** The `body` query value. */
  function BodyValue(body: string): string {
    CrlfLines(SplitLines(body))
  }

  lemma {:induction false} LineEndBefore(a: string, b: string)
    requires NoBreaks(a) && b != [] && IsLineBreak(b[0])
    ensures LineEnd(a + b) == |a|
    decreases |a|
  {
    if a != [] {
      assert (a + b)[1..] == a[1..] + b;
      LineEndBefore(a[1..], b);
    } else {
      assert a + b == b;
    }
  }

  /** Lines without line breaks come back out of their CRLF text. */
  lemma {:induction false} SplitLinesCrlf(lines: seq<string>)
    requires forall i :: 0 <= i < |lines| ==> NoBreaks(lines[i])
    ensures SplitLines(CrlfLines(lines)) == lines
    decreases |lines|
  {
    if lines != [] {
      var rest := CrlfLines(lines[1..]);
      var s := CrlfLines(lines);
      assert s == lines[0] + ("\r\n" + rest);
      LineEndBefore(lines[0], "\r\n" + rest);
      var i := |lines[0]|;
      assert s[i] == '\r' && s[i + 1] == '\n';
      assert s[..i] == lines[0];
      assert s[i + 2..] == rest;
      SplitLinesCrlf(lines[1..]);
    }
  }

  /** Normalizing a normalized body changes nothing. */
  lemma BodyValueIdempotent(body: string)
    ensures BodyValue(BodyValue(body)) == BodyValue(body)
  {
    SplitLinesCrlf(SplitLines(body));
  }

  /** A non-empty body ends with CRLF, even when its last line had no end. */
  lemma {:induction false} BodyValueEnds(body: string)
    ensures body == "" <==> BodyValue(body) == ""
    ensures body != "" ==> EndsWith(BodyValue(body), "\r\n")
  {
    var lines := SplitLines(body);
    if body != "" {
      assert |lines| > 0;
      CrlfLinesEnds(lines);
    }
  }

  lemma {:induction false} CrlfLinesEnds(lines: seq<string>)
    requires lines != []
    ensures EndsWith(CrlfLines(lines), "\r\n")
    decreases |lines|
  {
    if |lines| == 1 {
      assert lines[1..] == [];
    } else {
      CrlfLinesEnds(lines[1..]);
    }
  }

  lemma {:induction false} LineEndAll(s: string)
    requires NoBreaks(s)
    ensures LineEnd(s) == |s|
    decreases |s|
  {
    if s != [] {
      LineEndAll(s[1..]);
    }
  }

  /** Lines joined by `\n`, the last one not empty, split back into the same
      lines. */
  lemma {:induction false} SplitLinesJoin(lines: seq<string>)
    requires |lines| >= 1 && lines[|lines| - 1] != ""
    requires forall i :: 0 <= i < |lines| ==> NoBreaks(lines[i])
    ensures SplitLines(Join(lines, "\n")) == lines
    decreases |lines|
  {
    if |lines| == 1 {
      LineEndAll(lines[0]);
      assert lines[0][..|lines[0]|] == lines[0];
    } else {
      var rest := Join(lines[1..], "\n");
      var s := Join(lines, "\n");
      assert s == lines[0] + ("\n" + rest);
      LineEndBefore(lines[0], "\n" + rest);
      var i := |lines[0]|;
      assert s[i] == '\n';
      assert s[..i] == lines[0];
      assert s[i + 1..] == rest;
      SplitLinesJoin(lines[1..]);
    }
  }

  // ---------------------------------------------------------------------
  // The URI

  /** `quote(s, safe="")`, as `urlencode` applies it to names and values. */
  function QuoteAll(s: string): string {
    Quote(s, {})
  }

  /** `name=value`, both quoted. */
  function Field(p: Pair): string {
    QuoteAll(p.0) + "=" + QuoteAll(p.1)
  }

  function Fields(q: seq<Pair>): (r: seq<string>)
    ensures |r| == |q| && forall i :: 0 <= i < |q| ==> r[i] == Field(q[i])
  {
    if q == [] then [] else [Field(q[0])] + Fields(q[1..])
  }

  /** `urlencode(q, safe="", quote_via=quote)`. */
  function UrlEncode(q: seq<Pair>): string {
    Join(Fields(q), "&")
  }

  /** `urlunsplit` adds the query only when it is not empty. */
  function QueryPart(query: string): string {
    if query == "" then "" else "?" + query
  }

  /** The URI `mailto` returns. */
  function MailtoUri(to: string, headers: seq<Pair>, body: Option<string>): string {
    "mailto:" + Quote(to, {'@'}) + QueryPart(UrlEncode(QueryOf(headers, body)))
  }

  /** `mailto(to, headers=..., body=...)`. */
  method Mailto(to: string, headers: seq<Pair>, body: Option<string>) returns (uri: string)
    ensures uri == MailtoUri(to, headers, body)
  {
    var query := BuildQuery(headers, body);
    var encoded := UrlEncode(query);
    uri := "mailto:" + Quote(to, {'@'});
    if encoded != "" {
      uri := uri + "?" + encoded;
    }
  }

  /** There is a `?` exactly when there is a header or a body. */
  lemma UrlEncodeEmpty(q: seq<Pair>)
    ensures UrlEncode(q) == "" <==> q == []
  {
    if q != [] {
      var f := Fields(q);
      assert f[0] == Field(q[0]);
      if |f| > 1 {
        assert Join(f, "&") == f[0] + "&" + Join(f[1..], "&");
      }
    }
  }

  // ---------------------------------------------------------------------
  // Reading the URI back

  /** One `name=value` field, unquoted. */
  function DecodeField(f: string): Option<(seq<Byte>, seq<Byte>)> {
    var parts := Split(f, '=');
    if |parts| == 2 then Some((Unquote(parts[0]), Unquote(parts[1]))) else None
  }

  function DecodeFields(fs: seq<string>): Option<seq<(seq<Byte>, seq<Byte>)>> {
    if fs == [] then Some([])
    else match (DecodeField(fs[0]), DecodeFields(fs[1..]))
      case (Some(p), Some(ps)) => Some([p] + ps)
      case _ => None
  }

  /** The address and the query pairs of a `mailto:` URI, as bytes. */
  function ParseMailto(uri: string): Option<(seq<Byte>, seq<(seq<Byte>, seq<Byte>)>)> {
    if !StartsWith(uri, "mailto:") then None
    else
      var pieces := Split(RemovePrefix(uri, "mailto:"), '?');
      if |pieces| == 1 then Some((Unquote(pieces[0]), []))
      else if |pieces| == 2 then
        match DecodeFields(Split(pieces[1], '&'))
        case Some(ps) => Some((Unquote(pieces[0]), ps))
        case None => None
      else None
  }

  /** The UTF-8 bytes of each name and value. */
  function EncodedPairs(q: seq<Pair>): (r: seq<(seq<Byte>, seq<Byte>)>)
    ensures |r| == |q|
  {
    if q == [] then [] else [(Utf8(q[0].0), Utf8(q[0].1))] + EncodedPairs(q[1..])
  }

  lemma NoChar(s: string, safe: set<char>, c: char)
    requires !QuotedChar(c, safe)
    ensures c !in Quote(s, safe)
  {
  }

  lemma DecodeFieldOf(k: string, v: string)
    ensures DecodeField(Field((k, v))) == Some((Utf8(k), Utf8(v)))
  {
    NoChar(k, {}, '=');
    NoChar(v, {}, '=');
    assert QuoteAll(k) + "=" + QuoteAll(v) == Join([QuoteAll(k), QuoteAll(v)], "=");
    SplitJoin([QuoteAll(k), QuoteAll(v)], '=');
    UnquoteQuote(k, {});
    UnquoteQuote(v, {});
  }

  lemma {:induction false} DecodeFieldsOf(q: seq<Pair>)
    ensures DecodeFields(Fields(q)) == Some(EncodedPairs(q))
    decreases |q|
  {
    if q != [] {
      var f := Fields(q);
      DecodeFieldOf(q[0].0, q[0].1);
      assert f[0] == Field(q[0]) && f[1..] == Fields(q[1..]);
      DecodeFieldsOf(q[1..]);
    }
  }

  lemma FieldsPlain(q: seq<Pair>)
    ensures forall i :: 0 <= i < |q| ==> '?' !in Fields(q)[i] && '&' !in Fields(q)[i]
  {
    forall i | 0 <= i < |q| ensures '?' !in Fields(q)[i] && '&' !in Fields(q)[i] {
      NoChar(q[i].0, {}, '?');
      NoChar(q[i].1, {}, '?');
      NoChar(q[i].0, {}, '&');
      NoChar(q[i].1, {}, '&');
    }
  }

  lemma ParseAddress(addr: string, query: string)
    requires '?' !in addr && '?' !in query
    ensures var pieces := Split(RemovePrefix("mailto:" + addr + QueryPart(query), "mailto:"), '?');
      && StartsWith("mailto:" + addr + QueryPart(query), "mailto:")
      && pieces == if query == "" then [addr] else [addr, query]
  {
    assert "mailto:" + addr + QueryPart(query) == "mailto:" + (addr + QueryPart(query));
    StartsWithConcat("mailto:", addr + QueryPart(query));
    if query == "" {
      assert addr + QueryPart(query) == addr;
    } else {
      assert addr + QueryPart(query) == Join([addr, query], "?");
      SplitJoin([addr, query], '?');
    }
  }

  /** Reading the URI back gives the address and every query pair, in order,
      byte for byte: nothing is lost or reordered, and since UTF-8 decoding
      inverts `Utf8` the texts themselves are recovered. */
  lemma MailtoRoundTrip(to: string, headers: seq<Pair>, body: Option<string>)
    ensures ParseMailto(MailtoUri(to, headers, body)) == Some((Utf8(to), EncodedPairs(QueryOf(headers, body))))
  {
    ParseMailtoOf(to, QueryOf(headers, body));
  }

  lemma ParseMailtoOf(to: string, q: seq<Pair>)
    ensures ParseMailto("mailto:" + Quote(to, {'@'}) + QueryPart(UrlEncode(q))) == Some((Utf8(to), EncodedPairs(q)))
  {
    var addr := Quote(to, {'@'});
    var query := UrlEncode(q);
    NoChar(to, {'@'}, '?');
    FieldsPlain(q);
    NoJoinedChar(Fields(q), "&", '?');
    ParseMailtoShape(addr, query);
    UnquoteQuote(to, {'@'});
    UrlEncodeEmpty(q);
    if query != "" {
      QueryReadsBack(q);
    }
  }

  lemma ParseMailtoShape(addr: string, query: string)
    requires '?' !in addr && '?' !in query
    ensures ParseMailto("mailto:" + addr + QueryPart(query)) ==
      if query == "" then Some((Unquote(addr), []))
      else match DecodeFields(Split(query, '&'))
        case Some(ps) => Some((Unquote(addr), ps))
        case None => None
  {
    ParseAddress(addr, query);
  }

  /** The fields of a query, split at `&` and decoded, are its pairs. */
  lemma QueryReadsBack(q: seq<Pair>)
    requires q != []
    ensures DecodeFields(Split(UrlEncode(q), '&')) == Some(EncodedPairs(q))
  {
    FieldsPlain(q);
    SplitJoin(Fields(q), '&');
    DecodeFieldsOf(q);
  }

  lemma {:induction false} NoJoinedChar(parts: seq<string>, sep: string, c: char)
    requires c !in sep
    requires forall i :: 0 <= i < |parts| ==> c !in parts[i]
    ensures c !in Join(parts, sep)
    decreases |parts|
  {
    if |parts| > 1 {
      NoJoinedChar(parts[1..], sep, c);
    }
  }

  /** Different addresses give different URIs. */
  lemma MailtoAddressInjective(to1: string, to2: string, headers: seq<Pair>, body: Option<string>)
    requires MailtoUri(to1, headers, body) == MailtoUri(to2, headers, body)
    ensures to1 == to2
  {
    MailtoRoundTrip(to1, headers, body);
    MailtoRoundTrip(to2, headers, body);
    Utf8Injective(to1, to2);
  }

  // ---------------------------------------------------------------------
  // The shapes of the module's test cases

  /** No headers and no body: no query at all. */
  lemma MailtoAddressOnly(to: string)
    ensures MailtoUri(to, [], None) == "mailto:" + Quote(to, {'@'})
  {
    assert UrlEncode([]) == "";
  }

  /** One header and no body. */
  lemma MailtoOneHeader(to: string, name: string, value: string)
    ensures MailtoUri(to, [(name, value)], None) ==
      "mailto:" + Quote(to, {'@'}) + "?" + QuoteAll(name) + "=" + QuoteAll(value)
  {
    assert Assign([], name, value) == [(name, value)];
    assert [(name, value)][1..] == [];
    assert UpdateAll([], [(name, value)]) == UpdateAll([(name, value)], []);
    assert QueryOf([(name, value)], None) == [(name, value)];
    assert Fields([(name, value)]) == [Field((name, value))];
  }

  /** A body and no headers. */
  lemma MailtoBodyOnly(to: string, body: string)
    ensures MailtoUri(to, [], Some(body)) ==
      "mailto:" + Quote(to, {'@'}) + "?body=" + QuoteAll(BodyValue(body))
  {
    var x := QuoteAll(BodyValue(body));
    var q := Quote(to, {'@'});
    calc {
      MailtoUri(to, [], Some(body));
      "mailto:" + q + QueryPart(UrlEncode(QueryOf([], Some(body))));
      { BodyOnlyQuery(body); }
      "mailto:" + q + QueryPart("body=" + x);
      "mailto:" + q + ("?body=" + x);
    }
  }

  lemma BodyOnlyQuery(body: string)
    ensures UrlEncode(QueryOf([], Some(body))) == "body=" + QuoteAll(BodyValue(body))
  {
    BodyOnlyPairs(body);
    SinglePair("body", BodyValue(body));
    QuoteAllBody();
    assert QuoteAll("body") + "=" == "body=";
  }

  lemma BodyOnlyPairs(body: string)
    ensures QueryOf([], Some(body)) == [("body", BodyValue(body))]
  {
    assert UpdateAll([], []) == [];
  }

  lemma SinglePair(name: string, value: string)
    ensures UrlEncode([(name, value)]) == QuoteAll(name) + "=" + QuoteAll(value)
  {
    assert Fields([(name, value)]) == [Field((name, value))];
  }

  lemma QuoteAllBody()
    ensures QuoteAll("body") == "body"
  {
    QuoteLiteral("body", {});
  }

  lemma {:induction false} QuoteConcat(a: string, b: string, safe: set<char>)
    ensures Quote(a + b, safe) == Quote(a, safe) + Quote(b, safe)
    decreases |a|
  {
    if a == [] {
      assert a + b == b;
    } else {
      assert (a + b)[1..] == a[1..] + b;
      QuoteConcat(a[1..], b, safe);
    }
  }

  /** Words of literal characters keep their text; only the separators
      between them are encoded. */
  lemma {:induction false} QuoteJoin(words: seq<string>, sep: string, safe: set<char>)
    requires forall i :: 0 <= i < |words| ==> AllLiteral(words[i], safe)
    ensures Quote(Join(words, sep), safe) == Join(words, Quote(sep, safe))
    decreases |words|
  {
    if |words| == 1 {
      QuoteLiteral(words[0], safe);
    } else if |words| > 1 {
      var rest := words[1..];
      var qsep := Quote(sep, safe);
      QuoteJoin(rest, sep, safe);
      QuoteLiteral(words[0], safe);
      calc {
        Quote(Join(words, sep), safe);
        { JoinCons(words, sep); }
        Quote(words[0] + (sep + Join(rest, sep)), safe);
        { QuoteJoinStep(words[0], sep, Join(rest, sep), safe); }
        words[0] + (qsep + Quote(Join(rest, sep), safe));
        words[0] + (qsep + Join(rest, qsep));
        { JoinCons(words, qsep); }
        Join(words, qsep);
      }
    }
  }

  lemma QuoteJoinStep(word: string, sep: string, rest: string, safe: set<char>)
    requires Quote(word, safe) == word
    ensures Quote(word + (sep + rest), safe) == word + (Quote(sep, safe) + Quote(rest, safe))
  {
    QuoteConcat(word, sep + rest, safe);
    QuoteConcat(sep, rest, safe);
  }

  /** A single ASCII character that is not kept is one `%XX`. */
  lemma QuoteAscii(c: char, safe: set<char>)
    requires !Literal(c, safe) && c as int < 0x80
    ensures Quote([c], safe) == PercentByte(c as int)
  {
    assert [c][1..] == [];
    assert PercentBytes([c as int]) == PercentByte(c as int) + PercentBytes([]);
  }

  /** iri_test: in `user%name@example.com` the `@` is kept and the `%`
      becomes `%25`. */
  lemma FixturePercentInAddress()
    ensures Quote(Join(["user", "name@example.com"], "%"), {'@'}) == Join(["user", "name@example.com"], "%25")
  {
    var words := ["user", "name@example.com"];
    assert AllLiteral(words[0], {'@'}) && AllLiteral(words[1], {'@'});
    QuoteJoin(words, "%", {'@'});
    QuoteAscii('%', {'@'});
    assert PercentByte('%' as int) == "%25";
  }

  /** iri_test: a plain address is left as it is. */
  lemma FixturePlainAddress()
    ensures Quote("user@example.com", {'@'}) == "user@example.com"
  {
    QuoteLiteral("user@example.com", {'@'});
  }

  /** iri_test: a space in a header value is `%20`, never `+`:
      `kumquats are a fruit` becomes `kumquats%20are%20a%20fruit`. */
  lemma FixtureSubject()
    ensures QuoteAll(Join(["kumquats", "are", "a", "fruit"], " ")) == Join(["kumquats", "are", "a", "fruit"], "%20")
  {
    FruitWordsLiteral();
    QuoteJoin(["kumquats", "are", "a", "fruit"], " ", {});
    QuoteSpace();
  }

  lemma FruitWordsLiteral()
    ensures forall i :: 0 <= i < 4 ==> AllLiteral(["kumquats", "are", "a", "fruit"][i], {})
  {
    var words := ["kumquats", "are", "a", "fruit"];
    assert AllLiteral(words[0], {}) && AllLiteral(words[1], {}) && AllLiteral(words[2], {}) && AllLiteral(words[3], {});
  }

  lemma QuoteSpace()
    ensures QuoteAll(" ") == "%20"
  {
    QuoteAscii(' ', {});
    assert PercentByte(' ' as int) == "%20";
  }

  /** iri_test: the body `foo\nbar` becomes `foo\r\nbar\r\n`, every line
      ending with CRLF, the last one included. */
  lemma FixtureBody()
    ensures BodyValue(Join(["foo", "bar"], "\n")) == CrlfLines(["foo", "bar"])
    ensures CrlfLines(["foo", "bar"]) == "foo\r\nbar\r\n"
  {
    SplitLinesJoin(["foo", "bar"]);
  }

  /** CRLF is `%0D%0A` in a query value. */
  lemma QuoteCrlfPair()
    ensures QuoteAll("\r\n") == "%0D%0A"
  {
    assert "\r" + "\n" == "\r\n";
    QuoteConcat("\r", "\n", {});
    QuoteAscii('\r', {});
    QuoteAscii('\n', {});
    assert PercentByte('\r' as int) + PercentByte('\n' as int) == "%0D%0A";
  }

  /** iri_test: the CRLFs of that body (the lines `foo`, `bar` and an empty
      tail joined by CRLF) are `%0D%0A` in the URI. */
  lemma FixtureBodyQuoted()
    ensures QuoteAll(Join(["foo", "bar", ""], "\r\n")) == Join(["foo", "bar", ""], "%0D%0A")
  {
    var lines := ["foo", "bar", ""];
    assert AllLiteral(lines[0], {}) && AllLiteral(lines[1], {}) && AllLiteral(lines[2], {});
    QuoteJoin(lines, "\r\n", {});
    QuoteCrlfPair();
  }
}
