/** `safe_encode_query_params` (audio_inference.py, lines 63-79) and the
    parts of `urllib.parse` it calls: `urlparse`/`urlunparse` reduced to
    `prefix ? query # fragment`, `parse_qsl`, `parse_qs` keeping the first
    value of each key, and `urlencode`. */
module Urls {
  import opened Base
  import opened Percent

  /** A URL cut at its first `#` and then at its first `?`. The prefix keeps
      scheme, host, path and path parameters together. */
  datatype UrlParts = UrlParts(prefix: string, query: string, fragment: string)

  predicate WellSplit(p: UrlParts) {
    '?' !in p.prefix && '#' !in p.prefix && '#' !in p.query
  }

  function UrlSplit(url: string): (p: UrlParts)
    ensures WellSplit(p)
  {
    var (rest, fragment) := SplitFirst(url, '#');
    var (prefix, query) := SplitFirst(rest, '?');
    UrlParts(prefix, query.GetOr(""), fragment.GetOr(""))
  }

  /** `urlunparse`: an empty query or fragment loses its `?` or `#`. */
  function UrlUnsplit(p: UrlParts): string {
    p.prefix + (if p.query != "" then "?" + p.query else "") + (if p.fragment != "" then "#" + p.fragment else "")
  }

  /** Splitting what was unsplit gives the parts back. */
  lemma SplitUnsplit(p: UrlParts)
    requires WellSplit(p)
    ensures UrlSplit(UrlUnsplit(p)) == p
  {
    var q := if p.query != "" then "?" + p.query else "";
    var f := if p.fragment != "" then "#" + p.fragment else "";
    var url := UrlUnsplit(p);
    assert url == (p.prefix + q) + f;
    assert '#' !in p.prefix + q by {
      assert forall i :: 0 <= i < |q| ==> q[i] != '#' by {
        if p.query != "" {
          forall i | 0 <= i < |q| ensures q[i] != '#' {
            if i > 0 { assert q[i] == p.query[i - 1]; }
          }
        }
      }
    }
    SplitFirstUnique(url, '#', p.prefix + q, f);
    if f != "" { assert f[1..] == p.fragment; }
    SplitFirstUnique(p.prefix + q, '?', p.prefix, q);
    if q != "" { assert q[1..] == p.query; }
  }

  /** Unsplitting what was split gives the URL back exactly when neither
      the fragment marker nor the query marker is followed by an empty
      component: `urlunparse` drops the marker of an empty query or
      fragment. */
  lemma UnsplitSplit(url: string)
    ensures var (rest, fragment) := SplitFirst(url, '#');
            UrlUnsplit(UrlSplit(url)) == url
            <==> fragment != Some("") && SplitFirst(rest, '?').1 != Some("")
  {
    var (rest, fragment) := SplitFirst(url, '#');
    var (prefix, query) := SplitFirst(rest, '?');
    var f := if fragment.Some? then "#" + fragment.value else "";
    var q := if query.Some? then "?" + query.value else "";
    assert url == rest + f;
    assert rest == prefix + q;
    var p := UrlParts(prefix, query.GetOr(""), fragment.GetOr(""));
    assert UrlSplit(url) == p;
    if fragment != Some("") && query != Some("") {
      assert UrlUnsplit(p) == prefix + q + f;
      JoinParts(url, rest, prefix, q, f);
    } else {
      assert |UrlUnsplit(p)| < |url|;
    }
  }

  lemma JoinParts(url: string, rest: string, prefix: string, q: string, f: string)
    requires url == rest + f && rest == prefix + q
    ensures url == prefix + q + f
  {
  }

  /** One `name=value` piece as `parse_qsl` reads it: a blank piece, a piece
      without `=` and a piece with an empty value are dropped; name and
      value are `unquote_plus`-decoded. */
  function ParsePiece(piece: string): Option<(string, string)> {
    if piece == "" then None
    else
      var (name, value) := SplitFirst(piece, '=');
      if value.None? || value.value == "" then None
      else Some((UnquotePlus(name), UnquotePlus(value.value)))
  }

  function ParsePieces(pieces: seq<string>): (pairs: seq<(string, string)>)
    ensures |pairs| <= |pieces|
    decreases |pieces|
  {
    if |pieces| == 0 then []
    else
      var rest := ParsePieces(pieces[1..]);
      match ParsePiece(pieces[0])
      case None => rest
      case Some(kv) => [kv] + rest
  }

  /** `parse_qsl(query)`: the `&`-separated pieces in order. */
  function ParseQsl(query: string): seq<(string, string)> {
    ParsePieces(Split(query, '&'))
  }

  /** `parse_qsl` never yields an empty value. */
  lemma {:induction false} ParsePiecesNonBlank(pieces: seq<string>)
    ensures forall i :: 0 <= i < |ParsePieces(pieces)| ==> ParsePieces(pieces)[i].1 != ""
    decreases |pieces|
  {
    if |pieces| > 0 {
      ParsePiecesNonBlank(pieces[1..]);
      var (name, value) := SplitFirst(pieces[0], '=');
      if pieces[0] != "" && value.Some? && value.value != "" {
        Utf8NonEmpty(PlusToSpace(value.value));
      }
    }
  }

  /** Proof helper: a non-empty string never unquotes to the empty string. */
  lemma Utf8NonEmpty(s: string)
    requires s != ""
    ensures Unquote(s) != ""
  {
  }

  function KeysOf(pairs: seq<(string, string)>): (ks: seq<string>)
    ensures |ks| == |pairs|
    ensures forall i :: 0 <= i < |pairs| ==> ks[i] == pairs[i].0
  {
    seq(|pairs|, i requires 0 <= i < |pairs| => pairs[i].0)
  }

  predicate DistinctKeys(pairs: seq<(string, string)>) {
    forall i, j :: 0 <= i < j < |pairs| ==> pairs[i].0 != pairs[j].0
  }

  /** `{k: v[0] for k, v in parse_qs(query).items()}`: `parse_qs` gathers
      the values of a key in a list created at its first occurrence, and
      `v[0]` keeps that first value. Built left to right as Python does. */
  function FirstValues(pairs: seq<(string, string)>): (d: seq<(string, string)>)
    ensures DistinctKeys(d)
    ensures |d| <= |pairs|
    decreases |pairs|
  {
    if |pairs| == 0 then []
    else
      var d := FirstValues(pairs[..|pairs| - 1]);
      var kv := pairs[|pairs| - 1];
      if kv.0 in KeysOf(d) then d else d + [kv]
  }

  /** The value a key has first among `pairs`, read front to back. */
  function FirstValueOf(pairs: seq<(string, string)>, k: string): Option<string>
    decreases |pairs|
  {
    if |pairs| == 0 then None
    else if pairs[0].0 == k then Some(pairs[0].1)
    else FirstValueOf(pairs[1..], k)
  }

  lemma {:induction false} FirstValueOfSnoc(pairs: seq<(string, string)>, kv: (string, string), k: string)
    ensures FirstValueOf(pairs + [kv], k)
         == if FirstValueOf(pairs, k).Some? then FirstValueOf(pairs, k)
            else if kv.0 == k then Some(kv.1) else None
    decreases |pairs|
  {
    if |pairs| > 0 {
      assert (pairs + [kv])[1..] == pairs[1..] + [kv];
      FirstValueOfSnoc(pairs[1..], kv, k);
    } else {
      assert [kv][1..] == [];
    }
  }

  /** Each key of the query keeps exactly its first value, and no key is
      invented or lost. */
  lemma {:induction false} FirstValuesLookup(pairs: seq<(string, string)>, k: string)
    ensures FirstValueOf(FirstValues(pairs), k) == FirstValueOf(pairs, k)
    decreases |pairs|
  {
    if |pairs| > 0 {
      var init := pairs[..|pairs| - 1];
      var kv := pairs[|pairs| - 1];
      var d := FirstValues(init);
      FirstValuesLookup(init, k);
      assert pairs == init + [kv];
      FirstValueOfSnoc(init, kv, k);
      if kv.0 in KeysOf(d) {
        var j :| 0 <= j < |d| && KeysOf(d)[j] == kv.0;
        FirstValueOfPresent(d, j);
      } else {
        FirstValueOfSnoc(d, kv, k);
      }
    }
  }

  lemma {:induction false} FirstValueOfPresent(pairs: seq<(string, string)>, j: nat)
    requires j < |pairs|
    ensures FirstValueOf(pairs, pairs[j].0).Some?
    decreases |pairs|
  {
    if pairs[0].0 != pairs[j].0 {
      FirstValueOfPresent(pairs[1..], j - 1);
    }
  }

  /** The values passed through `quote` (safe `/`), keys untouched. */
  function QuoteValues(pairs: seq<(string, string)>): (r: seq<(string, string)>)
    ensures |r| == |pairs|
    ensures forall i :: 0 <= i < |pairs| ==> r[i] == (pairs[i].0, Quote(pairs[i].1))
  {
    seq(|pairs|, i requires 0 <= i < |pairs| => (pairs[i].0, Quote(pairs[i].1)))
  }

  /** `urlencode(pairs)`: `quote_plus(k) + '=' + quote_plus(v)` joined by `&`. */
  function UrlEncode(pairs: seq<(string, string)>): string {
    Join("&", seq(|pairs|, i requires 0 <= i < |pairs| => QuotePlus(pairs[i].0) + "=" + QuotePlus(pairs[i].1)))
  }

  /** `safe_encode_query_params(url)`: only the query is rebuilt. */
  function SafeEncodeQueryParams(url: string): (r: string)
    ensures |UrlSplit(url).prefix| <= |r| && r[..|UrlSplit(url).prefix|] == UrlSplit(url).prefix
  {
    var p := UrlSplit(url);
    var encoded := QuoteValues(FirstValues(ParseQsl(p.query)));
    UnsplitStartsWithPrefix(p.(query := UrlEncode(encoded)));
    UrlUnsplit(p.(query := UrlEncode(encoded)))
  }

  /** The empty query parses to no pairs. */
  lemma ParseQslEmpty()
    ensures ParseQsl("") == []
  {
    assert Split("", '&') == [""];
    assert [""][1..] == [];
  }

  /** A URL with no query gets none from `safe_encode_query_params`. */
  lemma SafeEncodeNoQuery(url: string)
    requires UrlSplit(url).query == ""
    ensures UrlSplit(SafeEncodeQueryParams(url)).query == ""
  {
    var p := UrlSplit(url);
    ParseQslEmpty();
    assert UrlEncode(QuoteValues(FirstValues(ParseQsl(p.query)))) == "";
    SplitUnsplit(p);
  }

  /** A piece that splits at its first `=` into a name and a non-empty
      value parses to the decoded pair. */
  lemma ParseSplitPiece(piece: string, name: string, value: string)
    requires SplitFirst(piece, '=') == (name, Some(value)) && value != ""
    ensures ParsePiece(piece) == Some((UnquotePlus(name), UnquotePlus(value)))
  {
  }

  /** One encoded piece parses back to its pair. */
  lemma ParseEncodedPiece(k: string, v: string)
    requires v != ""
    ensures ParsePiece(QuotePlus(k) + "=" + QuotePlus(v)) == Some((k, v))
  {
    var qk, qv := QuotePlus(k), QuotePlus(v);
    var piece := qk + "=" + qv;
    assert SplitFirst(piece, '=') == (qk, Some(qv)) by {
      QuoteOmits(k, true);
      assert piece == qk + ("=" + qv);
      SplitFirstUnique(piece, '=', qk, "=" + qv);
      assert ("=" + qv)[1..] == qv;
    }
    ParseSplitPiece(piece, qk, qv);
    QuoteRoundTrip(k, true);
    QuoteRoundTrip(v, true);
  }

  /** `parse_qsl(urlencode(pairs)) == pairs` when no value is empty. */
  lemma {:induction false} ParseUrlEncode(pairs: seq<(string, string)>)
    requires forall i :: 0 <= i < |pairs| ==> pairs[i].1 != ""
    ensures ParseQsl(UrlEncode(pairs)) == pairs
  {
    var pieces := seq(|pairs|, i requires 0 <= i < |pairs| => QuotePlus(pairs[i].0) + "=" + QuotePlus(pairs[i].1));
    if |pairs| == 0 {
      assert Split("", '&') == [""];
    } else {
      forall i | 0 <= i < |pieces| ensures '&' !in pieces[i] {
        QuoteOmits(pairs[i].0, true);
        QuoteOmits(pairs[i].1, true);
      }
      SplitJoin(pieces, '&');
      ParseEncodedPieces(pairs, pieces);
    }
  }

  lemma {:induction false} ParseEncodedPieces(pairs: seq<(string, string)>, pieces: seq<string>)
    requires forall i :: 0 <= i < |pairs| ==> pairs[i].1 != ""
    requires |pieces| == |pairs|
    requires forall i :: 0 <= i < |pairs| ==> pieces[i] == QuotePlus(pairs[i].0) + "=" + QuotePlus(pairs[i].1)
    ensures ParsePieces(pieces) == pairs
    decreases |pairs|
  {
    if |pairs| > 0 {
      ParseEncodedPiece(pairs[0].0, pairs[0].1);
      ParseEncodedPieces(pairs[1..], pieces[1..]);
    }
  }

  /** The encoded query holds no `#`, so it stays a query. */
  lemma UrlEncodeNoHash(pairs: seq<(string, string)>)
    ensures '#' !in UrlEncode(pairs)
  {
    var pieces := seq(|pairs|, i requires 0 <= i < |pairs| => QuotePlus(pairs[i].0) + "=" + QuotePlus(pairs[i].1));
    forall i | 0 <= i < |pieces| ensures '#' !in pieces[i] {
      QuoteOmits(pairs[i].0, true);
      QuoteOmits(pairs[i].1, true);
    }
    JoinAvoids(pieces, "&", '#');
  }

  lemma {:induction false} JoinAvoids(parts: seq<string>, sep: string, c: char)
    requires c !in sep
    requires forall i :: 0 <= i < |parts| ==> c !in parts[i]
    ensures c !in Join(sep, parts)
    decreases |parts|
  {
    if |parts| > 1 {
      JoinAvoids(parts[1..], sep, c);
    }
  }

  /** Only the query is replaced: prefix (scheme, host, path) and fragment
      read back unchanged from the encoded URL. */
  lemma SafeEncodeKeepsPrefixAndFragment(url: string)
    ensures UrlSplit(SafeEncodeQueryParams(url)).prefix == UrlSplit(url).prefix
    ensures UrlSplit(SafeEncodeQueryParams(url)).fragment == UrlSplit(url).fragment
  {
    var p := UrlSplit(url);
    var encoded := QuoteValues(FirstValues(ParseQsl(p.query)));
    UrlEncodeNoHash(encoded);
    SplitUnsplit(p.(query := UrlEncode(encoded)));
  }

  /** Decoding the encoded query once (as `parse_qsl` does) gives every key
      of the original query, in first-occurrence order, with its first value
      still `quote`d: one decoding does not recover the raw value. */
  lemma SafeEncodeDecodesOnce(url: string)
    ensures ParseQsl(UrlSplit(SafeEncodeQueryParams(url)).query)
         == QuoteValues(FirstValues(ParseQsl(UrlSplit(url).query)))
  {
    var p := UrlSplit(url);
    var firsts := FirstValues(ParseQsl(p.query));
    var encoded := QuoteValues(firsts);
    UrlEncodeNoHash(encoded);
    SplitUnsplit(p.(query := UrlEncode(encoded)));
    ParsePiecesNonBlank(Split(p.query, '&'));
    FirstValuesSubset(ParseQsl(p.query));
    ParseUrlEncode(encoded);
  }

  /** Each pair `FirstValues` keeps is a pair of its input. */
  lemma {:induction false} FirstValuesSubset(pairs: seq<(string, string)>)
    ensures forall i :: 0 <= i < |FirstValues(pairs)| ==> FirstValues(pairs)[i] in pairs
    decreases |pairs|
  {
    if |pairs| > 0 {
      var init := pairs[..|pairs| - 1];
      FirstValuesSubset(init);
      assert forall x :: x in init ==> x in pairs;
    }
  }

  /** Decoding twice does recover each key's first value. */
  lemma SafeEncodeDecodesTwice(url: string, i: nat)
    requires i < |FirstValues(ParseQsl(UrlSplit(url).query))|
    ensures i < |ParseQsl(UrlSplit(SafeEncodeQueryParams(url)).query)|
    ensures var decoded := ParseQsl(UrlSplit(SafeEncodeQueryParams(url)).query)[i];
            var first := FirstValues(ParseQsl(UrlSplit(url).query))[i];
            decoded.0 == first.0 && Unquote(decoded.1) == first.1
  {
    SafeEncodeDecodesOnce(url);
    UnquoteQuote(FirstValues(ParseQsl(UrlSplit(url).query))[i].1);
  }

  /** Whatever stands before the first `?` or `#` of the URL (scheme, host
      and path) starts the encoded URL too. */
  lemma SafeEncodeKeepsHead(url: string, head: string, tail: string)
    requires url == head + tail && '?' !in head && '#' !in head
    requires tail == [] || tail[0] == '?' || tail[0] == '#'
    ensures |head| <= |SafeEncodeQueryParams(url)|
    ensures SafeEncodeQueryParams(url)[..|head|] == head
  {
    var p := UrlSplit(url);
    SplitKeepsHead(url, head, tail);
    var encoded := p.(query := UrlEncode(QuoteValues(FirstValues(ParseQsl(p.query)))));
    assert SafeEncodeQueryParams(url) == UrlUnsplit(encoded);
    UnsplitStartsWithPrefix(encoded);
    assert UrlUnsplit(encoded)[..|head|] == UrlUnsplit(encoded)[..|p.prefix|][..|head|];
  }

  /** A head free of `?` and `#`, followed by nothing or by one of them, is
      the start of the split URL's prefix (in fact all of it). */
  lemma SplitKeepsHead(url: string, head: string, tail: string)
    requires url == head + tail && '?' !in head && '#' !in head
    requires tail == [] || tail[0] == '?' || tail[0] == '#'
    ensures |head| <= |UrlSplit(url).prefix| && UrlSplit(url).prefix[..|head|] == head
  {
    var (rest, fragment) := SplitFirst(url, '#');
    SplitFirstHead(url, '#', head, tail);
    assert rest[..|head|] == head;
    SplitFirstUnique(rest, '?', head, rest[|head|..]);
  }

  /** A rebuilt URL starts with its prefix. */
  lemma UnsplitStartsWithPrefix(p: UrlParts)
    ensures |p.prefix| <= |UrlUnsplit(p)| && UrlUnsplit(p)[..|p.prefix|] == p.prefix
  {
  }

  /** Cutting at the first separator never cuts into a separator-free head. */
  lemma {:induction false} SplitFirstHead(s: string, sep: char, head: string, tail: string)
    requires s == head + tail && sep !in head
    requires tail == [] || tail[0] == sep || tail[0] == '?'
    ensures |head| <= |SplitFirst(s, sep).0|
    ensures SplitFirst(s, sep).0[..|head|] == head
    ensures |SplitFirst(s, sep).0| == |head| || SplitFirst(s, sep).0[|head|] == '?'
    decreases |head|
  {
    if |head| > 0 {
      assert s[1..] == head[1..] + tail;
      SplitFirstHead(s[1..], sep, head[1..], tail);
    } else if tail != [] && tail[0] != sep {
      assert s[0] == '?';
    }
  }
}
