/** `URLComposer` (audio_inference.py, lines 15-60): an immutable request
    configuration with two mutually exclusive modes, emotion tag or
    reference audio, and the URL it builds for one request. */
module Composer {
  import opened Base
  import opened Percent
  import opened Urls

  /** The five constructor arguments; `None` is Python's `None`. */
  datatype UrlComposer = UrlComposer(
    baseUrl: Option<string>,
    emotionParamName: Option<string>,
    textParamName: Option<string>,
    refPathParamName: Option<string>,
    refTextParamName: Option<string>)

  /** `is_valid`: the checks run in source order and the first that fails
      names the problem. An empty emotion or reference parameter name still
      counts as given in the third check. */
  function IsValid(c: UrlComposer): (r: Result<()>)
    ensures r.Ok? <==> Truthy(c.baseUrl) && Truthy(c.textParamName)
                       && (c.emotionParamName.Some? || c.refPathParamName.Some? || c.refTextParamName.Some?)
    ensures !Truthy(c.baseUrl) ==> r == Err(ConfigError(MissingUrl))
    ensures Truthy(c.baseUrl) && !Truthy(c.textParamName) ==> r == Err(ConfigError(MissingTextParam))
    ensures Truthy(c.baseUrl) && Truthy(c.textParamName) && !r.Ok? ==> r == Err(ConfigError(MissingModeParam))
  {
    if c.baseUrl.None? || c.baseUrl.value == "" then Err(ConfigError(MissingUrl))
    else if c.textParamName.None? || c.textParamName.value == "" then Err(ConfigError(MissingTextParam))
    else if c.emotionParamName.None? && c.refPathParamName.None? && c.refTextParamName.None? then
      Err(ConfigError(MissingModeParam))
    else Ok(())
  }

  /** `is_emotion` */
  predicate IsEmotion(c: UrlComposer) {
    c.emotionParamName.Some? && c.emotionParamName.value != ""
  }

  /** A Python dict of query parameters, in insertion order. Keys are the
      configured names and may be `None`. */
  type Params = seq<(Option<string>, string)>

  function ParamKeys(d: Params): (ks: seq<Option<string>>)
    ensures |ks| == |d| && forall i :: 0 <= i < |d| ==> ks[i] == d[i].0
  {
    seq(|d|, i requires 0 <= i < |d| => d[i].0)
  }

  predicate DistinctParams(d: Params) {
    forall i, j :: 0 <= i < j < |d| ==> d[i].0 != d[j].0
  }

  /** `d[k] = v`: an existing key keeps its place and takes the new value,
      a new key goes last. */
  function Put(d: Params, k: Option<string>, v: string): Params
    decreases |d|
  {
    if |d| == 0 then [(k, v)]
    else if d[0].0 == k then [(k, v)] + d[1..]
    else [d[0]] + Put(d[1..], k, v)
  }

  /** What `Put` does to a dict with distinct keys: it replaces the value of
      an existing key in place and appends a new key. */
  predicate PutsAt(d: Params, k: Option<string>, v: string, r: Params) {
    && (k in ParamKeys(d) ==> |r| == |d|)
    && (k !in ParamKeys(d) ==> r == d + [(k, v)])
    && forall i :: 0 <= i < |d| ==> r[i] == (if d[i].0 == k then (k, v) else d[i])
  }

  lemma {:induction false} PutAt(d: Params, k: Option<string>, v: string)
    requires DistinctParams(d)
    ensures PutsAt(d, k, v, Put(d, k, v))
    decreases |d|
  {
    if |d| > 0 {
      if d[0].0 == k {
        PutHit(d, k, v);
      } else {
        DistinctTail(d);
        PutAt(d[1..], k, v);
        PutMiss(d, k, v, Put(d[1..], k, v));
      }
    }
  }

  lemma PutHit(d: Params, k: Option<string>, v: string)
    requires DistinctParams(d) && |d| > 0 && d[0].0 == k
    ensures PutsAt(d, k, v, Put(d, k, v))
  {
    assert ParamKeys(d)[0] == k;
    assert forall i :: 0 < i < |d| ==> d[i].0 != d[0].0;
  }

  lemma PutMiss(d: Params, k: Option<string>, v: string, rest: Params)
    requires |d| > 0 && d[0].0 != k && rest == Put(d[1..], k, v) && PutsAt(d[1..], k, v, rest)
    ensures PutsAt(d, k, v, Put(d, k, v))
  {
    var r := [d[0]] + rest;
    assert r == Put(d, k, v);
    KeyInTail(d, k);
    if k !in ParamKeys(d) {
      assert r == d + [(k, v)] by {
        assert d == [d[0]] + d[1..];
      }
    }
    forall i | 0 <= i < |d|
      ensures r[i] == (if d[i].0 == k then (k, v) else d[i])
    {
      if i > 0 {
        assert r[i] == rest[i - 1] && d[1..][i - 1] == d[i];
      }
    }
  }

  /** Proof helper: a key other than the first is a key of the dict
      exactly when it is a key of its tail. */
  lemma KeyInTail(d: Params, k: Option<string>)
    requires |d| > 0 && d[0].0 != k
    ensures (k in ParamKeys(d)) == (k in ParamKeys(d[1..]))
  {
    assert ParamKeys(d) == [d[0].0] + ParamKeys(d[1..]);
  }

  lemma DistinctTail(d: Params)
    requires DistinctParams(d) && |d| > 0
    ensures DistinctParams(d[1..])
  {
    forall i, j | 0 <= i < j < |d| - 1 ensures d[1..][i].0 != d[1..][j].0 {
      assert d[i + 1].0 != d[j + 1].0;
    }
  }

  /** `Put` keeps the keys of a dict distinct. */
  lemma PutDistinct(d: Params, k: Option<string>, v: string)
    requires DistinctParams(d)
    ensures DistinctParams(Put(d, k, v))
  {
    var r := Put(d, k, v);
    PutAt(d, k, v);
    forall i, j | 0 <= i < j < |r| ensures r[i].0 != r[j].0 {
      if j == |d| {
        assert k !in ParamKeys(d);
        assert d[i].0 == ParamKeys(d)[i];
      }
    }
  }

  /** `f"{k}"` for a parameter name. */
  function Show(k: Option<string>): string {
    match k
    case None => "None"
    case Some(s) => s
  }

  /** `[f"{k}={v}" for k, v in params.items()]` */
  function Pieces(params: Params): (ps: seq<string>)
    ensures |ps| == |params|
    ensures forall i :: 0 <= i < |params| ==> ps[i] == Show(params[i].0) + "=" + params[i].1
  {
    seq(|params|, i requires 0 <= i < |params| => Show(params[i].0) + "=" + params[i].1)
  }

  /** `'&'.join(...)` of those pieces */
  function QueryString(params: Params): string {
    Join("&", Pieces(params))
  }

  /** `'?'` when the base URL has none yet, `'&'` otherwise. */
  function Separator(base: string): string {
    if '?' in base then "&" else "?"
  }

  /** `_append_params_to_url`. With a `None` base URL the test `'?' not in
      base_url` raises `TypeError`. */
  function AppendParamsToUrl(c: UrlComposer, params: Params, needUrlEncode: bool): (r: Result<string>)
    ensures r.Err? <==> c.baseUrl.None?
    ensures r.Err? ==> r.error == NoneBaseUrl
    ensures r.Ok? && !needUrlEncode ==> |c.baseUrl.value| <= |r.value| && r.value[..|c.baseUrl.value|] == c.baseUrl.value
  {
    if c.baseUrl.None? then Err(NoneBaseUrl)
    else
      var base := c.baseUrl.value;
      var url := if |params| > 0 then base + Separator(base) + QueryString(params) else base;
      assert url[..|base|] == base;
      Ok(if needUrlEncode then SafeEncodeQueryParams(url) else url)
  }

  /** The parameters of an emotion-mode request: `{text: text, emotion: emotion}`. */
  function EmotionParams(c: UrlComposer, textValue: string, emotionValue: string): Params {
    Put(Put([], c.textParamName, textValue), c.emotionParamName, emotionValue)
  }

  /** The parameters of a reference-mode request: `{text: .., ref_path: .., ref_text: ..}`. */
  function RefParams(c: UrlComposer, textValue: string, refPathValue: string, refTextValue: string): Params {
    Put(Put(Put([], c.textParamName, textValue), c.refPathParamName, refPathValue), c.refTextParamName, refTextValue)
  }

  /** `build_url_with_emotion` */
  function BuildUrlWithEmotion(c: UrlComposer, textValue: string, emotionValue: string, needUrlEncode: bool): (r: Result<string>)
    ensures r.Err? <==> !IsEmotion(c) || c.baseUrl.None?
    ensures !IsEmotion(c) ==> r == Err(ConfigError(EmotionParamNotSet))
    ensures r.Ok? && !needUrlEncode ==> |c.baseUrl.value| <= |r.value| && r.value[..|c.baseUrl.value|] == c.baseUrl.value
  {
    if !IsEmotion(c) then Err(ConfigError(EmotionParamNotSet))
    else AppendParamsToUrl(c, EmotionParams(c, textValue, emotionValue), needUrlEncode)
  }

  /** `build_url_with_ref` */
  function BuildUrlWithRef(c: UrlComposer, textValue: string, refPathValue: string, refTextValue: string,
                           needUrlEncode: bool): (r: Result<string>)
    ensures r.Err? <==> IsEmotion(c) || c.baseUrl.None?
    ensures IsEmotion(c) ==> r == Err(ConfigError(EmotionParamSet))
    ensures r.Ok? && !needUrlEncode ==> |c.baseUrl.value| <= |r.value| && r.value[..|c.baseUrl.value|] == c.baseUrl.value
  {
    if IsEmotion(c) then Err(ConfigError(EmotionParamSet))
    else AppendParamsToUrl(c, RefParams(c, textValue, refPathValue, refTextValue), needUrlEncode)
  }

  /** The mode guards: whatever the configuration, `build_url_with_emotion`
      raises a configuration error exactly when `is_emotion()` is false and
      `build_url_with_ref` exactly when it is true; on a valid composer
      exactly one of the two succeeds, the one `is_emotion()` selects. */
  lemma ModeExclusive(c: UrlComposer, text: string, emotion: string, refPath: string, refText: string, encode: bool)
    ensures BuildUrlWithEmotion(c, text, emotion, encode) == Err(ConfigError(EmotionParamNotSet)) <==> !IsEmotion(c)
    ensures BuildUrlWithRef(c, text, refPath, refText, encode) == Err(ConfigError(EmotionParamSet)) <==> IsEmotion(c)
    ensures IsValid(c).Ok? ==>
              (BuildUrlWithEmotion(c, text, emotion, encode).Ok? <==> IsEmotion(c))
              && (BuildUrlWithRef(c, text, refPath, refText, encode).Ok? <==> !IsEmotion(c))
  {
  }

  /** Without encoding, an emotion-mode URL is the base URL, the separator
      and `text=<text>&emotion=<emotion>` with the text parameter first; when
      the two names coincide the dict keeps one entry holding the emotion. */
  lemma EmotionUrlUnencoded(c: UrlComposer, text: string, emotion: string)
    requires c.baseUrl.Some? && IsEmotion(c)
    ensures var base := c.baseUrl.value;
            var tail := if c.textParamName == c.emotionParamName
                        then Show(c.textParamName) + "=" + emotion
                        else Show(c.textParamName) + "=" + text + "&" + c.emotionParamName.value + "=" + emotion;
            BuildUrlWithEmotion(c, text, emotion, false) == Ok(base + Separator(base) + tail)
  {
    var d := EmotionParams(c, text, emotion);
    if c.textParamName == c.emotionParamName {
      assert d == [(c.textParamName, emotion)];
    } else {
      var d1 := Put([], c.textParamName, text);
      assert ParamKeys(d1) == [c.textParamName];
      PutAt(d1, c.emotionParamName, emotion);
      assert d == [(c.textParamName, text), (c.emotionParamName, emotion)];
    }
    var parts := Pieces(d);
    if |d| == 2 {
      assert parts == [parts[0]] + [parts[1]];
      JoinCons("&", parts[0], [parts[1]]);
      var a, b := Show(c.textParamName) + "=" + text, c.emotionParamName.value + "=" + emotion;
      assert a + "&" + b == Show(c.textParamName) + "=" + text + "&" + c.emotionParamName.value + "=" + emotion;
    }
  }

  /** Without encoding and with three distinct names, a reference-mode URL
      is the base URL, the separator and `text=..&ref_path=..&ref_text=..`
      in that order; a name that is `None` is written `None`. */
  lemma RefUrlUnencoded(c: UrlComposer, text: string, refPath: string, refText: string)
    requires c.baseUrl.Some? && !IsEmotion(c)
    requires c.textParamName != c.refPathParamName && c.textParamName != c.refTextParamName
    requires c.refPathParamName != c.refTextParamName
    ensures var base := c.baseUrl.value;
            var query := (Show(c.textParamName) + "=" + text) + "&" + (Show(c.refPathParamName) + "=" + refPath)
                         + "&" + (Show(c.refTextParamName) + "=" + refText);
            BuildUrlWithRef(c, text, refPath, refText, false) == Ok(base + Separator(base) + query)
  {
    var d := RefParams(c, text, refPath, refText);
    RefParamsDistinct(c, text, refPath, refText);
    QueryStringThree(d);
    AppendUnencoded(c, d);
  }

  /** With three distinct names, the reference-mode dict holds three entries
      in insertion order. */
  lemma RefParamsDistinct(c: UrlComposer, text: string, refPath: string, refText: string)
    requires c.textParamName != c.refPathParamName && c.textParamName != c.refTextParamName
    requires c.refPathParamName != c.refTextParamName
    ensures RefParams(c, text, refPath, refText)
         == [(c.textParamName, text), (c.refPathParamName, refPath), (c.refTextParamName, refText)]
  {
    var d1 := Put([], c.textParamName, text);
    assert c.refPathParamName !in ParamKeys(d1);
    PutAt(d1, c.refPathParamName, refPath);
    var d2 := Put(d1, c.refPathParamName, refPath);
    assert ParamKeys(d2) == [c.textParamName, c.refPathParamName];
    PutDistinct(d1, c.refPathParamName, refPath);
    PutAt(d2, c.refTextParamName, refText);
  }

  /** The query string of three entries. */
  lemma QueryStringThree(d: Params)
    requires |d| == 3
    ensures QueryString(d) == Pieces(d)[0] + "&" + Pieces(d)[1] + "&" + Pieces(d)[2]
  {
    var parts := Pieces(d);
    assert parts == [parts[0]] + ([parts[1]] + [parts[2]]);
    JoinCons("&", parts[0], [parts[1]] + [parts[2]]);
    JoinCons("&", parts[1], [parts[2]]);
  }

  /** Without encoding, a non-empty dict is appended after the separator. */
  lemma AppendUnencoded(c: UrlComposer, params: Params)
    requires c.baseUrl.Some? && |params| > 0
    ensures AppendParamsToUrl(c, params, false)
         == Ok(c.baseUrl.value + Separator(c.baseUrl.value) + QueryString(params))
  {
  }

  /** The query appended at line 59 splits back at `&` into the `k=v`
      pieces of line 58, in insertion order, as long as no name and no value
      holds an `&`. */
  lemma QuerySplitsBack(params: Params)
    requires |params| > 0
    requires forall i :: 0 <= i < |params| ==> '&' !in Show(params[i].0) && '&' !in params[i].1
    ensures Split(QueryString(params), '&') == Pieces(params)
  {
    var ps := Pieces(params);
    forall i | 0 <= i < |ps|
      ensures '&' !in ps[i]
    {
      assert ps[i] == Show(params[i].0) + "=" + params[i].1;
    }
    assert "&" == ['&'];
    SplitJoin(ps, '&');
  }

  /** Encoding never touches a base URL that has neither `?` nor `#`: the
      encoded URL still starts with it. */
  lemma EncodedUrlKeepsBase(c: UrlComposer, params: Params)
    requires c.baseUrl.Some? && '?' !in c.baseUrl.value && '#' !in c.baseUrl.value
    ensures AppendParamsToUrl(c, params, true).Ok?
    ensures var url := AppendParamsToUrl(c, params, true).value;
            |c.baseUrl.value| <= |url| && url[..|c.baseUrl.value|] == c.baseUrl.value
  {
    var base := c.baseUrl.value;
    var url := if |params| > 0 then base + Separator(base) + QueryString(params) else base;
    SafeEncodeKeepsHead(url, base, url[|base|..]);
  }

  /** Characters that pass through a raw query unchanged and are read back
      as themselves: no separator, no `+`, no `%`, and none of the tab,
      carriage return and line feed that `urlparse` deletes. */
  predicate PlainValue(s: string) {
    s != "" && '&' !in s && '#' !in s && '+' !in s && '%' !in s && '\t' !in s && '\r' !in s && '\n' !in s
  }

  predicate PlainName(s: string) {
    PlainValue(s) && '=' !in s
  }

  lemma {:induction false} UnquoteToBytesPlain(s: string)
    requires '%' !in s
    ensures UnquoteToBytes(s) == Utf8.Encode(s)
    decreases |s|
  {
    if |s| > 0 {
      UnquoteToBytesPlain(s[1..]);
    }
  }

  /** A plain string decodes to itself. */
  lemma UnquotePlusPlain(s: string)
    requires '%' !in s && '+' !in s
    ensures UnquotePlus(s) == s
  {
    assert PlusToSpace(s) == s;
    UnquoteToBytesPlain(s);
    Utf8.DecodeEncode(s);
  }

  lemma ParsePlainPiece(k: string, v: string)
    requires PlainName(k) && PlainValue(v)
    ensures ParsePiece(k + "=" + v) == Some((k, v))
  {
    assert k + "=" + v == k + ("=" + v);
    SplitFirstUnique(k + "=" + v, '=', k, "=" + v);
    assert ("=" + v)[1..] == v;
    UnquotePlusPlain(k);
    UnquotePlusPlain(v);
  }

  /** A URL without `#` whose base has no `?` splits at the `?` after the base. */
  lemma SplitPlainUrl(base: string, query: string)
    requires '?' !in base && '#' !in base && '#' !in query
    ensures UrlSplit(base + "?" + query) == UrlParts(base, query, "")
  {
    var url := base + "?" + query;
    assert '#' !in url;
    SplitFirstUnique(url, '#', url, "");
    assert url == base + ("?" + query);
    SplitFirstUnique(url, '?', base, "?" + query);
    assert ("?" + query)[1..] == query;
  }

  /** Two plain pairs joined by `&` parse back to themselves, distinct keys
      keeping their only value. */
  lemma ParsePlainPair(k1: string, v1: string, k2: string, v2: string)
    requires PlainName(k1) && PlainValue(v1) && PlainName(k2) && PlainValue(v2) && k1 != k2
    ensures ParseQsl(k1 + "=" + v1 + "&" + k2 + "=" + v2) == [(k1, v1), (k2, v2)]
    ensures FirstValues([(k1, v1), (k2, v2)]) == [(k1, v1), (k2, v2)]
  {
    var a, b := k1 + "=" + v1, k2 + "=" + v2;
    assert a + "&" + b == k1 + "=" + v1 + "&" + k2 + "=" + v2;
    assert '&' !in a && '&' !in b;
    SplitPlainPieces(a, b);
    ParsePlainPiece(k1, v1);
    ParsePlainPiece(k2, v2);
    ParsePiecesTwo(a, b);
    FirstValuesTwo((k1, v1), (k2, v2));
  }

  /** Two `&`-free pieces joined with `&` split back into the two. */
  lemma SplitPlainPieces(a: string, b: string)
    requires '&' !in a && '&' !in b
    ensures Split(a + "&" + b, '&') == [a, b]
  {
    var pieces := [a, b];
    JoinCons("&", a, [b]);
    assert pieces == [a] + [b];
    SplitJoin(pieces, '&');
  }

  /** Two pieces that each parse to a pair. */
  lemma ParsePiecesTwo(a: string, b: string)
    requires ParsePiece(a).Some? && ParsePiece(b).Some?
    ensures ParsePieces([a, b]) == [ParsePiece(a).value, ParsePiece(b).value]
  {
    assert [a, b][1..] == [b];
    assert [b][1..] == [];
  }

  /** Two pairs with different keys keep both. */
  lemma FirstValuesTwo(x: (string, string), y: (string, string))
    requires x.0 != y.0
    ensures FirstValues([x, y]) == [x, y]
  {
    assert [x, y][..1] == [x];
    assert [x][..0] == [];
  }

  /** The request an emotion-mode worker sends, read back as a server's
      query parser would: the text parameter and the emotion parameter, each
      value `quote`d once more than the raw text, so a single decoding yields
      `quote(text)` and `quote(emotion)`, not the raw strings. The base URL
      has no `#` and at most a trailing `?`. */
  lemma EmotionUrlQuery(c: UrlComposer, prefix: string, suffix: string, text: string, emotion: string)
    requires c.baseUrl == Some(prefix + suffix) && (suffix == "" || suffix == "?")
    requires '?' !in prefix && '#' !in prefix
    requires IsEmotion(c) && c.textParamName.Some? && c.textParamName != c.emotionParamName
    requires PlainName(c.textParamName.value) && PlainName(c.emotionParamName.value)
    requires PlainValue(text) && PlainValue(emotion)
    ensures BuildUrlWithEmotion(c, text, emotion, true).Ok?
    ensures ParseQsl(UrlSplit(BuildUrlWithEmotion(c, text, emotion, true).value).query)
         == [(c.textParamName.value, Quote(text)), (c.emotionParamName.value, Quote(emotion))]
  {
    var tp, ep := c.textParamName.value, c.emotionParamName.value;
    var query := tp + "=" + text + "&" + ep + "=" + emotion;
    var lead := if suffix == "" then "" else "&";
    var url := prefix + "?" + (lead + query);
    EmotionUrlEncoded(c, prefix, suffix, text, emotion);
    PlainQueryFirstValues(prefix, lead, tp, text, ep, emotion);
    DecodesQuotedPair(url, tp, text, ep, emotion);
  }

  /** Proof helper: a URL whose query `parse_qs` reads as two pairs is
      re-encoded so that one decoding reads their values `quote`d. */
  lemma DecodesQuotedPair(url: string, k1: string, v1: string, k2: string, v2: string)
    requires FirstValues(ParseQsl(UrlSplit(url).query)) == [(k1, v1), (k2, v2)]
    ensures ParseQsl(UrlSplit(SafeEncodeQueryParams(url)).query) == [(k1, Quote(v1)), (k2, Quote(v2))]
  {
    SafeEncodeDecodesOnce(url);
    assert QuoteValues([(k1, v1), (k2, v2)]) == [(k1, Quote(v1)), (k2, Quote(v2))];
  }

  /** Proof helper: the encoded emotion URL is `safe_encode_query_params`
      of `prefix?`, an optional blank piece and the two pairs. */
  lemma EmotionUrlEncoded(c: UrlComposer, prefix: string, suffix: string, text: string, emotion: string)
    requires c.baseUrl == Some(prefix + suffix) && (suffix == "" || suffix == "?") && '?' !in prefix
    requires IsEmotion(c) && c.textParamName.Some? && c.textParamName != c.emotionParamName
    ensures var query := c.textParamName.value + "=" + text + "&" + c.emotionParamName.value + "=" + emotion;
            var lead := if suffix == "" then "" else "&";
            BuildUrlWithEmotion(c, text, emotion, true) == Ok(SafeEncodeQueryParams(prefix + "?" + (lead + query)))
  {
    var query := c.textParamName.value + "=" + text + "&" + c.emotionParamName.value + "=" + emotion;
    EmotionUrlUnencoded(c, text, emotion);
    BaseSeparator(prefix, suffix, query);
    EncodedIsSafeEncoded(c, text, emotion);
  }

  /** Proof helper: the query of `prefix?` then an optional blank piece and
      two plain pairs, as `parse_qs` keeps it. */
  lemma PlainQueryFirstValues(prefix: string, lead: string, k1: string, v1: string, k2: string, v2: string)
    requires '?' !in prefix && '#' !in prefix && (lead == "" || lead == "&")
    requires PlainName(k1) && PlainValue(v1) && PlainName(k2) && PlainValue(v2) && k1 != k2
    ensures var query := k1 + "=" + v1 + "&" + k2 + "=" + v2;
            FirstValues(ParseQsl(UrlSplit(prefix + "?" + (lead + query)).query)) == [(k1, v1), (k2, v2)]
  {
    var query := k1 + "=" + v1 + "&" + k2 + "=" + v2;
    SplitPlainUrl(prefix, lead + query);
    ParsePlainPair(k1, v1, k2, v2);
    if lead == "&" {
      ParseQslLeadingAmp(query);
    } else {
      assert lead + query == query;
    }
  }

  /** A base URL holding `#` and no `?`: line 58 appends `?` and the
      parameters after the `#`, so `urlparse` reads them as the fragment and
      the request carries no query at all. */
  lemma EmotionUrlHashBase(c: UrlComposer, text: string, emotion: string)
    requires c.baseUrl.Some? && '?' !in c.baseUrl.value && '#' in c.baseUrl.value
    requires IsEmotion(c)
    ensures BuildUrlWithEmotion(c, text, emotion, true).Ok?
    ensures UrlSplit(BuildUrlWithEmotion(c, text, emotion, true).value).query == ""
    ensures ParseQsl(UrlSplit(BuildUrlWithEmotion(c, text, emotion, true).value).query) == []
  {
    var base := c.baseUrl.value;
    var tail := if c.textParamName == c.emotionParamName
                then Show(c.textParamName) + "=" + emotion
                else Show(c.textParamName) + "=" + text + "&" + c.emotionParamName.value + "=" + emotion;
    var url := base + "?" + tail;
    assert BuildUrlWithEmotion(c, text, emotion, true) == Ok(SafeEncodeQueryParams(url)) by {
      EmotionUrlUnencoded(c, text, emotion);
      EncodedIsSafeEncoded(c, text, emotion);
    }
    HashBaseSplit(base, tail);
    SafeEncodeNoQuery(url);
    ParseQslEmpty();
  }

  /** Proof helper: after a base holding `#` and no `?`, everything goes to
      the fragment. */
  lemma HashBaseSplit(base: string, tail: string)
    requires '?' !in base && '#' in base
    ensures UrlSplit(base + "?" + tail).query == ""
  {
    var url := base + "?" + tail;
    var (pre, post) := SplitFirst(base, '#');
    assert post.Some?;
    assert url == pre + ("#" + post.value + "?" + tail);
    SplitFirstUnique(url, '#', pre, "#" + post.value + "?" + tail);
    assert '?' !in pre by {
      assert base == pre + ("#" + post.value);
      assert forall i :: 0 <= i < |pre| ==> pre[i] == base[i];
    }
    SplitFirstUnique(pre, '?', pre, "");
  }

  /** Unreserved text is plain in the sense above. */
  lemma UnreservedPlain(s: string)
    requires s != "" && Unreserved(s)
    ensures PlainName(s)
  {
    forall i | 0 <= i < |s|
      ensures s[i] != '&' && s[i] != '#' && s[i] != '+' && s[i] != '%' && s[i] != '='
      ensures s[i] != '\t' && s[i] != '\r' && s[i] != '\n'
    {
      assert AlwaysSafe(s[i]);
    }
  }

  /** A leading `&` only adds a blank piece, which `parse_qsl` drops. */
  lemma ParseQslLeadingAmp(tail: string)
    ensures ParseQsl("&" + tail) == ParseQsl(tail)
  {
    SplitPrefix("", tail, '&');
    assert "" + ("&" + tail) == "&" + tail;
    assert ([""] + Split(tail, '&'))[1..] == Split(tail, '&');
  }

  /** Re-encoding two unreserved pairs writes them back unchanged. */
  lemma EncodeUnreservedPair(k1: string, v1: string, k2: string, v2: string)
    requires Unreserved(k1) && Unreserved(v1) && Unreserved(k2) && Unreserved(v2)
    ensures UrlEncode(QuoteValues([(k1, v1), (k2, v2)])) == k1 + "=" + v1 + "&" + k2 + "=" + v2
  {
    var pairs := [(k1, v1), (k2, v2)];
    assert QuoteValues(pairs) == pairs by {
      QuoteUnreserved(v1, false);
      QuoteUnreserved(v2, false);
    }
    UrlEncodeTwo(k1, v1, k2, v2);
    QuoteUnreserved(k1, true);
    QuoteUnreserved(k2, true);
    QuoteUnreserved(v1, true);
    QuoteUnreserved(v2, true);
  }

  /** `urlencode` of two pairs. */
  lemma UrlEncodeTwo(k1: string, v1: string, k2: string, v2: string)
    ensures UrlEncode([(k1, v1), (k2, v2)])
         == QuotePlus(k1) + "=" + QuotePlus(v1) + "&" + (QuotePlus(k2) + "=" + QuotePlus(v2))
  {
    var pairs := [(k1, v1), (k2, v2)];
    var pieces := seq(|pairs|, i requires 0 <= i < |pairs| => QuotePlus(pairs[i].0) + "=" + QuotePlus(pairs[i].1));
    assert pieces == [pieces[0]] + [pieces[1]];
    JoinCons("&", pieces[0], [pieces[1]]);
  }

  /** `safe_encode_query_params` on a URL whose query is two unreserved
      pairs, possibly after a blank piece, gives `prefix?k1=v1&k2=v2`. */
  lemma SafeEncodeUnreservedPair(prefix: string, lead: string, k1: string, v1: string, k2: string, v2: string)
    requires '?' !in prefix && '#' !in prefix && (lead == "" || lead == "&")
    requires k1 != "" && v1 != "" && k2 != "" && v2 != "" && k1 != k2
    requires Unreserved(k1) && Unreserved(v1) && Unreserved(k2) && Unreserved(v2)
    ensures var tail := k1 + "=" + v1 + "&" + k2 + "=" + v2;
            SafeEncodeQueryParams(prefix + "?" + (lead + tail)) == prefix + "?" + tail
  {
    var tail := k1 + "=" + v1 + "&" + k2 + "=" + v2;
    var pairs := [(k1, v1), (k2, v2)];
    UnreservedPairQuery(lead, k1, v1, k2, v2);
    SplitPlainUrl(prefix, lead + tail);
    EncodeUnreservedPair(k1, v1, k2, v2);
    SafeEncodeParts(prefix + "?" + (lead + tail), UrlParts(prefix, lead + tail, ""), pairs, tail);
    UnsplitQuery(prefix, tail);
  }

  /** The raw query `k1=v1&k2=v2`, after an optional blank piece, has no
      `#` and parses to the two pairs. */
  lemma UnreservedPairQuery(lead: string, k1: string, v1: string, k2: string, v2: string)
    requires lead == "" || lead == "&"
    requires k1 != "" && v1 != "" && k2 != "" && v2 != "" && k1 != k2
    requires Unreserved(k1) && Unreserved(v1) && Unreserved(k2) && Unreserved(v2)
    ensures var tail := k1 + "=" + v1 + "&" + k2 + "=" + v2;
            '#' !in lead + tail && FirstValues(ParseQsl(lead + tail)) == [(k1, v1), (k2, v2)]
  {
    var tail := k1 + "=" + v1 + "&" + k2 + "=" + v2;
    UnreservedPlain(k1);
    UnreservedPlain(v1);
    UnreservedPlain(k2);
    UnreservedPlain(v2);
    assert '#' !in lead + tail;
    ParsePlainPair(k1, v1, k2, v2);
    if lead == "&" {
      ParseQslLeadingAmp(tail);
    } else {
      assert lead + tail == tail;
    }
  }

  /** A piece without `=` between two others is dropped by `parse_qsl`. */
  lemma ParseDropsBarePiece(a: string, b: string, c: string)
    requires '&' !in a && '&' !in b && '&' !in c && '=' !in b
    ensures ParseQsl(a + "&" + b + "&" + c) == ParseQsl(a + "&" + c)
  {
    var s3 := a + "&" + b + "&" + c;
    assert Split(s3, '&') == [a, b, c] by {
      assert s3 == a + (['&'] + (b + "&" + c));
      SplitPrefix(a, b + "&" + c, '&');
      SplitPlainPieces(b, c);
    }
    SplitPlainPieces(a, c);
    BarePiece(b);
    ParsePiecesSkip(a, b, c);
  }

  /** A piece without `=` parses to nothing. */
  lemma BarePiece(b: string)
    requires '=' !in b
    ensures ParsePiece(b) == None
  {
  }

  lemma ParsePiecesSkip(a: string, b: string, c: string)
    requires ParsePiece(b).None?
    ensures ParsePieces([a, b, c]) == ParsePieces([a, c])
  {
    assert [a, b, c][1..] == [b, c];
    assert [b, c][1..] == [c];
    assert [a, c][1..] == [c];
  }

  /** The same, after an optional blank piece. */
  lemma ParseDropsBareAfterLead(lead: string, a: string, b: string, c: string)
    requires lead == "" || lead == "&"
    requires '&' !in a && '&' !in b && '&' !in c && '=' !in b
    ensures ParseQsl(lead + (a + "&" + b + "&" + c)) == ParseQsl(lead + (a + "&" + c))
  {
    ParseDropsBarePiece(a, b, c);
    if lead == "&" {
      ParseQslLeadingAmp(a + "&" + b + "&" + c);
      ParseQslLeadingAmp(a + "&" + c);
    } else {
      assert lead + (a + "&" + b + "&" + c) == a + "&" + b + "&" + c;
      assert lead + (a + "&" + c) == a + "&" + c;
    }
  }

  /** The raw query of a text `t1&t2` with unreserved parts, after an
      optional blank piece: `t2` becomes a bare piece, so the query parses
      to the text `t1` and the emotion. */
  lemma CutQuery(lead: string, tp: string, t1: string, t2: string, ep: string, emotion: string)
    requires lead == "" || lead == "&"
    requires tp != "" && t1 != "" && t2 != "" && ep != "" && emotion != "" && tp != ep
    requires Unreserved(tp) && Unreserved(t1) && Unreserved(t2) && Unreserved(ep) && Unreserved(emotion)
    ensures var long := (tp + "=" + t1) + "&" + t2 + "&" + (ep + "=" + emotion);
            '#' !in lead + long && FirstValues(ParseQsl(lead + long)) == [(tp, t1), (ep, emotion)]
  {
    var a, c := tp + "=" + t1, ep + "=" + emotion;
    assert a + "&" + c == tp + "=" + t1 + "&" + ep + "=" + emotion;
    UnreservedPairQuery(lead, tp, t1, ep, emotion);
    assert '&' !in a && '&' !in c by {
      UnreservedPlain(tp);
      UnreservedPlain(t1);
      UnreservedPlain(ep);
      UnreservedPlain(emotion);
    }
    UnreservedPlain(t2);
    ParseDropsBareAfterLead(lead, a, t2, c);
    HashFreeCut(lead, a, t2, c);
  }

  /** Proof helper: putting a piece free of `#` into a query free of `#`. */
  lemma HashFreeCut(lead: string, a: string, b: string, c: string)
    requires '#' !in lead + (a + "&" + c) && '#' !in b
    ensures '#' !in lead + (a + "&" + b + "&" + c)
  {
    assert '#' !in a && '#' !in c by {
      assert lead + (a + "&" + c) == (lead + a) + "&" + c;
    }
  }

  /** `safe_encode_query_params` on the raw URL of a text `t1&t2`: the
      rebuilt query holds `t1` and the emotion only. */
  lemma SafeEncodeCut(prefix: string, lead: string, tp: string, t1: string, t2: string, ep: string, emotion: string)
    requires '?' !in prefix && '#' !in prefix && (lead == "" || lead == "&")
    requires tp != "" && t1 != "" && t2 != "" && ep != "" && emotion != "" && tp != ep
    requires Unreserved(tp) && Unreserved(t1) && Unreserved(t2) && Unreserved(ep) && Unreserved(emotion)
    ensures var long := (tp + "=" + t1) + "&" + t2 + "&" + (ep + "=" + emotion);
            SafeEncodeQueryParams(prefix + "?" + (lead + long)) == prefix + "?" + (tp + "=" + t1 + "&" + ep + "=" + emotion)
  {
    var long := (tp + "=" + t1) + "&" + t2 + "&" + (ep + "=" + emotion);
    var tail := tp + "=" + t1 + "&" + ep + "=" + emotion;
    CutQuery(lead, tp, t1, t2, ep, emotion);
    SplitPlainUrl(prefix, lead + long);
    EncodeUnreservedPair(tp, t1, ep, emotion);
    SafeEncodeParts(prefix + "?" + (lead + long), UrlParts(prefix, lead + long, ""), [(tp, t1), (ep, emotion)], tail);
    UnsplitQuery(prefix, tail);
  }

  /** The raw emotion URL of a text `t1&t2`. */
  lemma CutUrlUnencoded(c: UrlComposer, prefix: string, suffix: string, t1: string, t2: string, emotion: string)
    requires c.baseUrl == Some(prefix + suffix) && (suffix == "" || suffix == "?") && '?' !in prefix
    requires IsEmotion(c) && c.textParamName.Some? && c.textParamName != c.emotionParamName
    ensures var tp, ep := c.textParamName.value, c.emotionParamName.value;
            var lead := if suffix == "" then "" else "&";
            var long := (tp + "=" + t1) + "&" + t2 + "&" + (ep + "=" + emotion);
            BuildUrlWithEmotion(c, t1 + "&" + t2, emotion, false) == Ok(prefix + "?" + (lead + long))
  {
    var base := prefix + suffix;
    var tp, ep := c.textParamName.value, c.emotionParamName.value;
    var lead := if suffix == "" then "" else "&";
    var long := (tp + "=" + t1) + "&" + t2 + "&" + (ep + "=" + emotion);
    EmotionUrlUnencoded(c, t1 + "&" + t2, emotion);
    CutTail(tp, t1, t2, ep, emotion);
    BaseSeparator(prefix, suffix, long);
  }

  /** Proof helper: the query of a text `t1&t2`, regrouped by `&`. */
  lemma CutTail(tp: string, t1: string, t2: string, ep: string, emotion: string)
    ensures tp + "=" + (t1 + "&" + t2) + "&" + ep + "=" + emotion
         == (tp + "=" + t1) + "&" + t2 + "&" + (ep + "=" + emotion)
  {
  }

  /** Proof helper: a base URL without `?`, or with one `?` at its end,
      followed by its separator. */
  lemma BaseSeparator(prefix: string, suffix: string, q: string)
    requires '?' !in prefix && (suffix == "" || suffix == "?")
    ensures (prefix + suffix) + Separator(prefix + suffix) + q
         == prefix + "?" + ((if suffix == "" then "" else "&") + q)
  {
    if suffix == "?" {
      assert (prefix + suffix)[|prefix|] == '?';
    } else {
      assert prefix + suffix == prefix;
    }
  }

  /** Lines 58 and 66 together: a value is written into the query raw and
      the query is parsed again, so a text holding `&` is cut there and what
      follows, holding no `=`, is dropped as a bare piece. The URL sent for
      `t1&t2` is the one for `t1` alone. */
  lemma EmotionUrlCutAtAmpersand(c: UrlComposer, prefix: string, suffix: string, t1: string, t2: string, emotion: string)
    requires c.baseUrl == Some(prefix + suffix) && (suffix == "" || suffix == "?")
    requires '?' !in prefix && '#' !in prefix
    requires IsEmotion(c) && c.textParamName.Some? && c.textParamName != c.emotionParamName
    requires c.textParamName.value != "" && Unreserved(c.textParamName.value) && Unreserved(c.emotionParamName.value)
    requires t1 != "" && t2 != "" && emotion != "" && Unreserved(t1) && Unreserved(t2) && Unreserved(emotion)
    ensures BuildUrlWithEmotion(c, t1 + "&" + t2, emotion, true) == BuildUrlWithEmotion(c, t1, emotion, true)
  {
    var tp, ep := c.textParamName.value, c.emotionParamName.value;
    var lead := if suffix == "" then "" else "&";
    CutUrlUnencoded(c, prefix, suffix, t1, t2, emotion);
    EncodedIsSafeEncoded(c, t1 + "&" + t2, emotion);
    SafeEncodeCut(prefix, lead, tp, t1, t2, ep, emotion);
    EmotionUrlPlain(c, prefix, suffix, t1, emotion);
  }

  /** A URL with a non-empty query and no fragment is written `prefix?query`. */
  lemma UnsplitQuery(prefix: string, query: string)
    requires query != ""
    ensures UrlUnsplit(UrlParts(prefix, query, "")) == prefix + "?" + query
  {
  }

  /** `safe_encode_query_params` in terms of the URL's parts, its first
      values and their encoding. */
  lemma SafeEncodeParts(url: string, p: UrlParts, pairs: seq<(string, string)>, encoded: string)
    requires UrlSplit(url) == p && FirstValues(ParseQsl(p.query)) == pairs
    requires UrlEncode(QuoteValues(pairs)) == encoded
    ensures SafeEncodeQueryParams(url) == UrlUnsplit(p.(query := encoded))
  {
  }

  /** The encoded URL is `safe_encode_query_params` of the unencoded one. */
  lemma EncodedIsSafeEncoded(c: UrlComposer, text: string, emotion: string)
    requires BuildUrlWithEmotion(c, text, emotion, false).Ok?
    ensures BuildUrlWithEmotion(c, text, emotion, true)
         == Ok(SafeEncodeQueryParams(BuildUrlWithEmotion(c, text, emotion, false).value))
  {
  }

  /** With unreserved names and values, the encoded emotion-mode URL is the
      part of the base URL before its `?`, then `?text=<text>&emotion=<emotion>`:
      a base URL that already ends in `?` gets `?&...` before encoding and the
      blank piece disappears when the query is rebuilt. */
  lemma EmotionUrlPlain(c: UrlComposer, prefix: string, suffix: string, text: string, emotion: string)
    requires c.baseUrl == Some(prefix + suffix) && (suffix == "" || suffix == "?")
    requires '?' !in prefix && '#' !in prefix
    requires IsEmotion(c) && c.textParamName.Some? && c.textParamName != c.emotionParamName
    requires c.textParamName.value != "" && Unreserved(c.textParamName.value) && Unreserved(c.emotionParamName.value)
    requires text != "" && emotion != "" && Unreserved(text) && Unreserved(emotion)
    ensures var tail := c.textParamName.value + "=" + text + "&" + c.emotionParamName.value + "=" + emotion;
            BuildUrlWithEmotion(c, text, emotion, true) == Ok(prefix + "?" + tail)
  {
    var base := prefix + suffix;
    var tp, ep := c.textParamName.value, c.emotionParamName.value;
    var tail := tp + "=" + text + "&" + ep + "=" + emotion;
    var lead := if suffix == "" then "" else "&";
    assert BuildUrlWithEmotion(c, text, emotion, false) == Ok(prefix + "?" + (lead + tail)) by {
      EmotionUrlUnencoded(c, text, emotion);
      assert base + Separator(base) + tail == prefix + "?" + (lead + tail);
    }
    EncodedIsSafeEncoded(c, text, emotion);
    SafeEncodeUnreservedPair(prefix, lead, tp, text, ep, emotion);
  }
}
