/** Values shared by every part of the model: Python's `None`, the exceptions
    the audio-generation code raises, bytes, and the string helpers
    (`str.join`, `str.split`, `str.split(sep, 1)`) it relies on. */
module Base {

  /** Python's `None` next to a present value. */
  datatype Option<+T> = None | Some(value: T) {
    function GetOr(default: T): T {
      match this
      case Some(v) => v
      case None => default
    }
  }

  /** Why `URLComposer` refused (each is a `ValueError` in the source). */
  datatype ConfigProblem =
    | MissingUrl          // is_valid: base_url is None or ''
    | MissingTextParam    // is_valid: text_param_name is None or ''
    | MissingModeParam    // is_valid: no emotion/ref parameter name at all
    | EmotionParamNotSet  // build_url_with_emotion in reference mode
    | EmotionParamSet     // build_url_with_ref in emotion mode

  /** The exceptions the modelled code can raise. */
  datatype Error =
    | ConfigError(problem: ConfigProblem)
    | NoneBaseUrl              // TypeError: `'?' not in None`
    | KeyError(key: string)    // a profile dict lacks a key
    | FetchFailed(status: int) // the API answered with a status other than 200
    | ConnectionFailed         // requests raised before any status arrived
    | BadSectionCount          // np.array_split with no sections

  /** A value or the exception that replaced it. */
  datatype Result<+T> = Ok(value: T) | Err(error: Error)

  type Byte = x: int | 0 <= x < 256
  type Bytes = seq<Byte>

  /** Python truthiness of a `str` or `None`: set and non-empty. */
  predicate Truthy(o: Option<string>) {
    o.Some? && o.value != ""
  }

  /** `sep.join(parts)` */
  function Join(sep: string, parts: seq<string>): string
    decreases |parts|
  {
    if |parts| == 0 then ""
    else if |parts| == 1 then parts[0]
    else parts[0] + sep + Join(sep, parts[1..])
  }

  lemma JoinCons(sep: string, x: string, parts: seq<string>)
    requires |parts| >= 1
    ensures Join(sep, [x] + parts) == x + sep + Join(sep, parts)
  {
    assert ([x] + parts)[1..] == parts;
  }

  /** `s.split(sep)`: always at least one piece, the separators dropped. */
  function Split(s: string, sep: char): (pieces: seq<string>)
    ensures |pieces| >= 1
    ensures forall i :: 0 <= i < |pieces| ==> sep !in pieces[i]
    ensures Join([sep], pieces) == s
    decreases |s|
  {
    if |s| == 0 then [""]
    else
      var rest := Split(s[1..], sep);
      if s[0] == sep then
        assert s == [sep] + s[1..];
        [""] + rest
      else
        assert s == [s[0]] + s[1..];
        JoinHead([s[0]], rest, [sep]);
        [[s[0]] + rest[0]] + rest[1..]
  }

  /** Prepending to the first piece prepends to the joined string. */
  lemma JoinHead(x: string, parts: seq<string>, sep: string)
    requires |parts| >= 1
    ensures Join(sep, [x + parts[0]] + parts[1..]) == x + Join(sep, parts)
  {
    var ps := [x + parts[0]] + parts[1..];
    if |parts| > 1 {
      assert ps[1..] == parts[1..];
    }
  }

  /** Splitting a join whose pieces avoid the separator gives the pieces back. */
  lemma {:induction false} SplitJoin(parts: seq<string>, sep: char)
    requires |parts| >= 1
    requires forall i :: 0 <= i < |parts| ==> sep !in parts[i]
    ensures Split(Join([sep], parts), sep) == parts
  {
    var p := parts[0];
    if |parts| == 1 {
      SplitNoSep(p, sep);
    } else {
      SplitJoin(parts[1..], sep);
      SplitPrefix(p, Join([sep], parts[1..]), sep);
      assert Join([sep], parts) == p + ([sep] + Join([sep], parts[1..]));
      assert [""] + Split(Join([sep], parts[1..]), sep) == [""] + parts[1..];
    }
  }

  /** A string without the separator splits into itself. */
  lemma {:induction false} SplitNoSep(s: string, sep: char)
    requires sep !in s
    ensures Split(s, sep) == [s]
    decreases |s|
  {
    if |s| > 0 {
      SplitNoSep(s[1..], sep);
      assert s == [s[0]] + s[1..];
    }
  }

  /** A separator-free head before a separator becomes the first piece. */
  lemma {:induction false} SplitPrefix(p: string, rest: string, sep: char)
    requires sep !in p
    ensures Split(p + ([sep] + rest), sep) == [p] + Split(rest, sep)
    decreases |p|
  {
    var s := p + ([sep] + rest);
    if |p| == 0 {
      assert s == [sep] + rest;
      assert s[1..] == rest;
    } else {
      SplitPrefix(p[1..], rest, sep);
      assert s[1..] == p[1..] + ([sep] + rest);
      assert p == [p[0]] + p[1..];
    }
  }

  /** `s.split(sep, 1)` / `s.partition(sep)`: the part before the first
      separator and, when there is one, the part after it. */
  function SplitFirst(s: string, sep: char): (r: (string, Option<string>))
    ensures sep !in r.0
    ensures r.1.None? ==> r.0 == s
    ensures r.1.Some? ==> s == r.0 + [sep] + r.1.value
    decreases |s|
  {
    if |s| == 0 then (s, None)
    else if s[0] == sep then ("", Some(s[1..]))
    else
      var rest := SplitFirst(s[1..], sep);
      assert s == [s[0]] + s[1..];
      ([s[0]] + rest.0, rest.1)
  }

  /** The head before the first separator is unique: any decomposition of
      `s` into a separator-free head and a tail that is empty or starts with
      the separator is the one `SplitFirst` finds. */
  lemma {:induction false} SplitFirstUnique(s: string, sep: char, head: string, tail: string)
    requires s == head + tail && sep !in head
    requires tail == [] || tail[0] == sep
    ensures SplitFirst(s, sep).0 == head
    ensures tail == [] ==> SplitFirst(s, sep).1 == None
    ensures tail != [] ==> SplitFirst(s, sep).1 == Some(tail[1..])
    decreases |head|
  {
    if |head| > 0 {
      assert s[0] == head[0];
      assert s[1..] == head[1..] + tail;
      SplitFirstUnique(s[1..], sep, head[1..], tail);
      assert head == [head[0]] + head[1..];
    } else {
      assert s == tail;
    }
  }
}
