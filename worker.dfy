/** `generate_audio_files_for_emotion_group` and `inference_audio_from_api`
    (audio_inference.py, lines 96-164): for every (text, voice profile) pair,
    texts outer and profiles inner, make sure two copies of the synthesised
    audio exist, one indexed by text and one by emotion, fetching from the
    inference API only when one of them is missing.

    `Step` and `Run` give the meaning of the loop as a function of the
    starting disk; the method is proved to compute exactly that, and the
    lemmas below state what the source promises about it. */
module Worker {
  import opened Base
  import opened Composer
  import opened Files

  /** One entry of `emotion_list`: a dict from which the worker reads the
      keys `emotion`, `ref_path` and `ref_text`. `None` means the key is
      absent, so reading it raises `KeyError`. */
  datatype Profile = Profile(emotion: Option<string>, refPath: Option<string>, refText: Option<string>)

  /** What `requests.get(url)` gives: a response with a status code and a
      body, or no response at all (the request raised). */
  datatype Response = Reply(status: int, content: Bytes) | NoReply

  /** Where the worker writes: `output_dir_path` and the two aggregation
      directory names it reads from the configuration. */
  datatype Layout = Layout(outputDir: Path, textAggregationDir: string, emotionAggregationDir: string)

  /** Everything the worker reads and never changes: the composer, the
      layout and the API, a function from URL to response. */
  datatype Env = Env(composer: UrlComposer, layout: Layout, fetch: string -> Response)

  /** `inference_audio_from_api`: the body of a 200 response, otherwise an
      exception carrying the status (or the transport failure). */
  function InferenceAudioFromApi(fetch: string -> Response, url: string): (r: Result<Bytes>)
    ensures r.Ok? <==> fetch(url).Reply? && fetch(url).status == 200
    ensures r.Ok? ==> r.value == fetch(url).content
    ensures fetch(url).Reply? && fetch(url).status != 200 ==> r == Err(FetchFailed(fetch(url).status))
    ensures fetch(url).NoReply? ==> r == Err(ConnectionFailed)
  {
    match fetch(url)
    case NoReply => Err(ConnectionFailed)
    case Reply(status, content) => if status == 200 then Ok(content) else Err(FetchFailed(status))
  }

  function TextRoot(l: Layout): Path {
    PathJoin(l.outputDir, l.textAggregationDir)
  }

  function EmotionRoot(l: Layout): Path {
    PathJoin(l.outputDir, l.emotionAggregationDir)
  }

  /** `text_subdir/<text>` */
  function TextDir(l: Layout, text: string): Path {
    PathJoin(TextRoot(l), text)
  }

  /** `emotion_subdir/<emotion>` */
  function EmotionDir(l: Layout, name: string): Path {
    PathJoin(EmotionRoot(l), name)
  }

  /** `text_subdir/<text>/<emotion>.wav` */
  function TextFile(l: Layout, text: string, name: string): Path {
    PathJoin(TextDir(l, text), name + ".wav")
  }

  /** `emotion_subdir/<emotion>/<text>.wav` */
  function EmotionFile(l: Layout, text: string, name: string): Path {
    PathJoin(EmotionDir(l, name), text + ".wav")
  }

  /** The three directories made before the loop. */
  function Setup(l: Layout, d: Disk): Disk {
    WithDir(WithDir(WithDir(d, l.outputDir), TextRoot(l)), EmotionRoot(l))
  }

  /** `list(itertools.product(xs, ys))`: every pair, the first list outer. */
  function Product<X, Y>(xs: seq<X>, ys: seq<Y>): (ps: seq<(X, Y)>)
    ensures forall k :: 0 <= k < |ps| ==> ps[k].0 in xs && ps[k].1 in ys
    decreases |xs|
  {
    if |xs| == 0 then []
    else seq(|ys|, j requires 0 <= j < |ys| => (xs[0], ys[j])) + Product(xs[1..], ys)
  }

  /** Pair `(xs[a], ys[b])` sits at index `a * |ys| + b`, and there are
      `|xs| * |ys|` pairs. */
  lemma {:induction false} ProductAt<X, Y>(xs: seq<X>, ys: seq<Y>, a: nat, b: nat)
    requires a < |xs| && b < |ys|
    ensures |Product(xs, ys)| == |xs| * |ys|
    ensures a * |ys| + b < |Product(xs, ys)| && Product(xs, ys)[a * |ys| + b] == (xs[a], ys[b])
    decreases a
  {
    ProductLength(xs, ys);
    if a > 0 {
      ProductAt(xs[1..], ys, a - 1, b);
      assert a * |ys| + b == |ys| + ((a - 1) * |ys| + b);
    }
  }

  lemma {:induction false} ProductLength<X, Y>(xs: seq<X>, ys: seq<Y>)
    ensures |Product(xs, ys)| == |xs| * |ys|
    decreases |xs|
  {
    if |xs| > 0 {
      ProductLength(xs[1..], ys);
      assert |xs| * |ys| == |ys| + (|xs| - 1) * |ys|;
    }
  }

  /** The URL of one request (lines 133-136); the reference-mode keys are
      read in argument order. This only dispatches: what the URL holds is
      proved about the builders (Composer.EmotionUrlQuery,
      Composer.EmotionUrlPlain, Composer.EmotionUrlCutAtAmpersand,
      Composer.EmotionUrlHashBase) and for the scenario's base URL
      (Scenarios.HappyUrl, Scenarios.ScenarioAmpersand). */
  function RequestUrl(c: UrlComposer, text: string, p: Profile): (r: Result<string>)
    requires p.emotion.Some?
    ensures IsEmotion(c) ==> r == BuildUrlWithEmotion(c, text, p.emotion.value, true)
    ensures !IsEmotion(c) && p.refPath.Some? && p.refText.Some? ==>
              r == BuildUrlWithRef(c, text, p.refPath.value, p.refText.value, true)
    ensures !IsEmotion(c) && p.refPath.None? ==> r == Err(KeyError("ref_path"))
    ensures !IsEmotion(c) && p.refPath.Some? && p.refText.None? ==> r == Err(KeyError("ref_text"))
  {
    if IsEmotion(c) then BuildUrlWithEmotion(c, text, p.emotion.value, true)
    else if p.refPath.None? then Err(KeyError("ref_path"))
    else if p.refText.None? then Err(KeyError("ref_text"))
    else BuildUrlWithRef(c, text, p.refPath.value, p.refText.value, true)
  }

  /** The loop's state: the disk, the URLs requested so far, the progress
      counter and the exception that ended the loop, if any. */
  datatype Progress = Progress(disk: Disk, fetched: seq<string>, count: nat, failure: Option<Error>)

  /** One iteration of the loop (lines 117-147). Once an exception is
      raised nothing more happens. */
  function Step(e: Env, s: Progress, text: string, p: Profile): (r: Progress)
    ensures Grows(s.disk, r.disk)
    ensures s.fetched <= r.fetched && |r.fetched| <= |s.fetched| + 1
    ensures r.failure.None? ==> s.failure.None? && r.count == s.count + 1
    ensures s.failure.Some? ==> r == s
  {
    if s.failure.Some? then s
    else if p.emotion.None? then s.(failure := Some(KeyError("emotion")))
    else
      var name := p.emotion.value;
      var l := e.layout;
      var d := WithDir(WithDir(s.disk, TextDir(l, text)), EmotionDir(l, name));
      var a, b := TextFile(l, text, name), EmotionFile(l, text, name);
      if Exists(d, a) && Exists(d, b) then s.(disk := d, count := s.count + 1)
      else Request(e, s.(disk := d), text, p)
  }

  /** The rest of an iteration whose two files are not both there
      (lines 133-147): the request, then both writes. */
  function Request(e: Env, s: Progress, text: string, p: Profile): Progress
    requires p.emotion.Some?
  {
    var a, b := TextFile(e.layout, text, p.emotion.value), EmotionFile(e.layout, text, p.emotion.value);
    match RequestUrl(e.composer, text, p)
    case Err(err) => s.(failure := Some(err))
    case Ok(url) =>
      match InferenceAudioFromApi(e.fetch, url)
      case Err(err) => s.(fetched := s.fetched + [url], failure := Some(err))
      case Ok(audio) => Progress(WithFile(WithFile(s.disk, a, audio), b, audio), s.fetched + [url], s.count + 1, None)
  }

  /** The loop over `pairs` from `start`, one step per pair in order. */
  function Run(e: Env, start: Progress, pairs: seq<(string, Profile)>): Progress
    decreases |pairs|
  {
    if |pairs| == 0 then start
    else
      var last := pairs[|pairs| - 1];
      Step(e, Run(e, start, pairs[..|pairs| - 1]), last.0, last.1)
  }

  /** The whole worker on a starting disk `d`. */
  function GroupRun(e: Env, texts: seq<string>, profiles: seq<Profile>, d: Disk): Progress {
    Run(e, Progress(Setup(e.layout, d), [], 0, None), Product(texts, profiles))
  }

  /** How the worker ends: the final count, or the exception it raised. */
  function Outcome(g: Progress): Result<nat> {
    match g.failure
    case Some(err) => Err(err)
    case None => Ok(g.count)
  }

  /** `generate_audio_files_for_emotion_group`. The counter is returned (the
      source only logs it) and so are the URLs requested, in order. */
  method GenerateAudioFilesForEmotionGroup(fs: FileSystem, urlComposer: UrlComposer, texts: seq<string>,
                                           profiles: seq<Profile>, layout: Layout, fetch: string -> Response)
    returns (fetched: seq<string>, outcome: Result<nat>)
    modifies fs
    ensures var g := GroupRun(Env(urlComposer, layout, fetch), texts, profiles, old(fs.State()));
            fs.State() == g.disk && fetched == g.fetched && outcome == Outcome(g)
  {
    ghost var e := Env(urlComposer, layout, fetch);
    fs.MakeDirs(layout.outputDir);
    fs.MakeDirs(TextRoot(layout));
    fs.MakeDirs(EmotionRoot(layout));
    var hasGeneratedCount := 0;
    var cartesianProduct := Product(texts, profiles);
    fetched := [];
    ghost var start := Progress(fs.State(), [], 0, None);
    var i := 0;
    while i < |cartesianProduct|
      invariant i <= |cartesianProduct|
      invariant Run(e, start, cartesianProduct[..i]) == Progress(fs.State(), fetched, hasGeneratedCount, None)
    {
      var (text, emotion) := cartesianProduct[i];
      RunNext(e, start, cartesianProduct, i);
      var failure;
      fetched, hasGeneratedCount, failure := GeneratePair(fs, urlComposer, layout, fetch, text, emotion,
                                                          fetched, hasGeneratedCount);
      if failure.Some? {
        outcome := Err(failure.value);
        RunFailureSticks(e, start, cartesianProduct, i + 1);
        return;
      }
      i := i + 1;
    }
    assert cartesianProduct[..i] == cartesianProduct;
    outcome := Ok(hasGeneratedCount);
  }

  /** One pass of the worker's loop body, for the pair (`text`, `emotion`):
      the directories, the existence check, the request and the two writes.
      `failure` is the exception the body raises, if any. */
  method GeneratePair(fs: FileSystem, urlComposer: UrlComposer, layout: Layout, fetch: string -> Response,
                      text: string, emotion: Profile, fetched0: seq<string>, count0: nat)
    returns (fetched: seq<string>, count: nat, failure: Option<Error>)
    modifies fs
    ensures Step(Env(urlComposer, layout, fetch), Progress(old(fs.State()), fetched0, count0, None), text, emotion)
         == Progress(fs.State(), fetched, count, failure)
  {
    fetched, count := fetched0, count0;
    if emotion.emotion.None? {
      failure := Some(KeyError("emotion"));
      return;
    }
    var emotionName := emotion.emotion.value;
    var textSubdirText := PathJoin(TextRoot(layout), text);
    fs.MakeDirs(textSubdirText);
    var textFilePath := PathJoin(textSubdirText, emotionName + ".wav");
    var emotionSubdirEmotion := PathJoin(EmotionRoot(layout), emotionName);
    fs.MakeDirs(emotionSubdirEmotion);
    var emotionFilePath := PathJoin(emotionSubdirEmotion, text + ".wav");
    var textExists := fs.PathExists(textFilePath);
    var emotionExists := fs.PathExists(emotionFilePath);
    if textExists && emotionExists {
      count, failure := count + 1, None;
      return;
    }
    fetched, count, failure := RequestAndWrite(fs, urlComposer, layout, fetch, text, emotion, fetched, count);
  }

  /** The request and the two writes of one loop pass (lines 133-147). */
  method RequestAndWrite(fs: FileSystem, urlComposer: UrlComposer, layout: Layout, fetch: string -> Response,
                         text: string, emotion: Profile, fetched0: seq<string>, count0: nat)
    returns (fetched: seq<string>, count: nat, failure: Option<Error>)
    requires emotion.emotion.Some?
    modifies fs
    ensures Request(Env(urlComposer, layout, fetch), Progress(old(fs.State()), fetched0, count0, None), text, emotion)
         == Progress(fs.State(), fetched, count, failure)
  {
    fetched, count := fetched0, count0;
    var textFilePath := TextFile(layout, text, emotion.emotion.value);
    var emotionFilePath := EmotionFile(layout, text, emotion.emotion.value);
    var realUrl := RequestUrl(urlComposer, text, emotion);
    if realUrl.Err? {
      failure := Some(realUrl.error);
      return;
    }
    var audioBytes := InferenceAudioFromApi(fetch, realUrl.value);
    fetched := fetched + [realUrl.value];
    if audioBytes.Err? {
      failure := Some(audioBytes.error);
      return;
    }
    fs.WriteBytes(textFilePath, audioBytes.value);
    fs.WriteBytes(emotionFilePath, audioBytes.value);
    count, failure := count + 1, None;
  }

  /** The run over one more pair is one more step. */
  lemma RunNext(e: Env, start: Progress, pairs: seq<(string, Profile)>, i: nat)
    requires i < |pairs|
    ensures Run(e, start, pairs[..i + 1]) == Step(e, Run(e, start, pairs[..i]), pairs[i].0, pairs[i].1)
  {
    assert pairs[..i + 1][..i] == pairs[..i];
  }

  /** An exception ends the loop: once the run over the first `k` pairs has
      failed, the remaining pairs change nothing. */
  lemma {:induction false} RunFailureSticks(e: Env, start: Progress, pairs: seq<(string, Profile)>, k: nat)
    requires k <= |pairs|
    requires Run(e, start, pairs[..k]).failure.Some?
    ensures Run(e, start, pairs) == Run(e, start, pairs[..k])
    decreases |pairs|
  {
    if k < |pairs| {
      var init := pairs[..|pairs| - 1];
      assert init[..k] == pairs[..k];
      RunFailureSticks(e, start, init, k);
    } else {
      assert pairs[..k] == pairs;
    }
  }

  /** A pair is done on disk `d`: its profile names an emotion, both of its
      directories exist and both of its files exist. */
  predicate PairDone(l: Layout, d: Disk, text: string, p: Profile) {
    p.emotion.Some?
    && TextDir(l, text) in d.dirs && EmotionDir(l, p.emotion.value) in d.dirs
    && Exists(d, TextFile(l, text, p.emotion.value)) && Exists(d, EmotionFile(l, text, p.emotion.value))
  }

  predicate AllDone(l: Layout, d: Disk, pairs: seq<(string, Profile)>) {
    forall i :: 0 <= i < |pairs| ==> PairDone(l, d, pairs[i].0, pairs[i].1)
  }

  /** A path none of `pairs` can create or write. */
  predicate Untouched(l: Layout, pairs: seq<(string, Profile)>, q: Path) {
    forall i :: 0 <= i < |pairs| && pairs[i].1.emotion.Some? ==>
      var text, name := pairs[i].0, pairs[i].1.emotion.value;
      q != TextDir(l, text) && q != EmotionDir(l, name) && q != TextFile(l, text, name) && q != EmotionFile(l, text, name)
  }

  /** Lines 127-131: a pair whose two files both exist is counted and
      skipped, with no request and no write (only its directories are
      made). */
  lemma StepSkips(e: Env, s: Progress, text: string, p: Profile)
    requires s.failure.None? && p.emotion.Some?
    requires Exists(s.disk, TextFile(e.layout, text, p.emotion.value))
    requires Exists(s.disk, EmotionFile(e.layout, text, p.emotion.value))
    ensures Step(e, s, text, p).disk.files == s.disk.files
    ensures Step(e, s, text, p).fetched == s.fetched
    ensures Step(e, s, text, p).count == s.count + 1 && Step(e, s, text, p).failure.None?
  {
  }

  /** Lines 138-147: a pair that is not skipped is requested exactly once,
      and the answer decides everything. On a 200 the same bytes are written
      to its text-indexed and its emotion-indexed file and to no other file;
      on any other answer, or when the URL cannot be built, no file is
      written. A step that requests nothing writes nothing. */
  lemma StepFetchWrites(e: Env, s: Progress, text: string, p: Profile)
    requires s.failure.None?
    ensures var s2 := Step(e, s, text, p);
      s.fetched <= s2.fetched && |s2.fetched| <= |s.fetched| + 1
      && (|s2.fetched| == |s.fetched| ==> s2.disk.files == s.disk.files)
      && (s2.failure.Some? ==> s2.disk.files == s.disk.files && s2.count == s.count)
  ensures var s2 := Step(e, s, text, p);
      |s2.fetched| == |s.fetched| + 1 ==>
        var url, l := s2.fetched[|s.fetched|], e.layout;
        p.emotion.Some? && RequestUrl(e.composer, text, p) == Ok(url)
        && (s2.failure.None? <==> e.fetch(url).Reply? && e.fetch(url).status == 200)
        && (s2.failure.None? ==>
              s2.disk.files == s.disk.files[TextFile(l, text, p.emotion.value) := e.fetch(url).content]
                                           [EmotionFile(l, text, p.emotion.value) := e.fetch(url).content])
  {
  }

  /** The directories made before the loop are shorter than any path
      longer than both aggregation roots, so such a path missing before is
      still missing after them. */
  lemma SetupAbsent(l: Layout, d: Disk, q: Path)
    requires !Exists(d, q) && |q| > |TextRoot(l)| && |q| > |EmotionRoot(l)|
    ensures !Exists(Setup(l, d), q)
  {
    assert q != l.outputDir;
  }

  /** The disk once a pair's two directories are made (lines 120 and 124),
      which is what the existence test at line 128 looks at. */
  function PairDirs(l: Layout, d: Disk, text: string, name: string): Disk {
    WithDir(WithDir(d, TextDir(l, text)), EmotionDir(l, name))
  }

  /** A pair that is not skipped, because one or both of its files are
      missing once its directories are made, is requested exactly once
      (lines 127-147). This covers the half-written pair an interrupted run
      leaves, whose text-indexed file exists but whose emotion-indexed file
      does not: it is requested again and both files are rewritten. A 200
      puts the body into both files; anything else raises and writes
      nothing. */
  lemma StepFetches(e: Env, s: Progress, text: string, p: Profile)
    requires s.failure.None? && p.emotion.Some?
    requires var d := PairDirs(e.layout, s.disk, text, p.emotion.value);
             !(Exists(d, TextFile(e.layout, text, p.emotion.value)) && Exists(d, EmotionFile(e.layout, text, p.emotion.value)))
    requires RequestUrl(e.composer, text, p).Ok?
    ensures var url, l, name := RequestUrl(e.composer, text, p).value, e.layout, p.emotion.value;
      var s2 := Step(e, s, text, p);
      s2.fetched == s.fetched + [url]
      && (e.fetch(url).Reply? && e.fetch(url).status == 200 ==>
            var body := e.fetch(url).content;
            s2 == Progress(WithFile(WithFile(PairDirs(l, s.disk, text, name), TextFile(l, text, name), body),
                                    EmotionFile(l, text, name), body),
                           s.fetched + [url], s.count + 1, None))
      && (!(e.fetch(url).Reply? && e.fetch(url).status == 200) ==>
            s2.disk.files == s.disk.files && s2.failure == Some(InferenceAudioFromApi(e.fetch, url).error))
  {
    StepRequests(e, s, text, p);
    RequestOutcome(e, s.(disk := PairDirs(e.layout, s.disk, text, p.emotion.value)), text, p);
  }

  /** `StepFetches` told in terms of the disk: on status 200 the pair's two
      directories are added and both files hold the body; otherwise no file
      changes. */
  lemma StepFetchesDisk(e: Env, s: Progress, text: string, p: Profile)
    requires s.failure.None? && p.emotion.Some?
    requires var d := PairDirs(e.layout, s.disk, text, p.emotion.value);
             !(Exists(d, TextFile(e.layout, text, p.emotion.value)) && Exists(d, EmotionFile(e.layout, text, p.emotion.value)))
    requires RequestUrl(e.composer, text, p).Ok?
    ensures var url, l, name := RequestUrl(e.composer, text, p).value, e.layout, p.emotion.value;
      var s2 := Step(e, s, text, p);
      s2.fetched == s.fetched + [url]
      && (e.fetch(url).Reply? && e.fetch(url).status == 200 ==>
            var body := e.fetch(url).content;
            s2.failure.None? && s2.disk.dirs == s.disk.dirs + {TextDir(l, text), EmotionDir(l, name)}
            && s2.disk.files == s.disk.files[TextFile(l, text, name) := body][EmotionFile(l, text, name) := body])
      && (!(e.fetch(url).Reply? && e.fetch(url).status == 200) ==>
            s2.disk.files == s.disk.files && s2.failure == Some(InferenceAudioFromApi(e.fetch, url).error))
  {
    StepFetches(e, s, text, p);
  }

  /** A pair with a file missing beforehand still has it missing once its
      directories are made, unless one of its files is the other's
      directory. */
  lemma DirsKeepMissing(l: Layout, d: Disk, text: string, name: string)
    requires !(Exists(d, TextFile(l, text, name)) && Exists(d, EmotionFile(l, text, name)))
    requires TextFile(l, text, name) != EmotionDir(l, name) && EmotionFile(l, text, name) != TextDir(l, text)
    ensures var d2 := PairDirs(l, d, text, name);
            !(Exists(d2, TextFile(l, text, name)) && Exists(d2, EmotionFile(l, text, name)))
  {
    assert |TextFile(l, text, name)| > |TextDir(l, text)|;
    assert |EmotionFile(l, text, name)| > |EmotionDir(l, name)|;
  }

  /** A pair that is not done once its directories are made goes on to the
      request. */
  lemma StepRequests(e: Env, s: Progress, text: string, p: Profile)
    requires s.failure.None? && p.emotion.Some?
    requires var d := PairDirs(e.layout, s.disk, text, p.emotion.value);
             !(Exists(d, TextFile(e.layout, text, p.emotion.value)) && Exists(d, EmotionFile(e.layout, text, p.emotion.value)))
    ensures Step(e, s, text, p) == Request(e, s.(disk := PairDirs(e.layout, s.disk, text, p.emotion.value)), text, p)
  {
  }

  /** The request of a URL that could be built: a 200 writes its body to
      both files, anything else raises and writes nothing; the URL is
      recorded either way. */
  lemma RequestOutcome(e: Env, s: Progress, text: string, p: Profile)
    requires p.emotion.Some? && RequestUrl(e.composer, text, p).Ok?
    ensures var url, l, name := RequestUrl(e.composer, text, p).value, e.layout, p.emotion.value;
      var s2 := Request(e, s, text, p);
      s2.fetched == s.fetched + [url]
      && (e.fetch(url).Reply? && e.fetch(url).status == 200 ==>
            var body := e.fetch(url).content;
            s2 == Progress(WithFile(WithFile(s.disk, TextFile(l, text, name), body), EmotionFile(l, text, name), body),
                           s.fetched + [url], s.count + 1, None))
      && (!(e.fetch(url).Reply? && e.fetch(url).status == 200) ==>
            s2.disk == s.disk && s2.failure == Some(InferenceAudioFromApi(e.fetch, url).error))
  {
    var url := RequestUrl(e.composer, text, p).value;
    assert RequestUrl(e.composer, text, p) == Ok(url);
    match InferenceAudioFromApi(e.fetch, url)
    case Err(err) =>
      assert Request(e, s, text, p) == s.(fetched := s.fetched + [url], failure := Some(err));
    case Ok(audio) =>
      var a, b := TextFile(e.layout, text, p.emotion.value), EmotionFile(e.layout, text, p.emotion.value);
      assert Request(e, s, text, p) == Progress(WithFile(WithFile(s.disk, a, audio), b, audio), s.fetched + [url], s.count + 1, None);
  }

  lemma StepGrows(e: Env, s: Progress, text: string, p: Profile)
    ensures Grows(s.disk, Step(e, s, text, p).disk)
  {
  }

  /** The loop never deletes: every file and directory present at the start
      is still there at the end, whatever happened. */
  lemma {:induction false} RunGrows(e: Env, start: Progress, pairs: seq<(string, Profile)>)
    ensures Grows(start.disk, Run(e, start, pairs).disk)
    decreases |pairs|
  {
    if |pairs| > 0 {
      var init := pairs[..|pairs| - 1];
      RunGrows(e, start, init);
      StepGrows(e, Run(e, start, init), pairs[|pairs| - 1].0, pairs[|pairs| - 1].1);
    }
  }

  /** The requests made so far only grow, by at most one per pair; a run
      that raised nothing counted every pair. */
  lemma {:induction false} RunCount(e: Env, start: Progress, pairs: seq<(string, Profile)>)
    ensures start.fetched <= Run(e, start, pairs).fetched
    ensures |Run(e, start, pairs).fetched| <= |start.fetched| + |pairs|
    ensures Run(e, start, pairs).failure.None? ==>
              start.failure.None? && Run(e, start, pairs).count == start.count + |pairs|
    decreases |pairs|
  {
    if |pairs| > 0 {
      var init := pairs[..|pairs| - 1];
      RunCount(e, start, init);
      var mid := Run(e, start, init);
      if mid.failure.None? {
        StepFetchWrites(e, mid, pairs[|pairs| - 1].0, pairs[|pairs| - 1].1);
      }
    }
  }

  /** Nothing else changes: a path no pair can name keeps its file (or its
      absence) and its directory status. */
  lemma {:induction false} RunFrame(e: Env, start: Progress, pairs: seq<(string, Profile)>, q: Path)
    requires Untouched(e.layout, pairs, q)
    ensures SameAt(start.disk, Run(e, start, pairs).disk, q)
    ensures q in start.disk.dirs <==> q in Run(e, start, pairs).disk.dirs
    decreases |pairs|
  {
    if |pairs| > 0 {
      var init := pairs[..|pairs| - 1];
      assert Untouched(e.layout, init, q) by {
        forall i | 0 <= i < |init| && init[i].1.emotion.Some?
          ensures var text, name := init[i].0, init[i].1.emotion.value;
            q != TextDir(e.layout, text) && q != EmotionDir(e.layout, name)
            && q != TextFile(e.layout, text, name) && q != EmotionFile(e.layout, text, name)
        {
          assert init[i] == pairs[i];
        }
      }
      RunFrame(e, start, init, q);
      StepFrame(e, Run(e, start, init), pairs[|pairs| - 1].0, pairs[|pairs| - 1].1, q);
    }
  }

  /** One step touches only its own pair's two directories and two files. */
  lemma StepFrame(e: Env, s: Progress, text: string, p: Profile, q: Path)
    requires p.emotion.Some? ==>
      var l, name := e.layout, p.emotion.value;
      q != TextDir(l, text) && q != EmotionDir(l, name) && q != TextFile(l, text, name) && q != EmotionFile(l, text, name)
    ensures SameAt(s.disk, Step(e, s, text, p).disk, q)
    ensures q in s.disk.dirs <==> q in Step(e, s, text, p).disk.dirs
  {
    if s.failure.None? && p.emotion.Some? {
      var d := WithDir(WithDir(s.disk, TextDir(e.layout, text)), EmotionDir(e.layout, p.emotion.value));
      if !(Exists(d, TextFile(e.layout, text, p.emotion.value)) && Exists(d, EmotionFile(e.layout, text, p.emotion.value))) {
        RequestFrame(e, s.(disk := d), text, p, q);
      }
    }
  }

  lemma RequestFrame(e: Env, s: Progress, text: string, p: Profile, q: Path)
    requires p.emotion.Some?
    requires q != TextFile(e.layout, text, p.emotion.value) && q != EmotionFile(e.layout, text, p.emotion.value)
    ensures SameAt(s.disk, Request(e, s, text, p).disk, q)
    ensures q in s.disk.dirs <==> q in Request(e, s, text, p).disk.dirs
  {
    match RequestUrl(e.composer, text, p)
    case Err(_) =>
    case Ok(url) =>
      match InferenceAudioFromApi(e.fetch, url)
      case Err(_) =>
      case Ok(audio) =>
        var a, b := TextFile(e.layout, text, p.emotion.value), EmotionFile(e.layout, text, p.emotion.value);
        assert Request(e, s, text, p).disk == WithFile(WithFile(s.disk, a, audio), b, audio);
  }

  /** When a run raised nothing, every pair it visited is done. */
  lemma {:induction false} RunCovers(e: Env, start: Progress, pairs: seq<(string, Profile)>)
    requires Run(e, start, pairs).failure.None?
    ensures AllDone(e.layout, Run(e, start, pairs).disk, pairs)
    decreases |pairs|
  {
    if |pairs| > 0 {
      var init := pairs[..|pairs| - 1];
      var last := pairs[|pairs| - 1];
      var mid := Run(e, start, init);
      var final := Run(e, start, pairs);
      assert mid.failure.None?;
      RunCovers(e, start, init);
      StepGrows(e, mid, last.0, last.1);
      forall i | 0 <= i < |pairs|
        ensures PairDone(e.layout, final.disk, pairs[i].0, pairs[i].1)
      {
        if i < |init| {
          assert pairs[i] == init[i];
          assert PairDone(e.layout, mid.disk, init[i].0, init[i].1);
        }
      }
    }
  }

  /** When every pair is already done, the run requests nothing, changes
      nothing on disk and counts every pair. */
  lemma {:induction false} RunIdle(e: Env, start: Progress, pairs: seq<(string, Profile)>)
    requires start.failure.None? && AllDone(e.layout, start.disk, pairs)
    ensures Run(e, start, pairs) == start.(count := start.count + |pairs|)
    decreases |pairs|
  {
    if |pairs| > 0 {
      var init := pairs[..|pairs| - 1];
      var last := pairs[|pairs| - 1];
      assert AllDone(e.layout, start.disk, init) by {
        forall i | 0 <= i < |init|
          ensures PairDone(e.layout, start.disk, init[i].0, init[i].1)
        {
          assert init[i] == pairs[i];
        }
      }
      RunIdle(e, start, init);
      var mid := start.(count := start.count + |init|);
      assert PairDone(e.layout, mid.disk, last.0, last.1);
      var l, name := e.layout, last.1.emotion.value;
      assert WithDir(WithDir(mid.disk, TextDir(l, last.0)), EmotionDir(l, name)) == mid.disk;
    }
  }

  /** Lines 108-147: a worker that raised nothing counted exactly
      `len(text_list) * len(emotion_list)` pairs and requested at most that
      many URLs. */
  lemma GroupCount(e: Env, texts: seq<string>, profiles: seq<Profile>, d: Disk)
    requires GroupRun(e, texts, profiles, d).failure.None?
    ensures GroupRun(e, texts, profiles, d).count == |texts| * |profiles|
    ensures |GroupRun(e, texts, profiles, d).fetched| <= |texts| * |profiles|
  {
    ProductLength(texts, profiles);
    RunCount(e, Progress(Setup(e.layout, d), [], 0, None), Product(texts, profiles));
  }

  /** A worker that raised nothing leaves, for every text and every profile,
      the profile's emotion set and both audio files (and their directories)
      present, along with the three top directories. */
  lemma GroupCovers(e: Env, texts: seq<string>, profiles: seq<Profile>, d: Disk)
    requires GroupRun(e, texts, profiles, d).failure.None?
    ensures forall t, p :: t in texts && p in profiles ==>
              PairDone(e.layout, GroupRun(e, texts, profiles, d).disk, t, p)
    ensures Grows(Setup(e.layout, d), GroupRun(e, texts, profiles, d).disk)
  {
    var start := Progress(Setup(e.layout, d), [], 0, None);
    var pairs := Product(texts, profiles);
    RunCovers(e, start, pairs);
    RunGrows(e, start, pairs);
    AllDoneProduct(e.layout, Run(e, start, pairs).disk, texts, profiles);
  }

  /** Every pair of the product done: every text with every profile done. */
  lemma AllDoneProduct(l: Layout, d: Disk, texts: seq<string>, profiles: seq<Profile>)
    requires AllDone(l, d, Product(texts, profiles))
    ensures forall t, p :: t in texts && p in profiles ==> PairDone(l, d, t, p)
  {
    forall t, p | t in texts && p in profiles
      ensures PairDone(l, d, t, p)
    {
      var i :| 0 <= i < |texts| && texts[i] == t;
      var j :| 0 <= j < |profiles| && profiles[j] == p;
      ProductAt(texts, profiles, i, j);
    }
  }

  /** Rerunning a worker that raised nothing, on the disk it left, requests
      nothing, changes nothing and counts every pair again. */
  lemma GroupRerunIdle(e: Env, texts: seq<string>, profiles: seq<Profile>, d: Disk)
    requires GroupRun(e, texts, profiles, d).failure.None?
    ensures var d2 := GroupRun(e, texts, profiles, d).disk;
      var g := GroupRun(e, texts, profiles, d2);
      g.disk == d2 && g.fetched == [] && g.count == |texts| * |profiles| && g.failure.None?
  {
    var start := Progress(Setup(e.layout, d), [], 0, None);
    var pairs := Product(texts, profiles);
    var d2 := Run(e, start, pairs).disk;
    RunCovers(e, start, pairs);
    RunGrows(e, start, pairs);
    assert Setup(e.layout, d2) == d2;
    ProductLength(texts, profiles);
    RunIdle(e, Progress(d2, [], 0, None), pairs);
  }

  /** Nothing else changes: a path that is none of the three top
      directories and that no text-profile pair can name keeps its file and
      its directory status. */
  lemma GroupFrame(e: Env, texts: seq<string>, profiles: seq<Profile>, d: Disk, q: Path)
    requires q != e.layout.outputDir && q != TextRoot(e.layout) && q != EmotionRoot(e.layout)
    requires forall t, p :: t in texts && p in profiles && p.emotion.Some? ==>
      q != TextDir(e.layout, t) && q != EmotionDir(e.layout, p.emotion.value)
      && q != TextFile(e.layout, t, p.emotion.value) && q != EmotionFile(e.layout, t, p.emotion.value)
    ensures SameAt(d, GroupRun(e, texts, profiles, d).disk, q)
    ensures q in d.dirs <==> q in GroupRun(e, texts, profiles, d).disk.dirs
  {
    var pairs := Product(texts, profiles);
    assert Untouched(e.layout, pairs, q) by {
      forall k | 0 <= k < |pairs| && pairs[k].1.emotion.Some?
        ensures var text, name := pairs[k].0, pairs[k].1.emotion.value;
          q != TextDir(e.layout, text) && q != EmotionDir(e.layout, name)
          && q != TextFile(e.layout, text, name) && q != EmotionFile(e.layout, text, name)
      {
        assert pairs[k].0 in texts && pairs[k].1 in profiles;
      }
    }
    RunFrame(e, Progress(Setup(e.layout, d), [], 0, None), pairs, q);
  }
}
