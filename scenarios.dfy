/** Three concrete runs of the whole job: an emotion-mode composer whose base
    URL already ends in `?`, the texts `hello` and `world`, one profile
    tagged `happy`, one worker. The API itself stays a parameter. */
module Scenarios {
  import opened Base
  import opened Percent
  import opened Composer
  import opened Files
  import opened Worker
  import opened Orchestrator

  const Api: UrlComposer := UrlComposer(Some("http://x/api?"), Some("emotion"), Some("text"), None, None)
  const Out: Layout := Layout("/out", "by_text", "by_emotion")
  const Happy: Profile := Profile(Some("happy"), None, None)
  const Texts: seq<string> := ["hello", "world"]

  const HelloUrl: string := "http://x/api?text=hello&emotion=happy"
  const WorldUrl: string := "http://x/api?text=world&emotion=happy"

  /** Proof helper: the URL of a text, regrouped into literals. */
  lemma HappyUrlText(text: string)
    ensures "http://x/api" + "?" + ("text" + "=" + text + "&" + "emotion" + "=" + "happy")
         == "http://x/api?text=" + text + "&emotion=happy"
  {
    assert "http://x/api" + "?" + "text" + "=" == "http://x/api?text=";
    assert "&" + "emotion" + "=" + "happy" == "&emotion=happy";
  }

  /** Proof helper: the facts about `Api` the URL lemmas ask for. */
  lemma ApiFacts()
    ensures Api.baseUrl == Some("http://x/api" + "?")
    ensures '?' !in "http://x/api" && '#' !in "http://x/api"
    ensures Unreserved("text") && Unreserved("emotion") && Unreserved("happy")
  {
    assert "http://x/api" + "?" == "http://x/api?";
  }

  /** The request URL for any unreserved text: the `?&` the unencoded URL
      would have is gone. */
  lemma HappyUrl(text: string)
    requires text != "" && Unreserved(text)
    ensures RequestUrl(Api, text, Happy) == Ok("http://x/api?text=" + text + "&emotion=happy")
  {
    ApiFacts();
    EmotionUrlPlain(Api, "http://x/api", "?", text, "happy");
    HappyUrlText(text);
  }

  /** Proof helper: the literal URL of the text `hello`. */
  lemma HelloUrlText()
    ensures Unreserved("hello")
    ensures "http://x/api?text=" + "hello" + "&emotion=happy" == HelloUrl
  {
  }

  /** Proof helper: the literal URL of the text `world`. */
  lemma WorldUrlText()
    ensures Unreserved("world")
    ensures "http://x/api?text=" + "world" + "&emotion=happy" == WorldUrl
  {
  }

  /** The two request URLs of the scenario. */
  lemma ScenarioUrls()
    ensures RequestUrl(Api, "hello", Happy) == Ok(HelloUrl)
    ensures RequestUrl(Api, "world", Happy) == Ok(WorldUrl)
  {
    HelloUrlText();
    WorldUrlText();
    HappyUrl("hello");
    HappyUrl("world");
  }

  /** Proof helper: the literal URL of the text `R`. */
  lemma AmpersandUrlText()
    ensures "http://x/api?text=" + "R" + "&emotion=happy" == "http://x/api?text=R&emotion=happy"
  {
  }

  /** Proof helper: `R&B` and `R` give the same request URL. */
  lemma AmpersandCut()
    ensures RequestUrl(Api, "R&B", Happy) == RequestUrl(Api, "R", Happy)
  {
    ApiFacts();
    assert "R" + "&" + "B" == "R&B";
    EmotionUrlCutAtAmpersand(Api, "http://x/api", "?", "R", "B", "happy");
  }

  /** Proof helper: the request URL of `R`. */
  lemma AmpersandPlain()
    ensures RequestUrl(Api, "R", Happy) == Ok("http://x/api?text=R&emotion=happy")
  {
    HappyUrl("R");
    AmpersandUrlText();
  }

  /** A text holding `&` is cut there: for `R&B` the worker requests the
      same URL as for `R`, and the server never sees `B`. */
  lemma ScenarioAmpersand()
    ensures RequestUrl(Api, "R&B", Happy) == Ok("http://x/api?text=R&emotion=happy")
    ensures RequestUrl(Api, "R&B", Happy) == RequestUrl(Api, "R", Happy)
  {
    AmpersandCut();
    AmpersandPlain();
  }

  /** The two steps of the run, one after the other, texts outer. */
  lemma ScenarioRun(e: Env, d: Disk)
    ensures GroupRun(e, Texts, [Happy], d)
         == Step(e, Step(e, Progress(Setup(e.layout, d), [], 0, None), "hello", Happy), "world", Happy)
  {
    var pairs := [("hello", Happy), ("world", Happy)];
    assert Product(Texts, [Happy]) == pairs by {
      assert Texts[1..][1..] == [];
    }
    var start := Progress(Setup(e.layout, d), [], 0, None);
    assert pairs[..1][..0] == [];
    assert Run(e, start, pairs[..1]) == Step(e, start, "hello", Happy);
    assert Run(e, start, pairs) == Step(e, Run(e, start, pairs[..1]), "world", Happy);
  }

  /** The paths involved, by length: a file is never one of the
      directories the run makes, and the two texts' files differ. */
  lemma ScenarioPaths()
    ensures |TextRoot(Out)| == 12 && |EmotionRoot(Out)| == 15
    ensures |TextFile(Out, "hello", "happy")| == 28 && |TextFile(Out, "world", "happy")| == 28
    ensures |EmotionFile(Out, "hello", "happy")| == 31 && |EmotionDir(Out, "happy")| == 21
    ensures |TextDir(Out, "hello")| == 18 && |TextDir(Out, "world")| == 18
    ensures TextFile(Out, "world", "happy") != TextFile(Out, "hello", "happy")
  {
    assert TextFile(Out, "world", "happy")[13] != TextFile(Out, "hello", "happy")[13];
  }

  /** The first pair on a disk without its text-indexed file: one request,
      for `HelloUrl`. */
  lemma ScenarioFirstStep(fetch: string -> Response, d: Disk)
    requires !Exists(d, TextFile(Out, "hello", "happy"))
    ensures var e, s0 := Env(Api, Out, fetch), Progress(Setup(Out, d), [], 0, None);
      var s1 := Step(e, s0, "hello", Happy);
      s1.fetched == [HelloUrl]
      && (fetch(HelloUrl).Reply? && fetch(HelloUrl).status == 200 ==>
            var body := fetch(HelloUrl).content;
            s1.failure.None? && s1.disk.dirs == Setup(Out, d).dirs + {TextDir(Out, "hello"), EmotionDir(Out, "happy")}
            && s1.disk.files == d.files[TextFile(Out, "hello", "happy") := body][EmotionFile(Out, "hello", "happy") := body])
      && (!(fetch(HelloUrl).Reply? && fetch(HelloUrl).status == 200) ==>
            s1.disk.files == d.files && s1.failure == Some(InferenceAudioFromApi(fetch, HelloUrl).error))
  {
    var e, s0 := Env(Api, Out, fetch), Progress(Setup(Out, d), [], 0, None);
    assert RequestUrl(Api, "hello", Happy) == Ok(HelloUrl) by {
      ScenarioUrls();
    }
    var dirs := PairDirs(Out, s0.disk, "hello", "happy");
    assert !Exists(dirs, TextFile(Out, "hello", "happy")) by {
      ScenarioPaths();
      SetupAbsent(Out, d, TextFile(Out, "hello", "happy"));
      DirsKeepMissing(Out, s0.disk, "hello", "happy");
    }
    StepFetchesDisk(e, s0, "hello", Happy);
  }

  /** The second pair after the first was written: one more request, for
      `WorldUrl`. */
  lemma ScenarioSecondStep(fetch: string -> Response, d: Disk, s1: Progress, hello: Bytes)
    requires !Exists(d, TextFile(Out, "world", "happy"))
    requires s1.failure.None? && s1.disk.dirs == Setup(Out, d).dirs + {TextDir(Out, "hello"), EmotionDir(Out, "happy")}
    requires s1.disk.files == d.files[TextFile(Out, "hello", "happy") := hello][EmotionFile(Out, "hello", "happy") := hello]
    requires fetch(WorldUrl).Reply? && fetch(WorldUrl).status == 200
    ensures var s2 := Step(Env(Api, Out, fetch), s1, "world", Happy);
      var body := fetch(WorldUrl).content;
      s2.failure.None? && s2.fetched == s1.fetched + [WorldUrl]
      && s2.disk.files == s1.disk.files[TextFile(Out, "world", "happy") := body][EmotionFile(Out, "world", "happy") := body]
  {
    var q := TextFile(Out, "world", "happy");
    assert !Exists(s1.disk, q) && q != EmotionDir(Out, "happy") by {
      ScenarioPaths();
      SetupAbsent(Out, d, q);
    }
    assert EmotionFile(Out, "world", "happy") != TextDir(Out, "world") by {
      ScenarioPaths();
    }
    DirsKeepMissing(Out, s1.disk, "world", "happy");
    assert RequestUrl(Api, "world", Happy) == Ok(WorldUrl) by {
      ScenarioUrls();
    }
    StepFetches(Env(Api, Out, fetch), s1, "world", Happy);
  }

  /** Both pairs on a disk without their text-indexed files, the API
      answering 200 to both: two requests, four files. */
  lemma ScenarioSteps(fetch: string -> Response, d: Disk)
    requires fetch(HelloUrl).Reply? && fetch(HelloUrl).status == 200
    requires fetch(WorldUrl).Reply? && fetch(WorldUrl).status == 200
    requires !Exists(d, TextFile(Out, "hello", "happy")) && !Exists(d, TextFile(Out, "world", "happy"))
    ensures var e, s0 := Env(Api, Out, fetch), Progress(Setup(Out, d), [], 0, None);
      var s2 := Step(e, Step(e, s0, "hello", Happy), "world", Happy);
      var hello, world := fetch(HelloUrl).content, fetch(WorldUrl).content;
      s2.failure.None? && s2.fetched == [HelloUrl, WorldUrl]
      && s2.disk.files == d.files[TextFile(Out, "hello", "happy") := hello][EmotionFile(Out, "hello", "happy") := hello]
                                 [TextFile(Out, "world", "happy") := world][EmotionFile(Out, "world", "happy") := world]
  {
    var e := Env(Api, Out, fetch);
    ScenarioFirstStep(fetch, d);
    var s1 := Step(e, Progress(Setup(Out, d), [], 0, None), "hello", Happy);
    ScenarioSecondStep(fetch, d, s1, fetch(HelloUrl).content);
  }

  /** A fresh disk and an API that answers 200: two requests, with exactly
      the two URLs above, and four files written, each pair's bytes under
      both indices. */
  lemma ScenarioFreshRun(fetch: string -> Response, cpuCount: nat, d: Disk)
    requires fetch(HelloUrl).Reply? && fetch(HelloUrl).status == 200
    requires fetch(WorldUrl).Reply? && fetch(WorldUrl).status == 200
    requires !Exists(d, TextFile(Out, "hello", "happy")) && !Exists(d, TextFile(Out, "world", "happy"))
    ensures var b := Parallel(Env(Api, Out, fetch), Texts, [Happy], Some(1), cpuCount, d);
      var hello, world := fetch(HelloUrl).content, fetch(WorldUrl).content;
      b.failure.None? && b.fetched == [HelloUrl, WorldUrl]
      && b.disk.files == d.files[TextFile(Out, "hello", "happy") := hello][EmotionFile(Out, "hello", "happy") := hello]
                                [TextFile(Out, "world", "happy") := world][EmotionFile(Out, "world", "happy") := world]
  {
    var e := Env(Api, Out, fetch);
    OneSection(e, Texts, [Happy], Some(1), cpuCount, d);
    ScenarioRun(e, d);
    ScenarioSteps(fetch, d);
  }

  /** The API answers 404 to the first request: the job raises the 404,
      makes no second request and writes no file. */
  lemma ScenarioNotFound(fetch: string -> Response, cpuCount: nat, d: Disk)
    requires fetch(HelloUrl).Reply? && fetch(HelloUrl).status == 404
    requires !Exists(d, TextFile(Out, "hello", "happy"))
    ensures var b := Parallel(Env(Api, Out, fetch), Texts, [Happy], Some(1), cpuCount, d);
      b.failure == Some(FetchFailed(404)) && b.fetched == [HelloUrl] && b.disk.files == d.files
  {
    var e := Env(Api, Out, fetch);
    OneSection(e, Texts, [Happy], Some(1), cpuCount, d);
    ScenarioRun(e, d);
    ScenarioFirstStep(fetch, d);
  }

  /** Both files of both pairs already there, whatever they hold: no
      request and no file changed. */
  lemma ScenarioRerun(fetch: string -> Response, cpuCount: nat, d: Disk)
    requires Exists(d, TextFile(Out, "hello", "happy")) && Exists(d, EmotionFile(Out, "hello", "happy"))
    requires Exists(d, TextFile(Out, "world", "happy")) && Exists(d, EmotionFile(Out, "world", "happy"))
    ensures var b := Parallel(Env(Api, Out, fetch), Texts, [Happy], Some(1), cpuCount, d);
      b.failure.None? && b.fetched == [] && b.disk.files == d.files
  {
    var e := Env(Api, Out, fetch);
    OneSection(e, Texts, [Happy], Some(1), cpuCount, d);
    ScenarioRun(e, d);
    var s0 := Progress(Setup(Out, d), [], 0, None);
    StepSkips(e, s0, "hello", Happy);
    StepSkips(e, Step(e, s0, "hello", Happy), "world", Happy);
  }
}
