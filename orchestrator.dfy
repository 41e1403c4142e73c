/** `generate_audio_files_parallel` (audio_inference.py, lines 82-93): cut
    the voice profiles into `num_processes` groups with `np.array_split` and
    run the group worker on each group, waiting for the groups in order.
    Here the groups run one after another and the first exception ends the
    run; the groups' own file pairs are what the lemmas below speak of. */
module Orchestrator {
  import opened Base
  import opened Composer
  import opened Partition
  import opened Files
  import opened Worker

  /** `num_processes`, `multiprocessing.cpu_count()` when not given. */
  function Sections(numProcesses: Option<int>, cpuCount: nat): int {
    numProcesses.GetOr(cpuCount)
  }

  /** The state after some groups: the disk, every URL requested so far and
      the exception that ended the run, if any. */
  datatype Batch = Batch(disk: Disk, fetched: seq<string>, failure: Option<Error>)

  /** The group workers over `groups`, in order, from disk `d`. */
  function RunGroups(e: Env, texts: seq<string>, groups: seq<seq<Profile>>, d: Disk): Batch
    decreases |groups|
  {
    if |groups| == 0 then Batch(d, [], None)
    else
      var b := RunGroups(e, texts, groups[..|groups| - 1], d);
      if b.failure.Some? then b
      else
        var g := GroupRun(e, texts, groups[|groups| - 1], b.disk);
        Batch(g.disk, b.fetched + g.fetched, g.failure)
  }

  /** The whole of `generate_audio_files_parallel` on disk `d`. A section
      count that is not positive makes `np.array_split` raise before any
      work starts. */
  function Parallel(e: Env, texts: seq<string>, profiles: seq<Profile>, numProcesses: Option<int>,
                    cpuCount: nat, d: Disk): (r: Batch)
    ensures Sections(numProcesses, cpuCount) <= 0 ==> r.failure == Some(BadSectionCount) && r.fetched == [] && r.disk == d
    ensures r.failure.None? ==> Sections(numProcesses, cpuCount) > 0
  {
    var w := Sections(numProcesses, cpuCount);
    if w <= 0 then Batch(d, [], Some(BadSectionCount))
    else RunGroups(e, texts, ArraySplit(profiles, w), d)
  }

  /** `generate_audio_files_parallel`, the pool replaced by a loop that
      waits for each group before starting the next. */
  method GenerateAudioFilesParallel(fs: FileSystem, urlComposer: UrlComposer, texts: seq<string>,
                                    profiles: seq<Profile>, layout: Layout, fetch: string -> Response,
                                    numProcesses: Option<int>, cpuCount: nat)
    returns (fetched: seq<string>, outcome: Result<()>)
    modifies fs
    ensures var b := Parallel(Env(urlComposer, layout, fetch), texts, profiles, numProcesses, cpuCount, old(fs.State()));
            fs.State() == b.disk && fetched == b.fetched
            && outcome == (if b.failure.Some? then Err(b.failure.value) else Ok(()))
  {
    var sections := if numProcesses.None? then cpuCount else numProcesses.value;
    if sections <= 0 {
      fetched, outcome := [], Err(BadSectionCount);
      return;
    }
    var emotionGroups := ArraySplit(profiles, sections);
    fetched, outcome := RunEmotionGroups(fs, urlComposer, texts, emotionGroups, layout, fetch);
  }

  /** Waiting for each group's worker in turn: the first exception is
      raised, and no later group starts. */
  method RunEmotionGroups(fs: FileSystem, urlComposer: UrlComposer, texts: seq<string>,
                          emotionGroups: seq<seq<Profile>>, layout: Layout, fetch: string -> Response)
    returns (fetched: seq<string>, outcome: Result<()>)
    modifies fs
    ensures var b := RunGroups(Env(urlComposer, layout, fetch), texts, emotionGroups, old(fs.State()));
            fs.State() == b.disk && fetched == b.fetched
            && outcome == (if b.failure.Some? then Err(b.failure.value) else Ok(()))
  {
    ghost var e := Env(urlComposer, layout, fetch);
    ghost var d0 := fs.State();
    fetched := [];
    var i := 0;
    while i < |emotionGroups|
      invariant i <= |emotionGroups|
      invariant RunGroups(e, texts, emotionGroups[..i], d0) == Batch(fs.State(), fetched, None)
    {
      ghost var before := fs.State();
      var groupFetched, groupOutcome := GenerateAudioFilesForEmotionGroup(fs, urlComposer, texts, emotionGroups[i],
                                                                         layout, fetch);
      RunGroupsNext(e, texts, emotionGroups, d0, i, before, fetched, GroupRun(e, texts, emotionGroups[i], before));
      fetched := fetched + groupFetched;
      if groupOutcome.Err? {
        outcome := Err(groupOutcome.error);
        GroupsFailureSticks(e, texts, emotionGroups, d0, i + 1);
        return;
      }
      i := i + 1;
    }
    assert emotionGroups[..i] == emotionGroups;
    outcome := Ok(());
  }

  /** One more group, after groups that raised nothing. */
  lemma RunGroupsNext(e: Env, texts: seq<string>, groups: seq<seq<Profile>>, d: Disk, i: nat,
                      disk: Disk, fetched: seq<string>, g: Progress)
    requires i < |groups| && RunGroups(e, texts, groups[..i], d) == Batch(disk, fetched, None)
    requires g == GroupRun(e, texts, groups[i], disk)
    ensures RunGroups(e, texts, groups[..i + 1], d) == Batch(g.disk, fetched + g.fetched, g.failure)
  {
    assert groups[..i + 1][..i] == groups[..i];
  }

  /** The first failing group ends the run: the groups after it change
      nothing. */
  lemma {:induction false} GroupsFailureSticks(e: Env, texts: seq<string>, groups: seq<seq<Profile>>, d: Disk, k: nat)
    requires k <= |groups|
    requires RunGroups(e, texts, groups[..k], d).failure.Some?
    ensures RunGroups(e, texts, groups, d) == RunGroups(e, texts, groups[..k], d)
    decreases |groups|
  {
    if k < |groups| {
      var init := groups[..|groups| - 1];
      assert init[..k] == groups[..k];
      GroupsFailureSticks(e, texts, init, d, k);
    } else {
      assert groups[..k] == groups;
    }
  }

  /** With one section the job is the group worker over the whole profile
      list. */
  lemma OneSection(e: Env, texts: seq<string>, profiles: seq<Profile>, numProcesses: Option<int>,
                   cpuCount: nat, d: Disk)
    requires Sections(numProcesses, cpuCount) == 1
    ensures var g := GroupRun(e, texts, profiles, d);
      Parallel(e, texts, profiles, numProcesses, cpuCount, d) == Batch(g.disk, g.fetched, g.failure)
  {
    ArraySplitOne(profiles);
    assert [profiles][..0] == [];
    assert RunGroups(e, texts, [], d) == Batch(d, [], None);
    var g := GroupRun(e, texts, profiles, d);
    assert [] + g.fetched == g.fetched;
  }

  /** Every text paired with every profile of every group is done on `d`,
      and the three top directories exist. */
  predicate GroupsDone(l: Layout, d: Disk, texts: seq<string>, groups: seq<seq<Profile>>) {
    && l.outputDir in d.dirs && TextRoot(l) in d.dirs && EmotionRoot(l) in d.dirs
    && forall g, t, p :: 0 <= g < |groups| && t in texts && p in groups[g] ==> PairDone(l, d, t, p)
  }

  lemma PairDoneGrows(l: Layout, d1: Disk, d2: Disk, t: string, p: Profile)
    requires Grows(d1, d2) && PairDone(l, d1, t, p)
    ensures PairDone(l, d2, t, p)
  {
    var name := p.emotion.value;
    assert TextFile(l, t, name) in d1.files ==> TextFile(l, t, name) in d1.files.Keys;
    assert EmotionFile(l, t, name) in d1.files ==> EmotionFile(l, t, name) in d1.files.Keys;
  }

  /** A run over groups that raised nothing leaves every pair of every
      group done. */
  lemma {:induction false} RunGroupsCovers(e: Env, texts: seq<string>, groups: seq<seq<Profile>>, d: Disk)
    requires |groups| > 0
    requires RunGroups(e, texts, groups, d).failure.None?
    ensures GroupsDone(e.layout, RunGroups(e, texts, groups, d).disk, texts, groups)
    decreases |groups|
  {
    var init := groups[..|groups| - 1];
    var last := groups[|groups| - 1];
    var b := RunGroups(e, texts, init, d);
    var g := GroupRun(e, texts, last, b.disk);
    RunGroupsLast(e, texts, groups, d);
    GroupCovers(e, texts, last, b.disk);
    if |init| > 0 {
      RunGroupsCovers(e, texts, init, d);
    }
    GroupsDoneExtend(e.layout, b.disk, g.disk, texts, groups);
  }

  /** The run over all groups is the run over all but the last, then the
      last group's worker. */
  lemma RunGroupsLast(e: Env, texts: seq<string>, groups: seq<seq<Profile>>, d: Disk)
    requires |groups| > 0
    requires RunGroups(e, texts, groups, d).failure.None?
    ensures var b := RunGroups(e, texts, groups[..|groups| - 1], d);
      var g := GroupRun(e, texts, groups[|groups| - 1], b.disk);
      b.failure.None? && RunGroups(e, texts, groups, d) == Batch(g.disk, b.fetched + g.fetched, g.failure)
  {
  }

  /** The last group done on a disk that grew from one where the groups
      before it were done: all groups are done. */
  lemma GroupsDoneExtend(l: Layout, d1: Disk, d2: Disk, texts: seq<string>, groups: seq<seq<Profile>>)
    requires |groups| > 0 && Grows(Setup(l, d1), d2)
    requires |groups| > 1 ==> GroupsDone(l, d1, texts, groups[..|groups| - 1])
    requires forall t, p :: t in texts && p in groups[|groups| - 1] ==> PairDone(l, d2, t, p)
    ensures GroupsDone(l, d2, texts, groups)
  {
    forall g, t, p | 0 <= g < |groups| && t in texts && p in groups[g]
      ensures PairDone(l, d2, t, p)
    {
      if g < |groups| - 1 {
        assert p in groups[..|groups| - 1][g];
        PairDoneGrows(l, d1, d2, t, p);
      }
    }
  }

  /** Over a disk where every pair is already done, the groups request
      nothing and change nothing. */
  lemma {:induction false} RunGroupsIdle(e: Env, texts: seq<string>, groups: seq<seq<Profile>>, d: Disk)
    requires GroupsDone(e.layout, d, texts, groups)
    ensures RunGroups(e, texts, groups, d) == Batch(d, [], None)
    decreases |groups|
  {
    if |groups| > 0 {
      var init := groups[..|groups| - 1];
      var last := groups[|groups| - 1];
      assert GroupsDone(e.layout, d, texts, init) by {
        forall g, t, p | 0 <= g < |init| && t in texts && p in init[g]
          ensures PairDone(e.layout, d, t, p)
        {
          assert p in groups[g];
        }
      }
      RunGroupsIdle(e, texts, init, d);
      var pairs := Product(texts, last);
      assert AllDone(e.layout, d, pairs) by {
        forall k | 0 <= k < |pairs|
          ensures PairDone(e.layout, d, pairs[k].0, pairs[k].1)
        {
          assert pairs[k].1 in groups[|groups| - 1];
        }
      }
      assert Setup(e.layout, d) == d;
      RunIdle(e, Progress(d, [], 0, None), pairs);
    }
  }

  /** Lines 82-93: when no group raised, every text has been paired with
      every profile: each profile names an emotion and both of its audio
      files exist for every text. */
  lemma ParallelCovers(e: Env, texts: seq<string>, profiles: seq<Profile>, numProcesses: Option<int>,
                       cpuCount: nat, d: Disk)
    requires Parallel(e, texts, profiles, numProcesses, cpuCount, d).failure.None?
    ensures forall t, p :: t in texts && p in profiles ==>
              PairDone(e.layout, Parallel(e, texts, profiles, numProcesses, cpuCount, d).disk, t, p)
  {
    var w := Sections(numProcesses, cpuCount);
    var groups := ArraySplit(profiles, w);
    RunGroupsCovers(e, texts, groups, d);
    forall t, p | t in texts && p in profiles
      ensures PairDone(e.layout, RunGroups(e, texts, groups, d).disk, t, p)
    {
      ArraySplitConcat(profiles, w);
      ConcatMembers(groups, p);
    }
  }

  /** Running the whole job again on the disk a successful run left
      requests nothing and changes nothing. */
  lemma ParallelRerunIdle(e: Env, texts: seq<string>, profiles: seq<Profile>, numProcesses: Option<int>,
                          cpuCount: nat, d: Disk)
    requires Parallel(e, texts, profiles, numProcesses, cpuCount, d).failure.None?
    ensures var d2 := Parallel(e, texts, profiles, numProcesses, cpuCount, d).disk;
      Parallel(e, texts, profiles, numProcesses, cpuCount, d2) == Batch(d2, [], None)
  {
    var w := Sections(numProcesses, cpuCount);
    var groups := ArraySplit(profiles, w);
    RunGroupsCovers(e, texts, groups, d);
    RunGroupsIdle(e, texts, groups, RunGroups(e, texts, groups, d).disk);
  }

  /** A path named by no text-profile pair and by none of the three top
      directories keeps its file and its directory status. */
  lemma {:induction false} RunGroupsFrame(e: Env, texts: seq<string>, groups: seq<seq<Profile>>, d: Disk, q: Path)
    requires q != e.layout.outputDir && q != TextRoot(e.layout) && q != EmotionRoot(e.layout)
    requires forall t, p :: t in texts && p in Concat(groups) && p.emotion.Some? ==>
      q != TextDir(e.layout, t) && q != EmotionDir(e.layout, p.emotion.value)
      && q != TextFile(e.layout, t, p.emotion.value) && q != EmotionFile(e.layout, t, p.emotion.value)
    ensures SameAt(d, RunGroups(e, texts, groups, d).disk, q)
    ensures q in d.dirs <==> q in RunGroups(e, texts, groups, d).disk.dirs
    decreases |groups|
  {
    if |groups| > 0 {
      var init := groups[..|groups| - 1];
      var last := groups[|groups| - 1];
      forall p | p in Concat(init) || p in last
        ensures p in Concat(groups)
      {
        ConcatMembers(init, p);
        ConcatMembers(groups, p);
        if p in Concat(init) {
          var g :| 0 <= g < |init| && p in init[g];
          assert p in groups[g];
        } else {
          assert p in groups[|groups| - 1];
        }
      }
      RunGroupsFrame(e, texts, init, d, q);
      var b := RunGroups(e, texts, init, d);
      if b.failure.None? {
        GroupFrame(e, texts, last, b.disk, q);
      }
    }
  }

  /** Lines 82-93, "nothing else changes": the job touches only the three
      top directories and the directories and files of its own pairs. */
  lemma ParallelFrame(e: Env, texts: seq<string>, profiles: seq<Profile>, numProcesses: Option<int>,
                      cpuCount: nat, d: Disk, q: Path)
    requires q != e.layout.outputDir && q != TextRoot(e.layout) && q != EmotionRoot(e.layout)
    requires forall t, p :: t in texts && p in profiles && p.emotion.Some? ==>
      q != TextDir(e.layout, t) && q != EmotionDir(e.layout, p.emotion.value)
      && q != TextFile(e.layout, t, p.emotion.value) && q != EmotionFile(e.layout, t, p.emotion.value)
    ensures SameAt(d, Parallel(e, texts, profiles, numProcesses, cpuCount, d).disk, q)
    ensures q in d.dirs <==> q in Parallel(e, texts, profiles, numProcesses, cpuCount, d).disk.dirs
  {
    var w := Sections(numProcesses, cpuCount);
    if w > 0 {
      ArraySplitConcat(profiles, w);
      RunGroupsFrame(e, texts, ArraySplit(profiles, w), d, q);
    }
  }
}
