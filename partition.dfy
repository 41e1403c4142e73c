/** The work split of `generate_audio_files_parallel` (audio_inference.py,
    line 87): `np.array_split(emotion_list, num_processes)` cuts the list of
    voice profiles into `num_processes` contiguous groups whose sizes differ
    by at most one, the larger groups first. */
module Partition {

  /** With `n` items in `w` groups, each group has `q = n / w` items and the
      first `r = n % w` groups one more. `Size` is the size of the next
      group when `r` larger groups remain, `Next` what remains after it. */
  function Size(q: nat, r: nat): nat {
    if r > 0 then q + 1 else q
  }

  function Next(r: nat): nat {
    if r > 0 then r - 1 else 0
  }

  /** The number of items in the first `k` groups. */
  function Total(q: nat, r: nat, k: nat): nat
    decreases k
  {
    if k == 0 then 0 else Size(q, r) + Total(q, Next(r), k - 1)
  }

  /** `k` groups from `xs`: the first `r` of size `q + 1`, the rest of size `q`. */
  function Chunks<T>(xs: seq<T>, q: nat, r: nat, k: nat): (groups: seq<seq<T>>)
    requires |xs| == Total(q, r, k)
    ensures |groups| == k
    decreases k
  {
    if k == 0 then []
    else [xs[..Size(q, r)]] + Chunks(xs[Size(q, r)..], q, Next(r), k - 1)
  }

  /** `i * q + min(i, r)`: the closed form of `Total`. */
  lemma {:induction false} TotalClosed(q: nat, r: nat, k: nat)
    ensures Total(q, r, k) == k * q + (if k < r then k else r)
    decreases k
  {
    if k > 0 {
      TotalClosed(q, Next(r), k - 1);
      assert (k - 1) * q + q == k * q;
    }
  }

  /** `np.array_split(xs, w)` for `w > 0`. */
  function ArraySplit<T>(xs: seq<T>, w: nat): (groups: seq<seq<T>>)
    requires w > 0
    ensures |groups| == w
  {
    TotalClosed(|xs| / w, |xs| % w, w);
    Chunks(xs, |xs| / w, |xs| % w, w)
  }

  /** A single section is the whole list. */
  lemma ArraySplitOne<T>(xs: seq<T>)
    ensures ArraySplit(xs, 1) == [xs]
  {
    assert xs[..Size(|xs|, 0)] == xs;
  }

  function Concat<T>(groups: seq<seq<T>>): seq<T>
    decreases |groups|
  {
    if |groups| == 0 then [] else groups[0] + Concat(groups[1..])
  }

  lemma {:induction false} ChunksConcat<T>(xs: seq<T>, q: nat, r: nat, k: nat)
    requires |xs| == Total(q, r, k)
    ensures Concat(Chunks(xs, q, r, k)) == xs
    decreases k
  {
    if k > 0 {
      var g := Chunks(xs, q, r, k);
      var s := Size(q, r);
      ChunksConcat(xs[s..], q, Next(r), k - 1);
      assert g[1..] == Chunks(xs[s..], q, Next(r), k - 1);
      assert xs == xs[..s] + xs[s..];
    }
  }

  /** Group `i` has `q + 1` items when `i < r`, `q` otherwise. */
  lemma {:induction false} TotalStep(q: nat, r: nat, i: nat)
    ensures Total(q, r, i + 1) == Total(q, r, i) + (if i < r then q + 1 else q)
    decreases i
  {
    if i > 0 {
      TotalStep(q, Next(r), i - 1);
    }
  }

  lemma {:induction false} ChunksSlices<T>(xs: seq<T>, q: nat, r: nat, k: nat, i: nat)
    requires |xs| == Total(q, r, k)
    requires i < k
    ensures Total(q, r, i) + (if i < r then q + 1 else q) == Total(q, r, i + 1) <= |xs|
    ensures Chunks(xs, q, r, k)[i] == xs[Total(q, r, i)..Total(q, r, i + 1)]
    decreases k
  {
    TotalStep(q, r, i);
    TotalMonotone(q, r, i + 1, k);
    ChunkAt(xs, q, r, k, i);
  }

  lemma {:induction false} ChunkAt<T>(xs: seq<T>, q: nat, r: nat, k: nat, i: nat)
    requires |xs| == Total(q, r, k)
    requires i < k
    ensures Total(q, r, i) <= Total(q, r, i + 1) <= |xs|
    ensures Chunks(xs, q, r, k)[i] == xs[Total(q, r, i)..Total(q, r, i + 1)]
    decreases k
  {
    var s := Size(q, r);
    if i > 0 {
      var rest := xs[s..];
      ChunkAt(rest, q, Next(r), k - 1, i - 1);
      var lo, hi := Total(q, Next(r), i - 1), Total(q, Next(r), i);
      assert Chunks(xs, q, r, k)[i] == rest[lo..hi];
      assert rest[lo..hi] == xs[s + lo..s + hi];
    } else {
      assert Total(q, Next(r), k - 1) >= 0;
    }
  }

  lemma {:induction false} TotalMonotone(q: nat, r: nat, i: nat, k: nat)
    requires i <= k
    ensures Total(q, r, i) <= Total(q, r, k)
    decreases k
  {
    if i < k {
      if i > 0 {
        TotalMonotone(q, Next(r), i - 1, k - 1);
      }
    }
  }

  /** Concatenating the groups in order gives back the whole list: nothing
      lost, nothing repeated, order kept. */
  lemma ArraySplitConcat<T>(xs: seq<T>, w: nat)
    requires w > 0
    ensures Concat(ArraySplit(xs, w)) == xs
  {
    TotalClosed(|xs| / w, |xs| % w, w);
    ChunksConcat(xs, |xs| / w, |xs| % w, w);
  }

  /** Where group `i` starts in the list: `i * (n / w) + min(i, n % w)`. */
  function SectionStart(n: nat, w: nat, i: nat): nat
    requires w > 0
  {
    i * (n / w) + (if i < n % w then i else n % w)
  }

  /** Group `i` is the contiguous slice from its start to the next group's
      start, and holds `n / w + 1` items when `i < n % w`, `n / w` otherwise
      (`n` the length of the list). */
  lemma ArraySplitSlices<T>(xs: seq<T>, w: nat, i: nat)
    requires w > 0 && i < w
    ensures SectionStart(|xs|, w, i) <= SectionStart(|xs|, w, i + 1) <= |xs|
    ensures ArraySplit(xs, w)[i] == xs[SectionStart(|xs|, w, i)..SectionStart(|xs|, w, i + 1)]
    ensures |ArraySplit(xs, w)[i]| == if i < |xs| % w then |xs| / w + 1 else |xs| / w
  {
    var q, r := |xs| / w, |xs| % w;
    ArraySplitChunks(xs, w);
    ChunksSlices(xs, q, r, w, i);
    StartIsTotal(|xs|, w, i);
    StartIsTotal(|xs|, w, i + 1);
  }

  lemma ArraySplitChunks<T>(xs: seq<T>, w: nat)
    requires w > 0
    ensures |xs| == Total(|xs| / w, |xs| % w, w)
    ensures ArraySplit(xs, w) == Chunks(xs, |xs| / w, |xs| % w, w)
  {
    TotalClosed(|xs| / w, |xs| % w, w);
  }

  lemma StartIsTotal(n: nat, w: nat, i: nat)
    requires w > 0
    ensures SectionStart(n, w, i) == Total(n / w, n % w, i)
  {
    TotalClosed(n / w, n % w, i);
  }

  /** Any two groups differ in size by at most one. */
  lemma ArraySplitBalanced<T>(xs: seq<T>, w: nat, i: nat, j: nat)
    requires w > 0 && i < w && j < w
    ensures -1 <= |ArraySplit(xs, w)[i]| - |ArraySplit(xs, w)[j]| <= 1
  {
    ArraySplitSlices(xs, w, i);
    ArraySplitSlices(xs, w, j);
  }

  function SumSizes<T>(groups: seq<seq<T>>): nat
    decreases |groups|
  {
    if |groups| == 0 then 0 else |groups[0]| + SumSizes(groups[1..])
  }

  lemma {:induction false} ConcatLength<T>(groups: seq<seq<T>>)
    ensures |Concat(groups)| == SumSizes(groups)
    decreases |groups|
  {
    if |groups| > 0 {
      ConcatLength(groups[1..]);
    }
  }

  /** The sizes sum to the length of the list. */
  lemma ArraySplitTotal<T>(xs: seq<T>, w: nat)
    requires w > 0
    ensures SumSizes(ArraySplit(xs, w)) == |xs|
  {
    ArraySplitConcat(xs, w);
    ConcatLength(ArraySplit(xs, w));
  }

  /** An item is in the concatenation exactly when it is in one of the groups. */
  lemma {:induction false} ConcatMembers<T>(groups: seq<seq<T>>, x: T)
    ensures x in Concat(groups) <==> exists g :: 0 <= g < |groups| && x in groups[g]
    decreases |groups|
  {
    if |groups| > 0 {
      ConcatMembers(groups[1..], x);
      if x in Concat(groups[1..]) {
        var g :| 0 <= g < |groups| - 1 && x in groups[1..][g];
        assert x in groups[g + 1];
      }
      if exists g :: 0 <= g < |groups| && x in groups[g] {
        var g :| 0 <= g < |groups| && x in groups[g];
        if g > 0 {
          assert x in groups[1..][g - 1];
        }
      }
    }
  }
}
