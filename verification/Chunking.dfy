/**
 * `word_chunks`: overlapping fixed-size windows of whitespace-delimited
 * words, each window re-joined with single spaces.
 */
module Chunking {
  import opened PyStr
  import opened Arith

  /** `max(1, chunk_size - chunk_overlap)`: the distance between window starts. */
  function Stride(size: int, overlap: int): (s: nat)
    ensures s >= 1 && s >= size - overlap
    ensures s == 1 || s == size - overlap
  {
    if size - overlap >= 1 then size - overlap else 1
  }

  /**
   * The stop index Python uses for `words[start:start + size]` on a list
   * of `n` words (`start >= 0`): a negative stop counts from the end, and
   * both ends are clamped to `[0, n]`.
   */
  function SliceStop(n: nat, start: nat, size: int): (e: nat)
    ensures e <= n
  {
    var stop := start + size;
    if stop < 0 then (if n + stop < 0 then 0 else n + stop)
    else if stop > n then n
    else stop
  }

  /**
   * The loop `for i in range(start, len(words), step)`: append the joined
   * slice `words[i:i + size]`, stopping early at the first empty slice.
   */
  function ChunksFrom(words: seq<string>, start: nat, step: nat, size: int): (r: seq<string>)
    requires step >= 1
    ensures |r| <= if start < |words| then |words| - start else 0
    decreases |words| - start
  {
    if start >= |words| then []
    else
      var stop := SliceStop(|words|, start, size);
      if stop <= start then []
      else [Join(words[start..stop])] + ChunksFrom(words, start + step, step, size)
  }

  /** `word_chunks(text, chunk_size, chunk_overlap)`. */
  function WordChunks(text: string, size: int, overlap: int): (r: seq<string>)
    ensures |r| <= |Split(text)|
  {
    var words := Split(text);
    if |words| == 0 then [] else ChunksFrom(words, 0, Stride(size, overlap), size)
  }

  /** End (exclusive) of the window that starts at word `first`, for a positive chunk size. */
  function WindowEnd(n: nat, first: nat, size: nat): nat
  {
    if first + size < n then first + size else n
  }

  /** The words of chunk `k`: `words[k*s .. min(k*s + size, n))`. */
  function Window(words: seq<string>, k: nat, step: nat, size: nat): seq<string>
    requires Multiple(k, step) < |words|
  {
    words[Multiple(k, step)..WindowEnd(|words|, Multiple(k, step), size)]
  }

  /** `r` is the closed-form chunking of `words`: `ceil(n / s)` windows, window `k` starting at word `k*s`. */
  predicate IsChunking(words: seq<string>, r: seq<string>, step: nat, size: nat)
    requires step >= 1
  {
    && |r| == CeilDiv(|words|, step)
    && forall k :: 0 <= k < |r| ==> Multiple(k, step) < |words| && r[k] == Join(Window(words, k, step, size))
  }

  /** The loop runs once per stride: `ceil((n - start) / step)` chunks for `chunk_size >= 1`. */
  lemma {:induction false} ChunksFromCount(words: seq<string>, start: nat, step: nat, size: nat)
    requires step >= 1 && size >= 1
    ensures |ChunksFrom(words, start, step, size)| == CeilDiv(if start < |words| then |words| - start else 0, step)
    decreases |words| - start
  {
    if start < |words| {
      ChunksFromCount(words, start + step, step, size);
    }
  }

  /** Chunk `k` of the loop starting at `start` is the window beginning `k` strides later. */
  lemma {:induction false} ChunksFromAt(words: seq<string>, start: nat, step: nat, size: nat, k: nat)
    requires step >= 1 && size >= 1 && k < |ChunksFrom(words, start, step, size)|
    ensures start + Multiple(k, step) < |words|
    ensures ChunksFrom(words, start, step, size)[k]
         == Join(words[start + Multiple(k, step)..WindowEnd(|words|, start + Multiple(k, step), size)])
    decreases k
  {
    ChunksFromHead(words, start, step, size);
    if k > 0 {
      var rest := ChunksFrom(words, start + step, step, size);
      IndexCons(Join(words[start..WindowEnd(|words|, start, size)]), rest, k);
      ChunksFromAt(words, start + step, step, size, k - 1);
      assert start + step + Multiple(k - 1, step) == start + Multiple(k, step);
    }
  }

  lemma IndexCons<T>(x: T, rest: seq<T>, k: nat)
    requires 0 < k <= |rest|
    ensures ([x] + rest)[k] == rest[k - 1]
  {
  }

  /** One turn of the loop from `start < n`: the window at `start`, then the loop one stride on. */
  lemma ChunksFromHead(words: seq<string>, start: nat, step: nat, size: nat)
    requires step >= 1 && size >= 1 && start < |words|
    ensures ChunksFrom(words, start, step, size)
         == [Join(words[start..WindowEnd(|words|, start, size)])] + ChunksFrom(words, start + step, step, size)
  {
  }

  /** For `chunk_size >= 1` there are `ceil(n / s)` chunks of `n` words, `s` the stride. */
  lemma WordChunksCount(text: string, size: int, overlap: int)
    requires size >= 1
    ensures |WordChunks(text, size, overlap)| == CeilDiv(|Split(text)|, Stride(size, overlap))
  {
    var words := Split(text);
    var s := Stride(size, overlap);
    assert WordChunks(text, size, overlap) == if |words| == 0 then [] else ChunksFrom(words, 0, s, size);
    ChunksCount(words, s, size);
  }

  /** The word-level count behind `WordChunksCount`. */
  lemma ChunksCount(words: seq<string>, s: nat, size: nat)
    requires s >= 1 && size >= 1
    ensures |if |words| == 0 then [] else ChunksFrom(words, 0, s, size)| == CeilDiv(|words|, s)
  {
    if |words| == 0 {
      assert CeilDiv(0, s) == 0;
    } else {
      ChunksFromCount(words, 0, s, size);
    }
  }

  /** For `chunk_size >= 1` chunk `k` is window `k` joined by single spaces. */
  lemma WordChunkAt(text: string, size: int, overlap: int, k: nat)
    requires size >= 1 && k < |WordChunks(text, size, overlap)|
    ensures var words := Split(text);
      var s := Stride(size, overlap);
      Multiple(k, s) < |words| && WordChunks(text, size, overlap)[k] == Join(Window(words, k, s, size))
  {
    var words := Split(text);
    var s := Stride(size, overlap);
    assert WordChunks(text, size, overlap) == if |words| == 0 then [] else ChunksFrom(words, 0, s, size);
    ChunkAt(words, s, size, k);
  }

  /** The word-level statement behind `WordChunkAt`. */
  lemma ChunkAt(words: seq<string>, s: nat, size: nat, k: nat)
    requires s >= 1 && size >= 1 && k < |if |words| == 0 then [] else ChunksFrom(words, 0, s, size)|
    ensures Multiple(k, s) < |words| && ChunksFrom(words, 0, s, size)[k] == Join(Window(words, k, s, size))
  {
    ChunksFromAt(words, 0, s, size, k);
  }

  /**
   * For `chunk_size >= 1`, with stride `s = max(1, chunk_size - chunk_overlap)`
   * and `n` words, there are exactly `ceil(n / s)` chunks and chunk `k` is
   * `words[k*s .. min(k*s + chunk_size, n))` joined by single spaces.
   */
  lemma WordChunksShape(text: string, size: int, overlap: int)
    requires size >= 1
    ensures IsChunking(Split(text), WordChunks(text, size, overlap), Stride(size, overlap), size)
  {
    WordChunksCount(text, size, overlap);
    forall k | 0 <= k < |WordChunks(text, size, overlap)|
      ensures Multiple(k, Stride(size, overlap)) < |Split(text)|
      ensures WordChunks(text, size, overlap)[k] == Join(Window(Split(text), k, Stride(size, overlap), size))
    {
      WordChunkAt(text, size, overlap, k);
    }
  }

  /**
   * Every window holds between 1 and `chunk_size` words, and `split()`
   * applied to its chunk gives exactly those words back.
   */
  lemma WindowWords(words: seq<string>, k: nat, step: nat, size: nat)
    requires AllWords(words) && size >= 1 && Multiple(k, step) < |words|
    ensures 1 <= |Window(words, k, step, size)| <= size
    ensures Split(Join(Window(words, k, step, size))) == Window(words, k, step, size)
  {
    var w := Window(words, k, step, size);
    assert AllWords(w) by {
      forall i | 0 <= i < |w| ensures IsWord(w[i]) {
        assert w[i] == words[Multiple(k, step) + i];
      }
    }
    SplitJoin(w);
  }

  /** For `chunk_size >= 1` every chunk holds between 1 and `chunk_size` words. */
  lemma ChunkWordCount(text: string, size: int, overlap: int, j: nat)
    requires size >= 1 && j < |WordChunks(text, size, overlap)|
    ensures 1 <= |Split(WordChunks(text, size, overlap)[j])| <= size
  {
    WordChunkAt(text, size, overlap, j);
    WindowWords(Split(text), j, Stride(size, overlap), size);
  }

  /**
   * `word_chunks` returns `[]` exactly when the text has no words or the
   * first slice is already empty; for `chunk_size >= 1` that is exactly
   * when the text is all whitespace, and for `chunk_size == 0` always.
   */
  lemma WordChunksEmpty(text: string, size: int, overlap: int)
    ensures WordChunks(text, size, overlap) == [] <==>
      (Split(text) == [] || SliceStop(|Split(text)|, 0, size) == 0)
    ensures size >= 1 ==> (WordChunks(text, size, overlap) == [] <==> AllSpace(text))
    ensures size == 0 ==> WordChunks(text, size, overlap) == []
  {
  }

  /** Word `j` falls in the window of chunk `j / s`, one of the `count` chunks. */
  predicate InWindowOf(n: nat, count: nat, s: nat, size: nat, j: nat) {
    s >= 1 && j / s < count && Multiple(j / s, s) <= j < WindowEnd(n, Multiple(j / s, s), size)
  }

  /** Word `j` falls in the window of some chunk. */
  ghost predicate Covered(n: nat, count: nat, s: nat, size: nat, j: nat) {
    exists k :: 0 <= k < count && Multiple(k, s) <= j < WindowEnd(n, Multiple(k, s), size)
  }

  /**
   * With `0 <= chunk_overlap < chunk_size` the windows cover the text: the
   * last one ends at the last word and every word lies in some window,
   * word `j` in window `j / s`.
   */
  lemma WordChunksCover(text: string, size: int, overlap: int)
    requires 0 <= overlap < size
    ensures var words := Split(text);
      var s := Stride(size, overlap);
      var r := WordChunks(text, size, overlap);
      && (|words| > 0 ==> |r| >= 1 && Multiple(|r| - 1, s) < |words| && WindowEnd(|words|, Multiple(|r| - 1, s), size) == |words|)
      && (forall j :: 0 <= j < |words| ==> Covered(|words|, |r|, s, size, j))
      && forall j :: 0 <= j < |words| ==> InWindowOf(|words|, |r|, s, size, j)
  {
    WordChunksCount(text, size, overlap);
    StridesCover(|Split(text)|, Stride(size, overlap), size);
  }

  /** Strides of length `s <= size` cover `[0, n)`, and the last window ends at `n`. */
  lemma StridesCover(n: nat, s: nat, size: nat)
    requires 1 <= s <= size
    ensures n > 0 ==> CeilDiv(n, s) >= 1 && Multiple(CeilDiv(n, s) - 1, s) < n && WindowEnd(n, Multiple(CeilDiv(n, s) - 1, s), size) == n
    ensures forall j :: 0 <= j < n ==> Covered(n, CeilDiv(n, s), s, size, j)
    ensures forall j :: 0 <= j < n ==> InWindowOf(n, CeilDiv(n, s), s, size, j)
  {
    if n > 0 {
      LastStride(n, s);
    }
    WordsInWindows(n, s, size);
  }

  lemma WordsInWindows(n: nat, s: nat, size: nat)
    requires 1 <= s <= size
    ensures forall j :: 0 <= j < n ==> Covered(n, CeilDiv(n, s), s, size, j)
    ensures forall j :: 0 <= j < n ==> InWindowOf(n, CeilDiv(n, s), s, size, j)
  {
    forall j | 0 <= j < n
      ensures InWindowOf(n, CeilDiv(n, s), s, size, j)
      ensures Covered(n, CeilDiv(n, s), s, size, j)
    {
      WordInWindow(n, s, size, j);
    }
  }

  /** Word `j` lies in window `j / s`. */
  lemma WordInWindow(n: nat, s: nat, size: nat, j: nat)
    requires 1 <= s <= size && j < n
    ensures InWindowOf(n, CeilDiv(n, s), s, size, j)
    ensures Covered(n, CeilDiv(n, s), s, size, j)
  {
    StrideOfBounds(n, s, j);
    StrideOfIsQuotient(j, s);
  }

  /** Adjacent windows `s = size - overlap` apart share their last/first `min(overlap, |next|)` words. */
  lemma WindowsOverlap(words: seq<string>, p: nat, s: nat, size: nat, overlap: nat)
    requires s == size - overlap >= 1 && p + s < |words|
    ensures var n := |words|;
      var a := words[p..WindowEnd(n, p, size)];
      var b := words[p + s..WindowEnd(n, p + s, size)];
      var l := if overlap < |b| then overlap else |b|;
      l <= |a| && a[|a| - l..] == b[..l]
  {
    var n := |words|;
    var q := p + s;
    var ea := WindowEnd(n, p, size);
    var a := words[p..ea];
    var b := words[q..WindowEnd(n, q, size)];
    var l := if overlap < |b| then overlap else |b|;
    assert ea == q + l;
    assert a[|a| - l..] == words[q..ea];
    assert b[..l] == words[q..q + l];
  }

  /**
   * With `0 <= chunk_overlap < chunk_size`, the last `min(chunk_overlap, |next|)`
   * words of chunk `k` are the first words of chunk `k + 1`.
   */
  lemma WordChunksOverlap(text: string, size: int, overlap: int, k: nat)
    requires 0 <= overlap < size
    requires k + 1 < |WordChunks(text, size, overlap)|
    ensures var words := Split(text);
      var s := Stride(size, overlap);
      && Multiple(k + 1, s) == Multiple(k, s) + s && Multiple(k + 1, s) < |words|
      && var a := Window(words, k, s, size);
      var b := Window(words, k + 1, s, size);
      var l := if overlap < |b| then overlap else |b|;
      l <= |a| && a[|a| - l..] == b[..l]
  {
    WordChunksCount(text, size, overlap);
    ConsecutiveWindows(Split(text), Stride(size, overlap), size, overlap, k);
  }

  /** Windows `k` and `k + 1` of `ceil(n / s)` windows with `s = size - overlap` overlap as above. */
  lemma ConsecutiveWindows(words: seq<string>, s: nat, size: nat, overlap: nat, k: nat)
    requires s == size - overlap >= 1 && k + 1 < CeilDiv(|words|, s)
    ensures && Multiple(k + 1, s) == Multiple(k, s) + s && Multiple(k + 1, s) < |words|
      && var a := Window(words, k, s, size);
      var b := Window(words, k + 1, s, size);
      var l := if overlap < |b| then overlap else |b|;
      l <= |a| && a[|a| - l..] == b[..l]
  {
    MultipleBelow(|words|, s, k + 1);
    WindowsOverlap(words, Multiple(k, s), s, size, overlap);
  }

  /**
   * `chunk_overlap >= chunk_size` is not rejected: the stride is clamped
   * to 1, so every word starts its own chunk.
   */
  lemma WordChunksClamped(text: string, size: int, overlap: int)
    requires 1 <= size <= overlap
    ensures var words := Split(text);
      var r := WordChunks(text, size, overlap);
      && |r| == |words|
      && forall k :: 0 <= k < |r| ==> r[k] == Join(words[k..WindowEnd(|words|, k, size)])
  {
    var words := Split(text);
    WordChunksCount(text, size, overlap);
    CeilDivOne(|words|);
    var r := WordChunks(text, size, overlap);
    forall k | 0 <= k < |r|
      ensures r[k] == Join(words[k..WindowEnd(|words|, k, size)])
    {
      WordChunkAt(text, size, overlap, k);
      MultipleOne(k);
    }
  }
}
