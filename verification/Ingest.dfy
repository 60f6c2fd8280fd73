/**
 * `build_chunks`: every document's chunks flattened, in input order, into
 * three parallel lists (texts, metadata records, ids).
 */
module Ingest {
  import opened PyStr
  import opened Chunking

  /** A metadata value: the readers store strings (source, path, title) and integers (page, chunk_size). */
  datatype MetaValue = Text(s: string) | Number(n: int)

  type Meta = map<string, MetaValue>

  /** One extracted document: normalised text and its base metadata. */
  datatype Document = Document(text: string, base: Meta)

  /** The three parallel lists `(docs, metas, ids)`. */
  datatype Batch = Batch(docs: seq<string>, metas: seq<Meta>, ids: seq<string>)

  const IdPrefix: string := "ccp_"
  const ChunkSizeKey: string := "chunk_size"

  /** `f"ccp_{idx}"`. */
  function ChunkId(idx: nat): string
  {
    IdPrefix + Decimal(idx)
  }

  /** `len(ch.split())`. */
  function WordCount(chunk: string): nat
  {
    |Split(chunk)|
  }

  /** `md = dict(base_md); md["chunk_size"] = count(ch)`, with `count` the word counter. */
  function Stamp(base: Meta, chunk: string, count: string -> nat): Meta
  {
    base[ChunkSizeKey := Number(count(chunk))]
  }

  function StampAll(base: Meta, chunks: seq<string>, count: string -> nat): (mds: seq<Meta>)
    ensures |mds| == |chunks|
    ensures forall j :: 0 <= j < |chunks| ==> mds[j] == Stamp(base, chunks[j], count)
  {
    if chunks == [] then [] else [Stamp(base, chunks[0], count)] + StampAll(base, chunks[1..], count)
  }

  function IdsFrom(idx: nat, count: nat): (ids: seq<string>)
    ensures |ids| == count
    ensures forall j :: 0 <= j < count ==> ids[j] == ChunkId(idx + j)
  {
    seq(count, j requires 0 <= j => ChunkId(idx + j))
  }

  /** `word_chunks` with one run's `chunk_size` and `chunk_overlap`. */
  function Chunker(size: int, overlap: int): string -> seq<string>
  {
    text => WordChunks(text, size, overlap)
  }

  /**
   * The loop of `build_chunks` over `items`, with the id counter starting
   * at `idx`; `chunker` splits one document's text and `count` counts the
   * words of one chunk.
   */
  function BuildFrom(items: seq<Document>, chunker: string -> seq<string>, count: string -> nat, idx: nat): Batch
  {
    if items == [] then Batch([], [], [])
    else
      var chunks := chunker(items[0].text);
      var rest := BuildFrom(items[1..], chunker, count, idx + |chunks|);
      Batch(chunks + rest.docs,
            StampAll(items[0].base, chunks, count) + rest.metas,
            IdsFrom(idx, |chunks|) + rest.ids)
  }

  /** `build_chunks(items, chunk_size, chunk_overlap)`. */
  function BuildChunks(items: seq<Document>, size: int, overlap: int): (b: Batch)
    ensures |b.metas| == |b.docs| && |b.ids| == |b.docs|
    ensures forall k :: 0 <= k < |b.ids| ==> b.ids[k] == ChunkId(k)
  {
    BuildFromIds(items, Chunker(size, overlap), Counter(), 0);
    BuildFrom(items, Chunker(size, overlap), Counter(), 0)
  }

  /** `len(ch.split())` as a function value. */
  function Counter(): string -> nat
  {
    chunk => WordCount(chunk)
  }

  /** Each document's chunk list, in input order. */
  function ChunkLists(items: seq<Document>, chunker: string -> seq<string>): (css: seq<seq<string>>)
    ensures |css| == |items|
    ensures forall i :: 0 <= i < |items| ==> css[i] == chunker(items[i].text)
  {
    seq(|items|, i requires 0 <= i < |items| => chunker(items[i].text))
  }

  /** Each document's metadata records, in input order. */
  function MetaLists(items: seq<Document>, chunker: string -> seq<string>, count: string -> nat): (mss: seq<seq<Meta>>)
    ensures |mss| == |items|
    ensures forall i :: 0 <= i < |items| ==> mss[i] == StampAll(items[i].base, chunker(items[i].text), count)
  {
    seq(|items|, i requires 0 <= i < |items| => StampAll(items[i].base, chunker(items[i].text), count))
  }

  function Flatten<T>(xss: seq<seq<T>>): seq<T>
  {
    if xss == [] then [] else xss[0] + Flatten(xss[1..])
  }

  /** Number of chunks the first `i` documents produce: where document `i`'s chunks begin. */
  function Offset(items: seq<Document>, size: int, overlap: int, i: nat): nat
    requires i <= |items|
  {
    |Flatten(ChunkLists(items[..i], Chunker(size, overlap)))|
  }

  lemma {:induction false} FlattenIndex<T>(xss: seq<seq<T>>, i: nat, j: nat)
    requires i < |xss| && j < |xss[i]|
    ensures |Flatten(xss[..i])| + j < |Flatten(xss)|
    ensures Flatten(xss)[|Flatten(xss[..i])| + j] == xss[i][j]
  {
    if i > 0 {
      assert xss[1..][..i - 1] == xss[..i][1..];
      FlattenIndex(xss[1..], i - 1, j);
    }
  }

  lemma {:induction false} FlattenLengths<T, U>(xss: seq<seq<T>>, yss: seq<seq<U>>)
    requires |xss| == |yss| && forall i :: 0 <= i < |xss| ==> |xss[i]| == |yss[i]|
    ensures |Flatten(xss)| == |Flatten(yss)|
  {
    if xss != [] {
      FlattenLengths(xss[1..], yss[1..]);
    }
  }

  lemma ChunkListsTail(items: seq<Document>, chunker: string -> seq<string>)
    requires items != []
    ensures ChunkLists(items, chunker) == [chunker(items[0].text)] + ChunkLists(items[1..], chunker)
  {
  }

  lemma {:induction false} BuildFromDocs(items: seq<Document>, chunker: string -> seq<string>, count: string -> nat, idx: nat)
    ensures BuildFrom(items, chunker, count, idx).docs == Flatten(ChunkLists(items, chunker))
  {
    if items != [] {
      var chunks := chunker(items[0].text);
      BuildFromDocs(items[1..], chunker, count, idx + |chunks|);
      ChunkListsTail(items, chunker);
    }
  }

  lemma {:induction false} BuildFromMetas(items: seq<Document>, chunker: string -> seq<string>, count: string -> nat, idx: nat)
    ensures BuildFrom(items, chunker, count, idx).metas == Flatten(MetaLists(items, chunker, count))
  {
    if items != [] {
      var mss := MetaLists(items, chunker, count);
      var chunks := chunker(items[0].text);
      BuildFromMetas(items[1..], chunker, count, idx + |chunks|);
      assert mss[1..] == MetaLists(items[1..], chunker, count);
    }
  }

  lemma {:induction false} BuildFromIds(items: seq<Document>, chunker: string -> seq<string>, count: string -> nat, idx: nat)
    ensures var b := BuildFrom(items, chunker, count, idx);
      && |b.metas| == |b.docs| && |b.ids| == |b.docs|
      && (forall k :: 0 <= k < |b.ids| ==> b.ids[k] == ChunkId(idx + k))
  {
    if items != [] {
      var chunks := chunker(items[0].text);
      var b := BuildFrom(items, chunker, count, idx);
      var rest := BuildFrom(items[1..], chunker, count, idx + |chunks|);
      BuildFromIds(items[1..], chunker, count, idx + |chunks|);
      forall k | 0 <= k < |b.ids|
        ensures b.ids[k] == ChunkId(idx + k)
      {
        if k >= |chunks| {
          assert b.ids[k] == rest.ids[k - |chunks|];
        }
      }
    }
  }

  /**
   * The three lists have one common length `N`, the total number of chunks
   * of all documents; `docs` is the in-order concatenation of each
   * document's chunks; the ids are exactly `ccp_0 .. ccp_{N-1}` in order,
   * hence pairwise distinct.
   */
  lemma BuildChunksLists(items: seq<Document>, size: int, overlap: int)
    ensures var b := BuildChunks(items, size, overlap);
      && b.docs == Flatten(ChunkLists(items, Chunker(size, overlap)))
      && |b.metas| == |b.docs| && |b.ids| == |b.docs|
      && (forall k :: 0 <= k < |b.ids| ==> b.ids[k] == ChunkId(k))
      && (forall k, l :: 0 <= k < l < |b.ids| ==> b.ids[k] != b.ids[l])
  {
    var b := BuildChunks(items, size, overlap);
    BuildFromDocs(items, Chunker(size, overlap), Counter(), 0);
    BuildFromIds(items, Chunker(size, overlap), Counter(), 0);
    forall k, l | 0 <= k < l < |b.ids|
      ensures b.ids[k] != b.ids[l]
    {
      ChunkIdInjective(k, l);
    }
  }

  /** Position `Offset(i) + j` of `docs` holds chunk `j` of document `i`. */
  lemma BuildFromDocAt(items: seq<Document>, chunker: string -> seq<string>, count: string -> nat, i: nat, j: nat)
    requires i < |items| && j < |chunker(items[i].text)|
    ensures var b := BuildFrom(items, chunker, count, 0);
      var at := |Flatten(ChunkLists(items[..i], chunker))| + j;
      at < |b.docs| && b.docs[at] == chunker(items[i].text)[j]
  {
    BuildFromDocs(items, chunker, count, 0);
    FlattenIndex(ChunkLists(items, chunker), i, j);
    assert ChunkLists(items, chunker)[..i] == ChunkLists(items[..i], chunker);
  }

  /** Position `Offset(i) + j` of `metas` holds the stamped metadata of chunk `j` of document `i`. */
  lemma BuildFromMetaAt(items: seq<Document>, chunker: string -> seq<string>, count: string -> nat, i: nat, j: nat)
    requires i < |items| && j < |chunker(items[i].text)|
    ensures var b := BuildFrom(items, chunker, count, 0);
      var at := |Flatten(ChunkLists(items[..i], chunker))| + j;
      at < |b.metas| && b.metas[at] == Stamp(items[i].base, chunker(items[i].text)[j], count)
  {
    var css := ChunkLists(items[..i], chunker);
    var mss := MetaLists(items, chunker, count);
    BuildFromMetas(items, chunker, count, 0);
    FlattenIndex(mss, i, j);
    assert mss[..i] == MetaLists(items[..i], chunker, count);
    FlattenLengths(css, mss[..i]);
  }

  /**
   * A stamped record keeps every base key with its value, adds
   * `chunk_size` (or overwrites it), and changes nothing else.
   */
  lemma StampFields(base: Meta, n: nat)
    ensures var md := base[ChunkSizeKey := Number(n)];
      && md.Keys == base.Keys + {ChunkSizeKey}
      && (forall key :: key in base && key != ChunkSizeKey ==> md[key] == base[key])
      && md[ChunkSizeKey] == Number(n)
  {
  }

  lemma ChunkIdInjective(k: nat, l: nat)
    requires k != l
    ensures ChunkId(k) != ChunkId(l)
  {
    DecimalInjective(k, l);
    assert ChunkId(k)[|IdPrefix|..] == Decimal(k);
    assert ChunkId(l)[|IdPrefix|..] == Decimal(l);
  }

  /**
   * Chunk `j` of document `i` sits at position `Offset(i) + j` of `docs`
   * (and so gets the id `ccp_<Offset(i) + j>` by `BuildChunksLists`).
   */
  lemma BuildChunksPlace(items: seq<Document>, size: int, overlap: int, i: nat, j: nat)
    requires i < |items| && j < |WordChunks(items[i].text, size, overlap)|
    ensures var b := BuildChunks(items, size, overlap);
      var at := Offset(items, size, overlap, i) + j;
      at < |b.docs| && b.docs[at] == WordChunks(items[i].text, size, overlap)[j]
  {
    var chunker := Chunker(size, overlap);
    var b := BuildChunks(items, size, overlap);
    assert b == BuildFrom(items, chunker, Counter(), 0);
    assert chunker(items[i].text) == WordChunks(items[i].text, size, overlap);
    BuildFromDocAt(items, chunker, Counter(), i, j);
  }

  /**
   * The metadata at position `Offset(i) + j` is a copy of document `i`'s
   * base metadata with `chunk_size` set to the word count of chunk `j`
   * (what that update changes is spelled out by `StampFields`; the count
   * lies between 1 and `chunk_size` by `ChunkWordCount`).
   */
  lemma BuildChunksMeta(items: seq<Document>, size: int, overlap: int, i: nat, j: nat)
    requires i < |items| && j < |WordChunks(items[i].text, size, overlap)|
    ensures var b := BuildChunks(items, size, overlap);
      var chunk := WordChunks(items[i].text, size, overlap)[j];
      var at := Offset(items, size, overlap, i) + j;
      && at < |b.metas|
      && b.metas[at] == items[i].base[ChunkSizeKey := Number(|Split(chunk)|)]
  {
    var chunker := Chunker(size, overlap);
    var b := BuildChunks(items, size, overlap);
    assert b == BuildFrom(items, chunker, Counter(), 0);
    assert chunker(items[i].text) == WordChunks(items[i].text, size, overlap);
    BuildFromMetaAt(items, chunker, Counter(), i, j);
    var chunk := WordChunks(items[i].text, size, overlap)[j];
    assert Counter()(chunk) == |Split(chunk)|;
  }
}
