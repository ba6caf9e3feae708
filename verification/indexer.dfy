/**
 The ingestion side of the retrieval pipeline (`backend/rag/indexer.py`):
 splitting a text into overlapping word windows, deriving chunk ids from an
 MD5 digest, and assembling the aligned chunk / metadata / id lists that are
 handed to the vector store. The sentence-transformer model the class also
 loads is not used by these operations.
 */
module Indexer {
  import opened Wrappers
  import opened Text
  import opened Json

  const DefaultChunkSize: int := 500
  const DefaultOverlap: int := 50
  const DefaultPrefix: string := "doc"
  /** How many hex digits of the digest an id keeps. */
  const IdHexDigits: nat := 16

  predicate IsLowerHex(s: string) {
    forall i :: 0 <= i < |s| ==> ('0' <= s[i] <= '9') || ('a' <= s[i] <= 'f')
  }

  /** What `hashlib.md5(text.encode()).hexdigest()` returns: 32 lower-case hex digits. */
  type HexDigest = s: string | |s| == 32 && IsLowerHex(s)
    witness "00000000000000000000000000000000"

  // ---------------------------------------------------------------------------
  // chunk_text
  // ---------------------------------------------------------------------------

  /** The chunk whose window starts at word `start`: `' '.join(words[start:start + size])`. */
  function ChunkAt(words: seq<string>, start: nat, size: int): string {
    Join(PySlice(words, start, start + size), " ")
  }

  /**
    The loop of `chunk_text` from window start `i` on: one chunk per start
    `i, i + step, ...` below `|words|`, dropping empty chunks.
   */
  function ChunksFrom(words: seq<string>, size: int, step: nat, i: nat): (chunks: seq<string>)
    requires step > 0
    decreases |words| - i
  {
    if i >= |words| then []
    else
      var chunk := ChunkAt(words, i, size);
      (if chunk != "" then [chunk] else []) + ChunksFrom(words, size, step, i + step)
  }

  /**
    `chunk_text(text, chunk_size, overlap)`. A zero step makes `range` raise
    `ValueError`; a negative step makes the range empty.
   */
  function ChunkText(text: string, chunkSize: int, overlap: int): (r: Result<seq<string>, PyError>)
    ensures r.Failure? <==> chunkSize == overlap
  {
    var words := Words(text);
    var step := chunkSize - overlap;
    if step == 0 then Failure(ValueError("range() arg 3 must not be zero"))
    else if step < 0 then Success([])
    else Success(ChunksFrom(words, chunkSize, step, 0))
  }

  // Reference description of the windows ---------------------------------------

  /** Where window `j` starts: `j * step` (see `StartIsProduct`). */
  function Start(j: nat, step: nat): nat {
    if j == 0 then 0 else step + Start(j - 1, step)
  }

  /** How many of the starts `0, step, 2 * step, ...` lie below `n` (see `NumWindowsIsCeiling`). */
  function NumWindows(n: nat, step: nat): nat
    requires step > 0
    decreases n
  {
    if n == 0 then 0 else if n <= step then 1 else 1 + NumWindows(n - step, step)
  }

  /** The words of the window starting at `start`, cut short by the end of the text. */
  function Window(words: seq<string>, start: nat, size: nat): seq<string>
    requires start <= |words|
  {
    words[start..Min(start + size, |words|)]
  }

  lemma {:induction false} StartIsProduct(j: nat, step: nat)
    ensures Start(j, step) == j * step
  {
    if j > 0 {
      StartIsProduct(j - 1, step);
      assert j * step == (j - 1) * step + step;
    }
  }

  lemma DivUnique(x: nat, step: nat, q: nat, r: nat)
    requires step > 0 && x == q * step + r && r < step
    ensures x / step == q
  {
    var q', r' := x / step, x % step;
    assert x == q' * step + r';
    if q' < q {
      assert q' * step + step <= q * step by { MulMonotone(q' + 1, q, step); }
    } else if q < q' {
      assert q * step + step <= q' * step by { MulMonotone(q + 1, q', step); }
    }
  }

  lemma MulMonotone(a: nat, b: nat, c: nat)
    requires a <= b
    ensures a * c <= b * c
  {
  }

  lemma DivPlusDivisor(m: nat, step: nat)
    requires step > 0
    ensures (m + step) / step == m / step + 1
  {
    var q, r := m / step, m % step;
    assert m == q * step + r;
    assert (q + 1) * step == q * step + step;
    DivUnique(m + step, step, q + 1, r);
  }

  /** The number of windows over `n` words is the ceiling of `n / step`. */
  lemma {:induction false} NumWindowsIsCeiling(n: nat, step: nat)
    requires step > 0
    ensures NumWindows(n, step) == (n + step - 1) / step
    decreases n
  {
    if n > step {
      NumWindowsIsCeiling(n - step, step);
      assert n - step + step - 1 == n - 1;
      DivPlusDivisor(n - 1, step);
    } else if n > 0 {
      DivUnique(n + step - 1, step, 1, n - 1);
    } else {
      DivUnique(step - 1, step, 0, step - 1);
    }
  }

  /** Window `j` exists exactly when its start is a word index. */
  lemma {:induction false} WindowExists(n: nat, step: nat, j: nat)
    requires step > 0
    ensures j < NumWindows(n, step) <==> Start(j, step) < n
    decreases n
  {
    if j > 0 {
      if n > step {
        WindowExists(n - step, step, j - 1);
      } else {
        assert Start(j, step) >= step;
      }
    }
  }

  /** Every word index `k` lies in the first `step` positions of window `k / step`. */
  lemma {:induction false} WindowOf(k: nat, step: nat) returns (j: nat)
    requires step > 0
    ensures Start(j, step) <= k < Start(j, step) + step
    decreases k
  {
    if k < step {
      j := 0;
    } else {
      var j' := WindowOf(k - step, step);
      j := j' + 1;
    }
  }

  /** `c` is window `m` of `words`: the words from `Start(m, step)` on, at most `size` of them, joined. */
  ghost predicate IsWindow(c: string, words: seq<string>, size: nat, step: nat, m: nat) {
    Start(m, step) < |words| && c == Join(Window(words, Start(m, step), size), " ")
  }

  /** `chunks` are the windows of `words` from window `j` on, and there are no more after them. */
  ghost predicate WindowsFrom(chunks: seq<string>, words: seq<string>, size: nat, step: nat, j: nat)
    requires step > 0
    decreases |chunks|
  {
    if |chunks| == 0 then NumWindows(|words|, step) <= j
    else
      && j < NumWindows(|words|, step)
      && IsWindow(chunks[0], words, size, step, j)
      && WindowsFrom(chunks[1..], words, size, step, j + 1)
  }

  /** Element `k` of the windows from `j` on is window `j + k`. */
  lemma {:induction false} WindowsFromAt(chunks: seq<string>, words: seq<string>, size: nat, step: nat, j: nat, k: nat)
    requires step > 0 && WindowsFrom(chunks, words, size, step, j) && k < |chunks|
    ensures IsWindow(chunks[k], words, size, step, j + k)
    decreases k
  {
    if k > 0 {
      WindowsFromAt(chunks[1..], words, size, step, j + 1, k - 1);
      assert chunks[1..][k - 1] == chunks[k] && j + 1 + (k - 1) == j + k;
    }
  }

  /** The windows from `j` on number all windows less the first `j`. */
  lemma {:induction false} WindowsFromLength(chunks: seq<string>, words: seq<string>, size: nat, step: nat, j: nat)
    requires step > 0 && WindowsFrom(chunks, words, size, step, j)
    ensures |chunks| == (if j < NumWindows(|words|, step) then NumWindows(|words|, step) - j else 0)
    decreases |chunks|
  {
    if |chunks| > 0 {
      WindowsFromLength(chunks[1..], words, size, step, j + 1);
    }
  }

  /** The chunk at a start below the end is the window there, joined, and it is not empty when its first word is not. */
  lemma ChunkAtWindow(words: seq<string>, s: nat, size: nat)
    requires size > 0 && s < |words| && words[s] != ""
    ensures ChunkAt(words, s, size) == Join(Window(words, s, size), " ")
    ensures ChunkAt(words, s, size) != ""
  {
    var w := Window(words, s, size);
    assert PySlice(words, s, s + size) == w;
    assert w[0] == words[s];
  }

  /** From a start below the end, the loop emits that start's window and continues at the next start. */
  lemma ChunksFromStep(words: seq<string>, size: nat, step: nat, j: nat)
    requires size > 0 && step > 0 && Start(j, step) < |words| && words[Start(j, step)] != ""
    ensures ChunksFrom(words, size, step, Start(j, step))
         == [Join(Window(words, Start(j, step), size), " ")] + ChunksFrom(words, size, step, Start(j + 1, step))
  {
    var s := Start(j, step);
    assert Start(j + 1, step) == s + step;
    ChunkAtWindow(words, s, size);
    assert ChunksFrom(words, size, step, s) == [ChunkAt(words, s, size)] + ChunksFrom(words, size, step, s + step);
  }

  /** Window `j` followed by the windows from `j + 1` on are the windows from `j` on. */
  lemma WindowsFromCons(c: string, rest: seq<string>, words: seq<string>, size: nat, step: nat, j: nat)
    requires step > 0 && j < NumWindows(|words|, step) && IsWindow(c, words, size, step, j)
    requires WindowsFrom(rest, words, size, step, j + 1)
    ensures WindowsFrom([c] + rest, words, size, step, j)
  {
    assert ([c] + rest)[0] == c && ([c] + rest)[1..] == rest;
  }

  lemma {:induction false} ChunksFromWindows(words: seq<string>, size: nat, step: nat, j: nat)
    requires size > 0 && step > 0
    requires forall i :: 0 <= i < |words| ==> words[i] != ""
    ensures WindowsFrom(ChunksFrom(words, size, step, Start(j, step)), words, size, step, j)
    decreases |words| - Start(j, step)
  {
    var s0 := Start(j, step);
    WindowExists(|words|, step, j);
    if s0 < |words| {
      assert Start(j + 1, step) == s0 + step;
      ChunksFromStep(words, size, step, j);
      ChunksFromWindows(words, size, step, j + 1);
      var c := Join(Window(words, s0, size), " ");
      assert IsWindow(c, words, size, step, j);
      WindowsFromCons(c, ChunksFrom(words, size, step, Start(j + 1, step)), words, size, step, j);
    }
  }

  /** `chunks` are all the windows of `words`. */
  ghost predicate AreWindows(chunks: seq<string>, words: seq<string>, size: nat, step: nat)
    requires step > 0
  {
    && |chunks| == NumWindows(|words|, step)
    && forall j :: 0 <= j < |chunks| ==> IsWindow(chunks[j], words, size, step, j)
  }

  /** The loop from word 0 yields all the windows, for any list of non-empty words. */
  lemma ChunksFromAreWindows(words: seq<string>, size: nat, step: nat)
    requires size > 0 && step > 0
    requires forall i :: 0 <= i < |words| ==> words[i] != ""
    ensures AreWindows(ChunksFrom(words, size, step, 0), words, size, step)
  {
    var cs := ChunksFrom(words, size, step, 0);
    assert Start(0, step) == 0;
    ChunksFromWindows(words, size, step, 0);
    WindowsFromLength(cs, words, size, step, 0);
    forall j | 0 <= j < |cs| ensures IsWindow(cs[j], words, size, step, j) {
      WindowsFromAt(cs, words, size, step, 0, j);
      assert 0 + j == j;
    }
  }

  /**
    The chunks are exactly the windows: chunk `j` is the words from
    `j * step` on, at most `chunkSize` of them, joined by single spaces, and
    there are ceil(n / step) chunks for n words.
   */
  lemma ChunkTextWindows(text: string, chunkSize: int, overlap: int)
    requires 0 < chunkSize && overlap < chunkSize
    ensures ChunkText(text, chunkSize, overlap).Success?
    ensures AreWindows(ChunkText(text, chunkSize, overlap).value, Words(text), chunkSize, chunkSize - overlap)
  {
    var words, step := Words(text), chunkSize - overlap;
    assert ChunkText(text, chunkSize, overlap) == Success(ChunksFrom(words, chunkSize, step, 0));
    ChunksFromAreWindows(words, chunkSize, step);
  }

  /**
    Splitting chunk `j` again gives back its window: between one and
    `chunkSize` words of the text, starting at word `Start(j, step)`.
   */
  lemma ChunkWords(text: string, chunkSize: int, overlap: int, j: nat)
    requires 0 < chunkSize && overlap < chunkSize
    requires j < |ChunkText(text, chunkSize, overlap).value|
    ensures Start(j, chunkSize - overlap) < |Words(text)|
    ensures Words(ChunkText(text, chunkSize, overlap).value[j])
         == Window(Words(text), Start(j, chunkSize - overlap), chunkSize)
    ensures 1 <= |Words(ChunkText(text, chunkSize, overlap).value[j])| <= chunkSize
  {
    var words, step := Words(text), chunkSize - overlap;
    var chunks := ChunkText(text, chunkSize, overlap).value;
    ChunkTextWindows(text, chunkSize, overlap);
    assert chunks[j] == chunks[j];
    WordsOfJoin(Window(words, Start(j, step), chunkSize));
  }

  /** There are ceil(n / step) chunks for n words. */
  lemma ChunkCount(text: string, chunkSize: int, overlap: int)
    requires 0 < chunkSize && overlap < chunkSize
    ensures |ChunkText(text, chunkSize, overlap).value| == NumWindows(|Words(text)|, chunkSize - overlap)
  {
    ChunkTextWindows(text, chunkSize, overlap);
  }

  /**
    Coverage: with `0 <= overlap < chunkSize` every word of the text occurs in
    some chunk, at the position its index predicts.
   */
  lemma ChunksCoverText(text: string, chunkSize: int, overlap: int, k: nat)
    requires 0 <= overlap < chunkSize
    requires k < |Words(text)|
    ensures var step, chunks := chunkSize - overlap, ChunkText(text, chunkSize, overlap).value;
      exists j :: 0 <= j < |chunks| && Start(j, step) <= k < Start(j, step) + |Words(chunks[j])|
        && Words(chunks[j])[k - Start(j, step)] == Words(text)[k]
  {
    var step := chunkSize - overlap;
    var j := WindowCovering(Words(text), chunkSize, step, k);
    ChunkCount(text, chunkSize, overlap);
    ChunkWords(text, chunkSize, overlap, j);
  }

  /** Word `k` is in the window `k / step`, at offset `k - Start(k / step, step)`. */
  lemma WindowCovering(words: seq<string>, size: nat, step: nat, k: nat) returns (j: nat)
    requires 0 < step <= size && k < |words|
    ensures j < NumWindows(|words|, step)
    ensures Start(j, step) <= k < Start(j, step) + |Window(words, Start(j, step), size)|
    ensures Window(words, Start(j, step), size)[k - Start(j, step)] == words[k]
  {
    j := WindowOf(k, step);
    WindowExists(|words|, step, j);
  }

  /**
    A full window and the next one share `size - step` words: the tail of
    the first from offset `step` is the head of the second.
   */
  lemma WindowsOverlap(words: seq<string>, size: nat, step: nat, j: nat)
    requires 0 < step <= size
    requires Start(j, step) + size <= |words| && Start(j + 1, step) < |words|
    ensures size - step <= |Window(words, Start(j + 1, step), size)|
    ensures Window(words, Start(j, step), size)[step..] == Window(words, Start(j + 1, step), size)[..size - step]
  {
    var s0, s1 := Start(j, step), Start(j + 1, step);
    assert s1 == s0 + step;
    assert Window(words, s0, size)[step..] == words[s1..s0 + size];
    assert Window(words, s1, size)[..size - step] == words[s1..s0 + size];
  }

  /**
    Overlap: when chunk `j` is full and has a successor, its last `overlap`
    words are the first `overlap` words of chunk `j + 1`.
   */
  lemma ChunksOverlap(text: string, chunkSize: int, overlap: int, j: nat)
    requires 0 <= overlap < chunkSize
    requires j + 1 < |ChunkText(text, chunkSize, overlap).value|
    requires |Words(ChunkText(text, chunkSize, overlap).value[j])| == chunkSize
    ensures var chunks := ChunkText(text, chunkSize, overlap).value;
      && overlap <= |Words(chunks[j + 1])|
      && Words(chunks[j])[chunkSize - overlap..] == Words(chunks[j + 1])[..overlap]
  {
    var words, step := Words(text), chunkSize - overlap;
    ChunkWords(text, chunkSize, overlap, j);
    ChunkWords(text, chunkSize, overlap, j + 1);
    WindowsOverlap(words, chunkSize, step, j);
  }

  /** The `if chunk:` test means no chunk is ever the empty string, whatever the parameters. */
  lemma ChunksNonEmpty(text: string, chunkSize: int, overlap: int)
    requires chunkSize != overlap
    ensures forall k :: 0 <= k < |ChunkText(text, chunkSize, overlap).value| ==>
              ChunkText(text, chunkSize, overlap).value[k] != ""
  {
    if chunkSize > overlap {
      ChunksFromNonEmpty(Words(text), chunkSize, chunkSize - overlap, 0);
    }
  }

  lemma {:induction false} ChunksFromNonEmpty(words: seq<string>, size: int, step: nat, i: nat)
    requires step > 0
    ensures forall k :: 0 <= k < |ChunksFrom(words, size, step, i)| ==> ChunksFrom(words, size, step, i)[k] != ""
    decreases |words| - i
  {
    if i < |words| {
      ChunksFromNonEmpty(words, size, step, i + step);
    }
  }

  /** Empty or whitespace-only text has no chunks (unless the step is zero and `range` raises). */
  lemma BlankTextHasNoChunks(text: string, chunkSize: int, overlap: int)
    requires AllSpace(text) && chunkSize != overlap
    ensures ChunkText(text, chunkSize, overlap) == Success([])
  {
    WordsEmptyIffAllSpace(text);
  }

  /**
    A text longer than one step but no longer than one window still yields
    more than one chunk: the trailing windows are not suppressed.
   */
  lemma ShortTextSeveralChunks(text: string, chunkSize: int, overlap: int)
    requires 0 < overlap < chunkSize
    requires chunkSize - overlap < |Words(text)| <= chunkSize
    ensures |ChunkText(text, chunkSize, overlap).value| >= 2
  {
    ChunkTextWindows(text, chunkSize, overlap);
    WindowExists(|Words(text)|, chunkSize - overlap, 1);
  }

  // ---------------------------------------------------------------------------
  // generate_id
  // ---------------------------------------------------------------------------

  /** `generate_id(text, prefix)`: the prefix, an underscore and the first 16 hex digits of the digest. */
  function GenerateId(text: string, prefix: string, md5Hex: string -> HexDigest): (id: string)
    ensures |id| == |prefix| + 1 + IdHexDigits
    ensures id[..|prefix|] == prefix && id[|prefix|] == '_'
    ensures IsLowerHex(id[|prefix| + 1..])
  {
    prefix + "_" + md5Hex(text)[..IdHexDigits]
  }

  /** The prefix can be read back off an id: it is everything but the last 17 characters. */
  lemma IdPrefixRecoverable(text: string, prefix: string, md5Hex: string -> HexDigest)
    ensures var id := GenerateId(text, prefix, md5Hex);
      id[..|id| - (1 + IdHexDigits)] == prefix
  {
  }

  /** Two ids with one prefix coincide exactly when the digests agree on their first 16 hex digits. */
  lemma IdsCollideIffDigestPrefixesAgree(t1: string, t2: string, prefix: string, md5Hex: string -> HexDigest)
    ensures GenerateId(t1, prefix, md5Hex) == GenerateId(t2, prefix, md5Hex)
        <==> md5Hex(t1)[..IdHexDigits] == md5Hex(t2)[..IdHexDigits]
  {
    var id1, id2 := GenerateId(t1, prefix, md5Hex), GenerateId(t2, prefix, md5Hex);
    if id1 == id2 {
      assert id1[|prefix| + 1..] == md5Hex(t1)[..IdHexDigits];
      assert id2[|prefix| + 1..] == md5Hex(t2)[..IdHexDigits];
    }
  }

  // ---------------------------------------------------------------------------
  // prepare_documents
  // ---------------------------------------------------------------------------

  /** The three index-aligned lists `prepare_documents` returns. */
  datatype Prepared = Prepared(chunks: seq<string>, metadatas: seq<Dict>, ids: seq<string>)

  /** `chunk_text(text)` with the default window of 500 words overlapping by 50. */
  function DefaultChunks(text: string): seq<string> {
    ChunkText(text, DefaultChunkSize, DefaultOverlap).value
  }

  /** `url or ""`. */
  function UrlOrEmpty(url: Option<string>): string {
    url.GetOr("")
  }

  /** `f"{url}"`: Python renders a missing url as `None`. */
  function FormatUrl(url: Option<string>): string {
    match url
    case Some(u) => u
    case None => "None"
  }

  /** The digest input of chunk `i` of the text at `url`: `f"{url}_{i}"`. */
  function ChunkKey(url: Option<string>, i: nat): string {
    FormatUrl(url) + "_" + NatToString(i)
  }

  /** The metadata record of chunk `i` out of `total`. */
  function ChunkMetadata(title: string, url: Option<string>, sourceId: int, sourceType: string, i: nat, total: nat): (m: Dict)
    ensures m.Keys == {"title", "url", "source_id", "source_type", "chunk_index", "total_chunks"}
    ensures m["title"] == JStr(title) && m["url"] == JStr(UrlOrEmpty(url))
    ensures m["source_id"] == JNum(sourceId) && m["source_type"] == JStr(sourceType)
    ensures m["chunk_index"] == JNum(i) && m["total_chunks"] == JNum(total)
  {
    map[
      "title" := JStr(title),
      "url" := JStr(UrlOrEmpty(url)),
      "source_id" := JNum(sourceId),
      "source_type" := JStr(sourceType),
      "chunk_index" := JNum(i),
      "total_chunks" := JNum(total)
    ]
  }

  /** The metadata records of the `n` chunks of one text. */
  function TextMetadatas(title: string, url: Option<string>, sourceId: int, sourceType: string, n: nat): (ms: seq<Dict>)
    ensures |ms| == n
  {
    seq(n, i requires 0 <= i < n => ChunkMetadata(title, url, sourceId, sourceType, i, n))
  }

  /** The ids of the `n` chunks of the text at `url`. */
  function TextIds(url: Option<string>, n: nat, md5Hex: string -> HexDigest): (ids: seq<string>)
    ensures |ids| == n
  {
    seq(n, i requires 0 <= i < n => GenerateId(ChunkKey(url, i), DefaultPrefix, md5Hex))
  }

  /** How many of `texts` the `zip` with titles and urls walks through. */
  function ZipLength(texts: seq<string>, titles: seq<string>, urls: seq<Option<string>>): nat {
    Min(|texts|, Min(|titles|, |urls|))
  }

  /** Number of chunks the first `t` texts produce under `chunker`. */
  function ChunkOffset(chunker: string -> seq<string>, texts: seq<string>, t: nat): nat
    requires t <= |texts|
  {
    if t == 0 then 0 else |chunker(texts[0])| + ChunkOffset(chunker, texts[1..], t - 1)
  }

  /*
    The loop of `prepare_documents` appends to three lists at once. Each list
    is the concatenation, over the zipped texts, titles and urls, of the piece
    one text contributes to it; the three pieces are given below.
  */

  /** What one text, with its title and url, adds to one of the lists. */
  type Piece<T> = (string, string, Option<string>) -> seq<T>

  /** The list the pieces of the zipped texts, titles and urls add up to. */
  function ZipConcat<T>(texts: seq<string>, titles: seq<string>, urls: seq<Option<string>>,
                        piece: Piece<T>): (all: seq<T>)
    ensures ZipLength(texts, titles, urls) == 0 ==> all == []
    decreases |texts|
  {
    if |texts| == 0 || |titles| == 0 || |urls| == 0 then []
    else piece(texts[0], titles[0], urls[0]) + ZipConcat(texts[1..], titles[1..], urls[1..], piece)
  }

  /** A piece with one entry per chunk `chunker` cuts the text into. */
  ghost predicate PerChunk<T>(piece: Piece<T>, chunker: string -> seq<string>) {
    forall x, title, url :: |piece(x, title, url)| == |chunker(x)|
  }

  /** A list of per-chunk pieces is as long as all the chunks together. */
  lemma {:induction false} ZipConcatLength<T>(chunker: string -> seq<string>, texts: seq<string>, titles: seq<string>,
      urls: seq<Option<string>>, piece: Piece<T>)
    requires PerChunk(piece, chunker)
    ensures |ZipConcat(texts, titles, urls, piece)| == ChunkOffset(chunker, texts, ZipLength(texts, titles, urls))
    decreases |texts|
  {
    if |texts| > 0 && |titles| > 0 && |urls| > 0 {
      ZipConcatLength(chunker, texts[1..], titles[1..], urls[1..], piece);
      assert ZipLength(texts[1..], titles[1..], urls[1..]) + 1 == ZipLength(texts, titles, urls);
      assert |piece(texts[0], titles[0], urls[0])| == |chunker(texts[0])|;
    }
  }

  /** Entry `i` of the piece of text `t` sits at position `ChunkOffset(chunker, texts, t) + i` of the list. */
  lemma {:induction false} ZipConcatAt<T>(chunker: string -> seq<string>, texts: seq<string>, titles: seq<string>,
      urls: seq<Option<string>>, piece: Piece<T>, t: nat, i: nat)
    requires PerChunk(piece, chunker)
    requires t < ZipLength(texts, titles, urls)
    requires i < |chunker(texts[t])|
    ensures ChunkOffset(chunker, texts, t) + i < |ZipConcat(texts, titles, urls, piece)|
    ensures ZipConcat(texts, titles, urls, piece)[ChunkOffset(chunker, texts, t) + i]
         == piece(texts[t], titles[t], urls[t])[i]
    decreases t
  {
    var one := piece(texts[0], titles[0], urls[0]);
    var rest := ZipConcat(texts[1..], titles[1..], urls[1..], piece);
    var all := ZipConcat(texts, titles, urls, piece);
    assert all == one + rest;
    assert |one| == |chunker(texts[0])|;
    if t == 0 {
      assert all[i] == one[i];
    } else {
      ZipConcatAt(chunker, texts[1..], titles[1..], urls[1..], piece, t - 1, i);
      assert texts[1..][t - 1] == texts[t] && titles[1..][t - 1] == titles[t] && urls[1..][t - 1] == urls[t];
      var k' := ChunkOffset(chunker, texts[1..], t - 1) + i;
      assert ChunkOffset(chunker, texts, t) + i == |one| + k';
      assert all[|one| + k'] == rest[k'];
    }
  }

  /** A property every entry of every piece has, every entry of the list has. */
  lemma {:induction false} ZipConcatEvery<T>(texts: seq<string>, titles: seq<string>, urls: seq<Option<string>>,
      piece: Piece<T>, p: T -> bool)
    requires forall x, title, url, k :: 0 <= k < |piece(x, title, url)| ==> p(piece(x, title, url)[k])
    ensures forall k :: 0 <= k < |ZipConcat(texts, titles, urls, piece)| ==> p(ZipConcat(texts, titles, urls, piece)[k])
    decreases |texts|
  {
    if |texts| > 0 && |titles| > 0 && |urls| > 0 {
      ZipConcatEvery(texts[1..], titles[1..], urls[1..], piece, p);
      var one := piece(texts[0], titles[0], urls[0]);
      var rest := ZipConcat(texts[1..], titles[1..], urls[1..], piece);
      var all := one + rest;
      forall k | 0 <= k < |all| ensures p(all[k]) {
        if k < |one| {
          assert all[k] == one[k];
        } else {
          assert all[k] == rest[k - |one|];
        }
      }
    }
  }

  /** The chunks of a text, for `all_chunks`. */
  function ChunkPiece(chunker: string -> seq<string>): (piece: Piece<string>)
    ensures PerChunk(piece, chunker)
  {
    (x: string, title: string, url: Option<string>) => chunker(x)
  }

  /** The metadata records of a text's chunks, for `all_metadatas`. */
  function MetadataPiece(chunker: string -> seq<string>, sourceId: int, sourceType: string): (piece: Piece<Dict>)
    ensures PerChunk(piece, chunker)
  {
    (x: string, title: string, url: Option<string>) => TextMetadatas(title, url, sourceId, sourceType, |chunker(x)|)
  }

  /** The ids of a text's chunks, for `all_ids`. */
  function IdPiece(chunker: string -> seq<string>, md5Hex: string -> HexDigest): (piece: Piece<string>)
    ensures PerChunk(piece, chunker)
  {
    (x: string, title: string, url: Option<string>) => TextIds(url, |chunker(x)|, md5Hex)
  }

  /** A metadata record carrying the given `source_id` and `source_type`. */
  predicate CarriesSource(m: Dict, sourceId: int, sourceType: string) {
    && "source_id" in m && m["source_id"] == JNum(sourceId)
    && "source_type" in m && m["source_type"] == JStr(sourceType)
  }

  /** Every record of a metadata piece carries the call's `source_id` and `source_type`. */
  lemma MetadataPieceCarriesSource(chunker: string -> seq<string>, sourceId: int, sourceType: string)
    ensures forall x, title, url, k :: 0 <= k < |MetadataPiece(chunker, sourceId, sourceType)(x, title, url)| ==>
      CarriesSource(MetadataPiece(chunker, sourceId, sourceType)(x, title, url)[k], sourceId, sourceType)
  {
  }

  /** `prepare_documents` for any way `chunker` of cutting a text into chunks. */
  function PrepareAll(chunker: string -> seq<string>, texts: seq<string>, titles: seq<string>,
                      urls: seq<Option<string>>, sourceId: int, sourceType: string,
                      md5Hex: string -> HexDigest): (r: Prepared)
    ensures |r.chunks| == |r.metadatas| == |r.ids|
    ensures |r.chunks| == ChunkOffset(chunker, texts, ZipLength(texts, titles, urls))
    ensures forall k :: 0 <= k < |r.metadatas| ==> CarriesSource(r.metadatas[k], sourceId, sourceType)
  {
    var metadata := MetadataPiece(chunker, sourceId, sourceType);
    ZipConcatLength(chunker, texts, titles, urls, ChunkPiece(chunker));
    ZipConcatLength(chunker, texts, titles, urls, metadata);
    ZipConcatLength(chunker, texts, titles, urls, IdPiece(chunker, md5Hex));
    MetadataPieceCarriesSource(chunker, sourceId, sourceType);
    ZipConcatEvery(texts, titles, urls, metadata, m => CarriesSource(m, sourceId, sourceType));
    Prepared(
      ZipConcat(texts, titles, urls, ChunkPiece(chunker)),
      ZipConcat(texts, titles, urls, metadata),
      ZipConcat(texts, titles, urls, IdPiece(chunker, md5Hex)))
  }

  /** `prepare_documents(texts, titles, urls, source_id, source_type)`, chunking with the defaults. */
  function PrepareDocuments(texts: seq<string>, titles: seq<string>, urls: seq<Option<string>>,
                            sourceId: int, sourceType: string, md5Hex: string -> HexDigest): (r: Prepared)
    ensures |r.chunks| == |r.metadatas| == |r.ids|
    ensures |r.chunks| == ChunkOffset(DefaultChunks, texts, ZipLength(texts, titles, urls))
    ensures forall k :: 0 <= k < |r.metadatas| ==> CarriesSource(r.metadatas[k], sourceId, sourceType)
  {
    PrepareAll(DefaultChunks, texts, titles, urls, sourceId, sourceType, md5Hex)
  }

  /**
    Where chunk `i` of text `t` lands: at position `ChunkOffset(chunker, texts, t) + i`
    of all three lists, with its own metadata and an id derived from the url
    and `i` only.
   */
  lemma PrepareAllLayout(chunker: string -> seq<string>, texts: seq<string>, titles: seq<string>,
                         urls: seq<Option<string>>, sourceId: int, sourceType: string,
                         md5Hex: string -> HexDigest, t: nat, i: nat)
    requires t < ZipLength(texts, titles, urls)
    requires i < |chunker(texts[t])|
    ensures ChunkOffset(chunker, texts, t) + i < |PrepareAll(chunker, texts, titles, urls, sourceId, sourceType, md5Hex).chunks|
    ensures PrepareAll(chunker, texts, titles, urls, sourceId, sourceType, md5Hex).chunks[ChunkOffset(chunker, texts, t) + i]
         == chunker(texts[t])[i]
    ensures PrepareAll(chunker, texts, titles, urls, sourceId, sourceType, md5Hex).metadatas[ChunkOffset(chunker, texts, t) + i]
         == ChunkMetadata(titles[t], urls[t], sourceId, sourceType, i, |chunker(texts[t])|)
    ensures PrepareAll(chunker, texts, titles, urls, sourceId, sourceType, md5Hex).ids[ChunkOffset(chunker, texts, t) + i]
         == GenerateId(ChunkKey(urls[t], i), DefaultPrefix, md5Hex)
  {
    ZipConcatAt(chunker, texts, titles, urls, ChunkPiece(chunker), t, i);
    ZipConcatAt(chunker, texts, titles, urls, MetadataPiece(chunker, sourceId, sourceType), t, i);
    ZipConcatAt(chunker, texts, titles, urls, IdPiece(chunker, md5Hex), t, i);
  }

  /** `PrepareAllLayout` for the default chunking of `prepare_documents`. */
  lemma PrepareDocumentsLayout(texts: seq<string>, titles: seq<string>, urls: seq<Option<string>>,
                               sourceId: int, sourceType: string, md5Hex: string -> HexDigest, t: nat, i: nat)
    requires t < ZipLength(texts, titles, urls)
    requires i < |DefaultChunks(texts[t])|
    ensures var r := PrepareDocuments(texts, titles, urls, sourceId, sourceType, md5Hex);
      var k := ChunkOffset(DefaultChunks, texts, t) + i;
      && k < |r.chunks|
      && r.chunks[k] == DefaultChunks(texts[t])[i]
      && r.metadatas[k] == ChunkMetadata(titles[t], urls[t], sourceId, sourceType, i, |DefaultChunks(texts[t])|)
      && r.ids[k] == GenerateId(ChunkKey(urls[t], i), DefaultPrefix, md5Hex)
  {
    PrepareAllLayout(DefaultChunks, texts, titles, urls, sourceId, sourceType, md5Hex, t, i);
  }

  /** Chunk keys of one url never repeat: distinct chunk positions feed distinct strings to the digest. */
  lemma ChunkKeysDistinct(url: Option<string>, i: nat, j: nat)
    requires ChunkKey(url, i) == ChunkKey(url, j)
    ensures i == j
  {
    var p := |FormatUrl(url)| + 1;
    assert ChunkKey(url, i)[p..] == NatToString(i);
    assert ChunkKey(url, j)[p..] == NatToString(j);
    NatToStringInjective(i, j);
  }

  /**
    Ids do not depend on the chunk text: texts that chunk into equally many
    pieces, under the same urls, receive the same ids.
   */
  lemma {:induction false} IdsIgnoreChunkText(texts1: seq<string>, texts2: seq<string>, titles: seq<string>,
                                              urls: seq<Option<string>>, sourceId: int, sourceType: string,
                                              md5Hex: string -> HexDigest)
    requires |texts1| == |texts2|
    requires forall t :: 0 <= t < |texts1| ==> |DefaultChunks(texts1[t])| == |DefaultChunks(texts2[t])|
    ensures PrepareDocuments(texts1, titles, urls, sourceId, sourceType, md5Hex).ids
         == PrepareDocuments(texts2, titles, urls, sourceId, sourceType, md5Hex).ids
    decreases |texts1|
  {
    IdsIgnoreChunks(DefaultChunks, texts1, texts2, titles, urls, md5Hex);
  }

  lemma {:induction false} IdsIgnoreChunks(chunker: string -> seq<string>, texts1: seq<string>, texts2: seq<string>,
                                           titles: seq<string>, urls: seq<Option<string>>, md5Hex: string -> HexDigest)
    requires |texts1| == |texts2|
    requires forall t :: 0 <= t < |texts1| ==> |chunker(texts1[t])| == |chunker(texts2[t])|
    ensures ZipConcat(texts1, titles, urls, IdPiece(chunker, md5Hex)) == ZipConcat(texts2, titles, urls, IdPiece(chunker, md5Hex))
    decreases |texts1|
  {
    if |texts1| > 0 && |titles| > 0 && |urls| > 0 {
      IdsIgnoreChunks(chunker, texts1[1..], texts2[1..], titles[1..], urls[1..], md5Hex);
      assert |chunker(texts1[0])| == |chunker(texts2[0])|;
    }
  }
}
