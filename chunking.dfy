/** The sliding-window text splitter of the ingestion pipeline: windows of
    `size` characters that start `size - overlap` characters apart, the last one
    cut short by the end of the text. */
module Chunking {

  const ChunkSize: nat := 800
  const ChunkOverlap: int := 100

  function Min(a: int, b: int): int {
    if a <= b then a else b
  }

  /** Python's `text[lo:hi]` for `0 <= lo`: both bounds are clamped to the text. */
  function Slice(text: string, lo: nat, hi: int): (r: string)
    ensures |r| <= |text|
    ensures lo <= hi ==> |r| <= hi - lo
    ensures lo <= |text| && lo <= hi ==> r == text[lo..Min(hi, |text|)]
  {
    var a := Min(lo, |text|);
    var b := Min(hi, |text|);
    if a <= b then text[a..b] else ""
  }

  /** The number of windows needed for `n` characters: `n / step` rounded up. */
  function ChunkCount(n: nat, step: nat): nat
    requires step > 0
  {
    (n + step - 1) / step
  }

  /** The windows `chunk_text` produces, by index: window `i` is
      `text[i * step : i * step + size]`. The empty text has none whatever the
      arguments; any other text needs a positive step for the walk to end. */
  function Chunks(text: string, size: nat, overlap: int): (r: seq<string>)
    requires text == [] || size > overlap
    ensures r == [] <==> text == []
  {
    if text == [] then []
    else
      var step := size - overlap;
      assert ChunkCount(|text|, step) >= 1 by {
        assert |text| + step - 1 >= step;
      }
      seq(ChunkCount(|text|, step), i requires 0 <= i => Slice(text, i * step, i * step + size))
  }

  lemma MulMonotone(a: nat, b: nat, c: nat)
    requires a <= b
    ensures a * c <= b * c
  {
  }

  /** `k` windows started `step` apart, the last starting inside a text of length
      `n`, the next one past its end: `k` is `n / step` rounded up. */
  lemma CountOfWindows(n: nat, step: nat, k: nat)
    requires step > 0
    requires k * step >= n
    requires k == 0 || (k - 1) * step < n
    ensures k == ChunkCount(n, step)
  {
    var q := ChunkCount(n, step);
    var rem := (n + step - 1) % step;
    assert n + step - 1 == q * step + rem && 0 <= rem < step;
    if q < k {
      MulMonotone(q, k - 1, step);
    } else if q > k {
      MulMonotone(k + 1, q, step);
    }
  }

  /** `chunk_text`: walks `start` through the text in steps of `size - overlap`,
      appending the window at each start. A non-empty text needs `size > overlap`,
      otherwise the walk never ends. */
  method ChunkText(text: string, size: nat, overlap: int) returns (chunks: seq<string>)
    requires text == [] || size > overlap
    ensures chunks == Chunks(text, size, overlap)
  {
    var step := size - overlap;
    chunks := [];
    var start := 0;
    while start < |text|
      invariant text != [] ==> step > 0
      invariant start == |chunks| * step
      invariant |chunks| == 0 || (|chunks| - 1) * step < |text|
      invariant forall i :: 0 <= i < |chunks| ==> chunks[i] == Slice(text, i * step, i * step + size)
      decreases |text| - start
    {
      var end := start + size;
      chunks := chunks + [Slice(text, start, end)];
      start := start + step;
    }
    if text != [] {
      CountOfWindows(|text|, step, |chunks|);
    }
  }

  /** The empty text has no chunks, whatever the window arguments. */
  lemma EmptyTextHasNoChunks(size: nat, overlap: int)
    ensures Chunks("", size, overlap) == []
  {
  }

  /** There are `|text| / step` chunks rounded up, and none is longer than `size`. */
  lemma ChunkCountAndBounds(text: string, size: nat, overlap: int)
    requires size > overlap
    ensures |Chunks(text, size, overlap)| * (size - overlap) >= |text|
    ensures |Chunks(text, size, overlap)| == 0 || (|Chunks(text, size, overlap)| - 1) * (size - overlap) < |text|
    ensures forall c :: c in Chunks(text, size, overlap) ==> |c| <= size
  {
    var step := size - overlap;
    var k := ChunkCount(|text|, step);
    var rem := (|text| + step - 1) % step;
    assert |text| + step - 1 == k * step + rem;
    if k > 0 {
      assert (k - 1) * step == k * step - step;
    }
  }

  /** Window `i` of `Chunks`, and the windows that exist. */
  lemma ChunkAt(text: string, size: nat, overlap: int, i: nat)
    requires size > overlap
    requires i < |Chunks(text, size, overlap)|
    ensures var step := size - overlap;
      Chunks(text, size, overlap)[i] == Slice(text, i * step, i * step + size)
  {
  }

  /** The window holding character `j` is one of the first `k` when `k` windows
      reach past `j`. */
  lemma WindowOfCharacter(k: nat, step: nat, j: nat)
    requires step > 0
    requires j < k * step
    ensures j / step < k
    ensures j == (j / step) * step + j % step && 0 <= j % step < step
  {
    if k <= j / step {
      MulMonotone(k, j / step, step);
    }
  }

  /** Every character of the text lies in some chunk: character `j` is at offset
      `j % step` of chunk `j / step`. Needs a non-negative overlap. */
  lemma EveryCharacterIsCovered(text: string, size: nat, overlap: int, j: nat)
    requires 0 <= overlap < size
    requires j < |text|
    ensures var r, step := Chunks(text, size, overlap), size - overlap;
      j / step < |r| && j % step < |r[j / step]| && r[j / step][j % step] == text[j]
  {
    var step := size - overlap;
    var r := Chunks(text, size, overlap);
    var i, off := j / step, j % step;
    assert i < |r| && j == i * step + off && off < step by {
      ChunkCountAndBounds(text, size, overlap);
      WindowOfCharacter(|r|, step, j);
    }
    var lo := i * step;
    ChunkAt(text, size, overlap, i);
    assert r[i] == text[lo..Min(lo + size, |text|)];
  }

  /** A full chunk ends with the `overlap` characters the next chunk starts with. */
  lemma ConsecutiveChunksOverlap(text: string, size: nat, overlap: int, i: nat)
    requires 0 <= overlap < size
    requires i + 1 < |Chunks(text, size, overlap)|
    requires |Chunks(text, size, overlap)[i]| == size
    ensures var r, step := Chunks(text, size, overlap), size - overlap;
      r[i][step..] == r[i + 1][..overlap]
  {
    var step := size - overlap;
    var r := Chunks(text, size, overlap);
    var lo := i * step;
    assert (i + 1) * step == lo + step;
    ChunkAt(text, size, overlap, i);
    ChunkAt(text, size, overlap, i + 1);
    assert lo + size <= |text| by {
      assert |Slice(text, lo, lo + size)| == size;
    }
    assert r[i] == text[lo..lo + size];
    assert r[i + 1] == text[lo + step..Min(lo + step + size, |text|)];
  }

  /** With the defaults (800 and 100) the windows start 700 characters apart. */
  lemma DefaultWindows(text: string)
    ensures |Chunks(text, ChunkSize, ChunkOverlap)| == (|text| + 699) / 700
    ensures |text| == 1500 ==> |Chunks(text, ChunkSize, ChunkOverlap)| == 3
  {
  }
}
