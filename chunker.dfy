/**
  The chunker of AdvancedDocumentQA: a sliding window over the characters of a
  text.  Windows start at 0, stride, 2*stride, ... with stride = chunkSize - overlap,
  and each window is the Python slice text[start : start + chunkSize].
 */
module Chunker {

  import opened SeqFacts

  const DefaultChunkSize: nat := 400
  const DefaultOverlap: nat := 50

  /** The Python slice text[start : start + size] for a start inside the text. */
  function Window(text: string, start: nat, size: nat): string
    requires start <= |text|
  {
    text[start .. Min(start + size, |text|)]
  }

  /** `count` windows of stride `stride` are enough to reach the end of a text of length n
      and no fewer would be: count == ceil(n / stride). */
  ghost predicate IsCeil(count: nat, n: nat, stride: nat)
  {
    count * stride >= n && (count == 0 || (count - 1) * stride < n)
  }

  /** Reference definition of the chunk sequence: the first window, then the chunks of
      what is left after skipping one stride. */
  function Windows(text: string, size: nat, stride: nat): seq<string>
    requires stride > 0
    decreases |text|
  {
    if |text| == 0 then []
    else [text[..Min(size, |text|)]] + Windows(text[Min(stride, |text|)..], size, stride)
  }

  /** Puts the chunks back together: from each chunk, the part before the next chunk starts. */
  function Reassemble(chunks: seq<string>, stride: nat): string
  {
    if chunks == [] then ""
    else chunks[0][..Min(stride, |chunks[0]|)] + Reassemble(chunks[1..], stride)
  }

  lemma MulMono(a: nat, b: nat, s: nat)
    requires a <= b
    ensures a * s <= b * s
  {
  }

  /** There is only one ceiling. */
  lemma CeilUnique(c1: nat, c2: nat, n: nat, stride: nat)
    requires stride > 0 && IsCeil(c1, n, stride) && IsCeil(c2, n, stride)
    ensures c1 == c2
  {
    if c1 < c2 {
      MulMono(c1, c2 - 1, stride);
    } else if c2 < c1 {
      MulMono(c2, c1 - 1, stride);
    }
  }

  /** One more stride: (i + 1) * stride is i * stride + stride. */
  lemma MulStep(i: nat, stride: nat)
    ensures (i + 1) * stride == i * stride + stride
  {
  }

  /** One window more than the ceiling of what is left after one stride is the ceiling of
      the whole. */
  lemma CeilStep(c: nat, n: nat, stride: nat)
    requires 0 < stride < n && IsCeil(c, n - stride, stride)
    ensures IsCeil(c + 1, n, stride)
  {
    MulStep(c, stride);
    if c > 0 {
      MulStep(c - 1, stride);
    }
  }

  /** The reference chunking has ceil(|text| / stride) windows. */
  lemma {:induction false} WindowsCount(text: string, size: nat, stride: nat)
    requires stride > 0
    ensures IsCeil(|Windows(text, size, stride)|, |text|, stride)
    decreases |text|
  {
    if |text| > 0 {
      var rest := text[Min(stride, |text|)..];
      WindowsCount(rest, size, stride);
      assert |Windows(text, size, stride)| == 1 + |Windows(rest, size, stride)|;
      if |rest| == 0 {
        assert |Windows(rest, size, stride)| == 0;
      } else {
        CeilStep(|Windows(rest, size, stride)|, |text|, stride);
      }
    }
  }

  /** Window i of the reference chunking starts at offset i * stride inside the text. */
  lemma {:induction false} WindowsAt(text: string, size: nat, stride: nat, i: nat)
    requires stride > 0 && i < |Windows(text, size, stride)|
    ensures i * stride < |text| && Windows(text, size, stride)[i] == Window(text, i * stride, size)
    decreases i
  {
    var rest := text[Min(stride, |text|)..];
    if i > 0 {
      assert Windows(text, size, stride)[i] == Windows(rest, size, stride)[i - 1];
      WindowsAt(rest, size, stride, i - 1);
      WindowShift(text, size, stride, i);
    }
  }

  /** The reference definition in closed form: ceil(|text| / stride) windows, window i
      starting at offset i * stride. */
  lemma WindowsClosedForm(text: string, size: nat, stride: nat)
    requires stride > 0
    ensures IsCeil(|Windows(text, size, stride)|, |text|, stride)
    ensures forall i :: 0 <= i < |Windows(text, size, stride)| ==>
              i * stride < |text| && Windows(text, size, stride)[i] == Window(text, i * stride, size)
  {
    WindowsCount(text, size, stride);
    forall i | 0 <= i < |Windows(text, size, stride)|
      ensures i * stride < |text| && Windows(text, size, stride)[i] == Window(text, i * stride, size)
    {
      WindowsAt(text, size, stride, i);
    }
  }

  /** A window of the text left after one stride is the window one stride further on. */
  lemma WindowShift(text: string, size: nat, stride: nat, i: nat)
    requires 0 < stride < |text| && i > 0 && (i - 1) * stride < |text| - stride
    ensures i * stride < |text|
    ensures Window(text[stride..], (i - 1) * stride, size) == Window(text, i * stride, size)
  {
    MulStep(i - 1, stride);
  }

  /** The windows from offset start on: the window at start, then those from start + stride. */
  lemma WindowsFrom(text: string, start: nat, size: nat, stride: nat)
    requires 0 < stride && start < |text|
    ensures Windows(text[start..], size, stride) ==
            [text[start .. Min(start + size, |text|)]] + Windows(text[Min(start + stride, |text|)..], size, stride)
  {
    var t := text[start..];
    assert t[..Min(size, |t|)] == text[start .. Min(start + size, |text|)];
    assert t[Min(stride, |t|)..] == text[Min(start + stride, |text|)..];
  }

  /** chunk_text: one window per offset of range(0, len(text), chunkSize - overlap). */
  method ChunkText(text: string, chunkSize: nat, overlap: nat) returns (chunks: seq<string>)
    requires chunkSize != overlap  // range() rejects a zero step
    ensures overlap > chunkSize ==> chunks == []  // a negative step gives an empty range
    ensures overlap < chunkSize ==> chunks == Windows(text, chunkSize, chunkSize - overlap)
  {
    chunks := [];
    if overlap > chunkSize {
      return;
    }
    var stride := chunkSize - overlap;
    var start := 0;
    while start < |text|
      invariant chunks + Windows(text[Min(start, |text|)..], chunkSize, stride) == Windows(text, chunkSize, stride)
    {
      WindowsFrom(text, start, chunkSize, stride);
      chunks := chunks + [text[start .. Min(start + chunkSize, |text|)]];
      start := start + stride;
    }
    assert text[Min(start, |text|)..] == [];
  }

  /** The length of chunk i: what is left of the text after its offset, capped at chunkSize. */
  lemma {:induction false} ChunkLength(text: string, chunkSize: nat, stride: nat, i: nat)
    requires 0 < stride && i < |Windows(text, chunkSize, stride)|
    ensures var off := i * stride;
            off < |text| && |Windows(text, chunkSize, stride)[i]| == Min(chunkSize, |text| - off)
  {
    WindowsClosedForm(text, chunkSize, stride);
    var off := i * stride;
    assert off < |text|;
    assert Windows(text, chunkSize, stride)[i] == Window(text, off, chunkSize);
  }

  /** Every chunk is non-empty and at most chunkSize long; only the empty text has no chunks. */
  lemma {:induction false} ChunkBounds(text: string, chunkSize: nat, overlap: nat)
    requires overlap < chunkSize
    ensures Windows(text, chunkSize, chunkSize - overlap) == [] <==> text == ""
    ensures forall c :: c in Windows(text, chunkSize, chunkSize - overlap) ==> 0 < |c| <= chunkSize
    decreases |text|
  {
    var stride := chunkSize - overlap;
    if |text| > 0 {
      var rest := text[Min(stride, |text|)..];
      ChunkBounds(rest, chunkSize, overlap);
      assert Windows(text, chunkSize, stride) == [text[..Min(chunkSize, |text|)]] + Windows(rest, chunkSize, stride);
    }
  }

  /** Character j of the text is character j - i * stride of some chunk i. */
  ghost predicate Covered(text: string, ws: seq<string>, stride: nat, j: nat)
  {
    exists i :: 0 <= i < |ws| && i * stride <= j < i * stride + |ws[i]| &&
                j < |text| && ws[i][j - i * stride] == text[j]
  }

  /** Coverage: every character of the text lies in some chunk, at the chunk's offset. */
  lemma {:induction false} Coverage(text: string, chunkSize: nat, overlap: nat, j: nat)
    requires overlap < chunkSize && j < |text|
    ensures Covered(text, Windows(text, chunkSize, chunkSize - overlap), chunkSize - overlap, j)
    decreases |text|
  {
    var stride := chunkSize - overlap;
    var ws := Windows(text, chunkSize, stride);
    var rest := text[Min(stride, |text|)..];
    var wr := Windows(rest, chunkSize, stride);
    assert ws == [text[..Min(chunkSize, |text|)]] + wr;
    if j < Min(chunkSize, |text|) {
      assert 0 * stride == 0 && |ws[0]| == Min(chunkSize, |text|);
      assert 0 <= 0 < |ws| && 0 * stride <= j < 0 * stride + |ws[0]| && ws[0][j - 0 * stride] == text[j];
    } else {
      assert stride <= j && rest == text[stride..];
      Coverage(rest, chunkSize, overlap, j - stride);
      var k :| 0 <= k < |wr| && k * stride <= j - stride < k * stride + |wr[k]| &&
               j - stride < |rest| && wr[k][j - stride - k * stride] == rest[j - stride];
      MulStep(k, stride);
      assert ws[k + 1] == wr[k];
      assert ws[k + 1][j - (k + 1) * stride] == text[j];
    }
  }


  /** Consecutive chunks overlap: when chunk i is full-length, its last `overlap`
      characters are the first `overlap` characters of chunk i + 1. */
  lemma {:induction false} ConsecutiveOverlap(text: string, chunkSize: nat, overlap: nat, i: nat)
    requires overlap < chunkSize
    requires i + 1 < |Windows(text, chunkSize, chunkSize - overlap)|
    requires |Windows(text, chunkSize, chunkSize - overlap)[i]| == chunkSize
    ensures var ws := Windows(text, chunkSize, chunkSize - overlap);
            |ws[i + 1]| >= overlap && ws[i][chunkSize - overlap..] == ws[i + 1][..overlap]
    decreases i
  {
    var stride := chunkSize - overlap;
    var ws := Windows(text, chunkSize, stride);
    var rest := text[Min(stride, |text|)..];
    var wr := Windows(rest, chunkSize, stride);
    assert ws == [text[..Min(chunkSize, |text|)]] + wr;
    if i == 0 {
      assert chunkSize <= |text| && rest == text[stride..];
      assert ws[1] == wr[0] == rest[..Min(chunkSize, |rest|)];
      assert ws[0][stride..] == text[stride..chunkSize];
      assert ws[1][..overlap] == text[stride..chunkSize];
    } else {
      assert ws[i] == wr[i - 1] && ws[i + 1] == wr[i];
      ConsecutiveOverlap(rest, chunkSize, overlap, i - 1);
    }
  }

  /** Round trip: the chunks, each cut where the next begins, concatenate to the text. */
  lemma {:induction false} ReassembleWindows(text: string, chunkSize: nat, overlap: nat)
    requires overlap < chunkSize
    ensures Reassemble(Windows(text, chunkSize, chunkSize - overlap), chunkSize - overlap) == text
    decreases |text|
  {
    var stride := chunkSize - overlap;
    if |text| > 0 {
      var m := Min(stride, |text|);
      var ws := Windows(text, chunkSize, stride);
      ReassembleWindows(text[m..], chunkSize, overlap);
      assert ws[1..] == Windows(text[m..], chunkSize, stride);
      assert ws[0][..Min(stride, |ws[0]|)] == text[..m];
      assert text[..m] + text[m..] == text;
    }
  }
}
