/** The chunker of rag/ingest.py: a cursor walks the page text in strides of
    `size - overlap`, cuts a window of `size` characters at every cursor
    position, and keeps the windows that are not whitespace-only. */
module Chunker {
  import opened Seqs
  import opened Text

  /** The window cut at cursor `start`: Python's `text[start:start + size]`. */
  function Window(text: string, start: nat, size: nat): string
  {
    Slice(text, start, start + size)
  }

  /** Every cursor position the loop visits, blank windows included. */
  function Cursors(text: string, size: nat, overlap: int): seq<nat>
    requires overlap < size
  {
    Offsets(|text|, size - overlap, 0)
  }

  /** The cursor positions among `cs` whose window is kept, in order. */
  function KeepNonBlank(text: string, size: nat, cs: seq<nat>): seq<nat>
  {
    if |cs| == 0 then []
    else if IsBlank(Window(text, cs[0], size)) then KeepNonBlank(text, size, cs[1..])
    else [cs[0]] + KeepNonBlank(text, size, cs[1..])
  }

  /** Only cursors with a non-blank window are kept. */
  lemma {:induction false} KeepSound(text: string, size: nat, cs: seq<nat>)
    ensures forall i :: 0 <= i < |KeepNonBlank(text, size, cs)| ==>
      KeepNonBlank(text, size, cs)[i] in cs && !IsBlank(Window(text, KeepNonBlank(text, size, cs)[i], size))
  {
    if |cs| > 0 {
      KeepSound(text, size, cs[1..]);
      assert forall c :: c in cs[1..] ==> c in cs;
    }
  }

  /** Every cursor with a non-blank window is kept. */
  lemma {:induction false} KeepComplete(text: string, size: nat, cs: seq<nat>)
    ensures forall c :: c in cs && !IsBlank(Window(text, c, size)) ==> c in KeepNonBlank(text, size, cs)
  {
    if |cs| > 0 {
      KeepComplete(text, size, cs[1..]);
      assert forall c :: c in cs && c != cs[0] ==> c in cs[1..];
    }
  }

  /** Start offsets of the chunks the loop emits. */
  function EmittedStarts(text: string, size: nat, overlap: int): seq<nat>
    requires overlap < size
  {
    KeepNonBlank(text, size, Cursors(text, size, overlap))
  }

  /** The windows at the given start offsets. */
  function WindowsAt(text: string, size: nat, starts: seq<nat>): seq<string>
  {
    seq(|starts|, i requires 0 <= i < |starts| => Window(text, starts[i], size))
  }

  /** Reference definition of `chunk_text`: the non-blank windows at the
      stride cursors, left to right. */
  function Chunks(text: string, size: nat, overlap: int): seq<string>
    requires overlap < size
  {
    WindowsAt(text, size, EmittedStarts(text, size, overlap))
  }

  lemma WindowsAtCons(text: string, size: nat, head: seq<nat>, rest: seq<nat>)
    ensures WindowsAt(text, size, head + rest) == WindowsAt(text, size, head) + WindowsAt(text, size, rest)
  {
  }

  /** `chunk_text` as written: the cursor loop. */
  method ChunkText(text: string, size: nat, overlap: int) returns (chunks: seq<string>)
    requires overlap < size
    ensures chunks == Chunks(text, size, overlap)
    ensures |text| == 0 ==> chunks == []
    ensures forall i :: 0 <= i < |chunks| ==> 0 < |chunks[i]| <= size && !IsBlank(chunks[i])
  {
    chunks := [];
    var start: nat := 0;
    while start < |text|
      invariant chunks + Pending(text, size, overlap, start) == Chunks(text, size, overlap)
      decreases |text| - start
    {
      var end := start + size;
      var chunk := Slice(text, start, end);
      var keep := StripsToText(chunk);
      ghost var prior, at := chunks, start;
      if keep {
        chunks := chunks + [chunk];
      }
      start := end - overlap;
      if keep {
        PendingKeep(text, size, overlap, at, prior, start, chunks);
      } else {
        PendingSkip(text, size, overlap, at, start);
      }
    }
    assert Pending(text, size, overlap, start) == [];
    assert chunks == Chunks(text, size, overlap);
    ChunkBounds(text, size, overlap);
  }

  lemma ChunkBounds(text: string, size: nat, overlap: int)
    requires overlap < size
    ensures forall i :: 0 <= i < |Chunks(text, size, overlap)| ==>
      0 < |Chunks(text, size, overlap)[i]| <= size && !IsBlank(Chunks(text, size, overlap)[i])
  {
    ChunkShape(text, size, overlap);
  }

  /** The chunks the loop has still to emit once its cursor is at `start`. */
  function Pending(text: string, size: nat, overlap: int, start: nat): seq<string>
    requires overlap < size
  {
    WindowsAt(text, size, KeepNonBlank(text, size, Offsets(|text|, size - overlap, start)))
  }

  /** A cursor whose window is blank is dropped. */
  lemma KeepSkipHead(text: string, size: nat, start: nat, rest: seq<nat>)
    requires IsBlank(Window(text, start, size))
    ensures KeepNonBlank(text, size, [start] + rest) == KeepNonBlank(text, size, rest)
  {
    assert ([start] + rest)[1..] == rest;
  }

  /** A cursor whose window is not blank is kept, ahead of the rest. */
  lemma KeepHead(text: string, size: nat, start: nat, rest: seq<nat>)
    requires !IsBlank(Window(text, start, size))
    ensures KeepNonBlank(text, size, [start] + rest) == [start] + KeepNonBlank(text, size, rest)
  {
    assert ([start] + rest)[1..] == rest;
  }

  /** An iteration whose window is blank emits nothing. */
  lemma PendingSkip(text: string, size: nat, overlap: int, start: nat, next: nat)
    requires overlap < size && start < |text| && next == start + size - overlap
    requires IsBlank(Slice(text, start, start + size))
    ensures Pending(text, size, overlap, next) == Pending(text, size, overlap, start)
  {
    OffsetsStep(|text|, size - overlap, start);
    KeepSkipHead(text, size, start, Offsets(|text|, size - overlap, next));
  }

  /** An iteration whose window is not blank emits it, ahead of the rest. */
  lemma PendingKeep(text: string, size: nat, overlap: int, start: nat, chunks: seq<string>,
                    next: nat, nextChunks: seq<string>)
    requires overlap < size && start < |text| && next == start + size - overlap
    requires !IsBlank(Slice(text, start, start + size))
    requires nextChunks == chunks + [Slice(text, start, start + size)]
    ensures nextChunks + Pending(text, size, overlap, next) == chunks + Pending(text, size, overlap, start)
  {
    var w := Window(text, start, size);
    var kept := KeepNonBlank(text, size, Offsets(|text|, size - overlap, next));
    OffsetsStep(|text|, size - overlap, start);
    KeepHead(text, size, start, Offsets(|text|, size - overlap, next));
    WindowsAtCons(text, size, [start], kept);
    var later := WindowsAt(text, size, kept);
    assert Pending(text, size, overlap, start) == [w] + later;
    assert (chunks + [w]) + later == chunks + ([w] + later);
  }

  /** Each chunk is the slice `text[s .. min(s + size, |text|)]` at its start
      offset `s`; start offsets are cursor positions below `|text|`, strictly
      increasing; every chunk is non-blank (so non-empty) and at most `size`
      characters long. */
  lemma ChunkShape(text: string, size: nat, overlap: int)
    requires overlap < size
    ensures var es := EmittedStarts(text, size, overlap);
      var cs := Chunks(text, size, overlap);
      && |cs| == |es|
      && Increasing(es)
      && (forall i :: 0 <= i < |es| ==>
            && es[i] in Cursors(text, size, overlap)
            && es[i] < |text|
            && cs[i] == text[es[i]..Min(es[i] + size, |text|)]
            && 0 < |cs[i]| <= size
            && !IsBlank(cs[i]))
  {
    var cur := Cursors(text, size, overlap);
    KeepSound(text, size, cur);
    OffsetsIncreasing(|text|, size - overlap, 0);
    KeepIncreasing(text, size, cur);
    OffsetsBelow(|text|, size - overlap, 0);
  }

  /** Filtering keeps a strictly increasing sequence strictly increasing. */
  lemma {:induction false} KeepIncreasing(text: string, size: nat, cs: seq<nat>)
    requires Increasing(cs)
    ensures Increasing(KeepNonBlank(text, size, cs))
    decreases |cs|
  {
    if |cs| > 0 {
      var rest := KeepNonBlank(text, size, cs[1..]);
      KeepIncreasing(text, size, cs[1..]);
      KeepSound(text, size, cs[1..]);
      forall j | 0 <= j < |rest|
        ensures cs[0] < rest[j]
      {
        var k :| 0 <= k < |cs[1..]| && cs[1..][k] == rest[j];
      }
    }
  }

  /** The loop runs `ceil(|text| / (size - overlap))` times, and its k-th
      iteration starts at offset `k * (size - overlap)`. */
  lemma CursorCount(text: string, size: nat, overlap: int)
    requires overlap < size
    ensures var cur := Cursors(text, size, overlap);
      && |cur| == (|text| + (size - overlap) - 1) / (size - overlap)
      && forall k :: 0 <= k < |cur| ==> cur[k] == k * (size - overlap)
  {
    OffsetsShape(|text|, size - overlap, 0);
    OffsetsCount(|text|, size - overlap);
  }

  /** Some cursor of a stride walk from `from` lands within one stride before
      any index `j` the walk passes. */
  lemma {:induction false} CursorBefore(len: nat, step: nat, from: nat, j: nat) returns (c: nat)
    requires step > 0 && from <= j < len
    ensures c in Offsets(len, step, from) && c <= j < c + step
    decreases len - from
  {
    if j >= from + step {
      c := CursorBefore(len, step, from + step, j);
      assert Offsets(len, step, from) == [from] + Offsets(len, step, from + step);
    } else {
      c := from;
      assert Offsets(len, step, from) == [from] + Offsets(len, step, from + step);
    }
  }

  /** The position of a kept cursor among the kept cursors. */
  lemma KeptIndex(text: string, size: nat, cs: seq<nat>, c: nat) returns (i: nat)
    requires c in cs && !IsBlank(Window(text, c, size))
    ensures i < |KeepNonBlank(text, size, cs)| && KeepNonBlank(text, size, cs)[i] == c
  {
    KeepComplete(text, size, cs);
    var kept := KeepNonBlank(text, size, cs);
    assert c in kept;
    i :| 0 <= i < |kept| && kept[i] == c;
  }

  /** Character `j` of the text lies in the `i`-th chunk, at its own offset. */
  ghost predicate CoveredBy(text: string, size: nat, overlap: int, j: nat, i: nat)
    requires overlap < size
  {
    var es := EmittedStarts(text, size, overlap);
    var cs := Chunks(text, size, overlap);
    && i < |es|
    && es[i] <= j < es[i] + |cs[i]|
    && j < |text|
    && cs[i][j - es[i]] == text[j]
  }

  /** No gaps: with a non-negative overlap every non-whitespace character of
      the text lies inside some emitted chunk, at its own offset. */
  lemma Coverage(text: string, size: nat, overlap: int, j: nat)
    requires 0 <= overlap < size
    requires j < |text| && !IsSpace(text[j])
    ensures exists i :: CoveredBy(text, size, overlap, j, i)
  {
    var c := CursorBefore(|text|, size - overlap, 0, j);
    var w := Window(text, c, size);
    assert w[j - c] == text[j];
    assert !IsBlank(w);
    var i := KeptIndex(text, size, Cursors(text, size, overlap), c);
    assert CoveredBy(text, size, overlap, j, i);
  }

  /** A non-blank text no longer than one stride is returned whole, as the
      only chunk. */
  lemma ShortText(text: string, size: nat, overlap: int)
    requires 0 <= overlap < size
    requires !IsBlank(text) && |text| <= size - overlap
    ensures Chunks(text, size, overlap) == [text]
  {
    var step := size - overlap;
    assert Offsets(|text|, step, step) == [];
    assert Cursors(text, size, overlap) == [0];
    assert Window(text, 0, size) == text;
    assert KeepNonBlank(text, size, [0]) == [0];
  }

  /** A non-blank text that fits in one window but is longer than one stride
      is still returned whole as the first chunk, and the loop goes round at
      least twice, so suffixes of the first chunk may follow it. */
  lemma ShortTextMaySplit(text: string, size: nat, overlap: int)
    requires 0 <= overlap < size
    requires !IsBlank(text) && size - overlap < |text| <= size
    ensures 0 < |Chunks(text, size, overlap)| && Chunks(text, size, overlap)[0] == text
    ensures 2 <= |Cursors(text, size, overlap)|
  {
    var step := size - overlap;
    var rest := Offsets(|text|, step, step);
    assert Cursors(text, size, overlap) == [0] + rest;
    assert Window(text, 0, size) == text;
    assert rest == [step] + Offsets(|text|, step, step + step);
    assert ([0] + rest)[1..] == rest;
  }

  /** An example: with window 10 and overlap 4, "alpha beta gamma"
      (16 characters) is cut at offsets 0, 6 and 12. */
  lemma AlphaBetaGamma()
    ensures Chunks("alpha beta gamma", 10, 4) == ["alpha beta", "beta gamma", "amma"]
  {
    var t := "alpha beta gamma";
    assert Offsets(16, 6, 18) == [];
    assert Offsets(16, 6, 12) == [12];
    assert Offsets(16, 6, 6) == [6, 12];
    assert Cursors(t, 10, 4) == [0, 6, 12];
    assert Window(t, 0, 10) == "alpha beta";
    assert Window(t, 6, 10) == "beta gamma";
    assert Window(t, 12, 10) == "amma";
    assert !IsSpace(t[0]) && !IsSpace(t[6]) && !IsSpace(t[12]);
    assert [0, 6, 12][1..] == [6, 12];
    assert [6, 12][1..] == [12];
    assert KeepNonBlank(t, 10, [12]) == [12];
    assert KeepNonBlank(t, 10, [6, 12]) == [6, 12];
    assert KeepNonBlank(t, 10, [0, 6, 12]) == [0, 6, 12];
  }
}
