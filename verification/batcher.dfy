/** The batched submission of rag/ingest.py: the three parallel lists are cut
    into consecutive slices of at most `size` records and each slice is
    passed to the store as one `add` call. */
module Batcher {
  import opened Seqs
  import opened Corpus

  /** Three parallel lists, as passed to one `collection.add` call; also the
      contents of a stored collection. */
  datatype Columns = Columns(documents: seq<string>, metadatas: seq<Metadata>, ids: seq<string>)

  const NoColumns := Columns([], [], [])

  /** The three lists have one entry per record. */
  predicate Aligned(c: Columns)
  {
    |c.metadatas| == |c.documents| && |c.ids| == |c.documents|
  }

  /** `c` followed by `d`, list by list. */
  function Append(c: Columns, d: Columns): Columns
  {
    Columns(c.documents + d.documents, c.metadatas + d.metadatas, c.ids + d.ids)
  }

  /** The slices `[start:start + size]` of the three lists. */
  function Cut(all: Columns, start: nat, size: nat): Columns
  {
    Columns(Slice(all.documents, start, start + size),
            Slice(all.metadatas, start, start + size),
            Slice(all.ids, start, start + size))
  }

  /** All batches joined back together, in submission order. */
  function Concat(parts: seq<Columns>): Columns
  {
    if |parts| == 0 then NoColumns else Append(Concat(parts[..|parts| - 1]), parts[|parts| - 1])
  }

  /** Two adjacent slices make one longer slice. */
  lemma SliceJoin<T>(s: seq<T>, i: nat, size: nat)
    requires i <= |s|
    ensures Slice(s, 0, i) + Slice(s, i, i + size) == Slice(s, 0, i + size)
  {
  }

  lemma CutJoin(all: Columns, i: nat, size: nat)
    requires Aligned(all) && i <= |all.documents|
    ensures Append(Cut(all, 0, i), Cut(all, i, size)) == Cut(all, 0, i + size)
  {
    SliceJoin(all.documents, i, size);
    SliceJoin(all.metadatas, i, size);
    SliceJoin(all.ids, i, size);
  }

  /** A slice starting inside the lists holds between 1 and `size` records. */
  lemma CutFacts(all: Columns, start: nat, size: nat)
    requires Aligned(all) && start < |all.documents| && size > 0
    ensures Aligned(Cut(all, start, size)) && 0 < |Cut(all, start, size).documents| <= size
  {
  }

  /** The loop `for i in range(0, n, size)` that submits `all[i:i + size]`
      and advances the progress bar by the batch's length. */
  method SubmitBatches(all: Columns, size: nat) returns (submitted: seq<Columns>, progress: nat)
    requires size > 0 && Aligned(all)
    ensures progress == |all.documents|
    ensures |submitted| == (|all.documents| + size - 1) / size
    ensures forall k :: 0 <= k < |submitted| ==> submitted[k] == Cut(all, k * size, size)
  {
    var n := |all.documents|;
    submitted := [];
    progress := 0;
    var i: nat := 0;
    ghost var starts: seq<nat> := [];
    while i < n
      invariant SubmittedUpTo(all, size, i, submitted, starts)
      invariant progress == Min(i, n)
      decreases n - i
    {
      var batch := Cut(all, i, size);
      ghost var prior, priorStarts, at := submitted, starts, i;
      submitted := submitted + [batch];
      starts := starts + [i];
      progress := progress + |batch.documents|;
      i := i + size;
      SubmitStep(all, size, at, prior, priorStarts, i, submitted, starts);
    }
    SubmitDone(all, size, i, submitted, starts);
    BatchShape(all, size, submitted);
  }

  /** Once the cursor has passed the end, the batches were cut at every
      cursor of the loop. */
  lemma SubmitDone(all: Columns, size: nat, i: nat, submitted: seq<Columns>, starts: seq<nat>)
    requires size > 0 && Aligned(all) && |all.documents| <= i
    requires SubmittedUpTo(all, size, i, submitted, starts)
    ensures |submitted| == |Offsets(|all.documents|, size, 0)|
    ensures forall k :: 0 <= k < |submitted| ==> submitted[k] == Cut(all, Offsets(|all.documents|, size, 0)[k], size)
  {
    assert Offsets(|all.documents|, size, i) == [];
    assert starts == Offsets(|all.documents|, size, 0);
  }

  /** The loop invariant of `SubmitBatches` once the cursor is at `i`: the
      batches so far were cut at the cursors already visited. */
  ghost predicate SubmittedUpTo(all: Columns, size: nat, i: nat, submitted: seq<Columns>, starts: seq<nat>)
    requires size > 0
  {
    && Offsets(|all.documents|, size, 0) == starts + Offsets(|all.documents|, size, i)
    && |submitted| == |starts|
    && (forall k :: 0 <= k < |submitted| ==> submitted[k] == Cut(all, starts[k], size))
  }

  /** One iteration of the batch loop keeps its invariant. */
  lemma SubmitStep(all: Columns, size: nat, i: nat, submitted: seq<Columns>, starts: seq<nat>,
                    j: nat, next: seq<Columns>, nextStarts: seq<nat>)
    requires size > 0 && Aligned(all) && i < |all.documents|
    requires SubmittedUpTo(all, size, i, submitted, starts)
    requires j == i + size && next == submitted + [Cut(all, i, size)] && nextStarts == starts + [i]
    ensures SubmittedUpTo(all, size, j, next, nextStarts)
  {
    var n := |all.documents|;
    OffsetsStep(n, size, i);
    assert starts + Offsets(n, size, i) == (starts + [i]) + Offsets(n, size, i + size);
  }

  /** Batches cut at the cursors of `range(0, n, size)` are the slices at
      `k * size`, and there are `ceil(n / size)` of them. */
  lemma BatchShape(all: Columns, size: nat, submitted: seq<Columns>)
    requires size > 0 && Aligned(all)
    requires |submitted| == |Offsets(|all.documents|, size, 0)|
    requires forall k :: 0 <= k < |submitted| ==> submitted[k] == Cut(all, Offsets(|all.documents|, size, 0)[k], size)
    ensures |submitted| == (|all.documents| + size - 1) / size
    ensures forall k :: 0 <= k < |submitted| ==> submitted[k] == Cut(all, k * size, size)
  {
    OffsetsShape(|all.documents|, size, 0);
    OffsetsCount(|all.documents|, size);
  }

  /** Every batch cut at a cursor of `range(0, n, size)` holds between 1
      and `size` aligned records. */
  lemma BatchSizes(all: Columns, size: nat, batches: seq<Columns>)
    requires size > 0 && Aligned(all)
    requires |batches| == |Offsets(|all.documents|, size, 0)|
    requires forall k :: 0 <= k < |batches| ==> batches[k] == Cut(all, Offsets(|all.documents|, size, 0)[k], size)
    ensures forall k :: 0 <= k < |batches| ==>
      Aligned(batches[k]) && 0 < |batches[k].documents| <= size
  {
    var cs := Offsets(|all.documents|, size, 0);
    OffsetsBelow(|all.documents|, size, 0);
    forall k | 0 <= k < |batches|
      ensures Aligned(batches[k]) && 0 < |batches[k].documents| <= size
    {
      CutFacts(all, cs[k], size);
    }
  }

  /** The batches cut at the cursors of `range(0, n, size)`, joined in
      order, give back all the records. */
  lemma BatchesJoin(all: Columns, size: nat, batches: seq<Columns>)
    requires size > 0 && Aligned(all)
    requires |batches| == |Offsets(|all.documents|, size, 0)|
    requires forall k :: 0 <= k < |batches| ==> batches[k] == Cut(all, Offsets(|all.documents|, size, 0)[k], size)
    ensures Concat(batches) == all
  {
    BatchShape(all, size, batches);
    StridesBelow(|all.documents|, size, |batches|);
    ConcatUpTo(all, size, batches, |batches|);
    assert batches[..|batches|] == batches;
    CutWhole(all, |batches| * size);
  }

  /** The batches `SubmitBatches` returns partition the records: each holds
      1 to `size` aligned records, and joined in order they are all the
      records. */
  lemma BatchesPartition(all: Columns, size: nat, batches: seq<Columns>)
    requires size > 0 && Aligned(all)
    requires |batches| == (|all.documents| + size - 1) / size
    requires forall k :: 0 <= k < |batches| ==> batches[k] == Cut(all, k * size, size)
    ensures forall k :: 0 <= k < |batches| ==>
      Aligned(batches[k]) && 0 < |batches[k].documents| <= size
    ensures Concat(batches) == all
  {
    var n := |all.documents|;
    var cs := Offsets(n, size, 0);
    OffsetsCount(n, size);
    OffsetsAt(n, size, 0);
    assert forall k :: 0 <= k < |batches| ==> batches[k] == Cut(all, cs[k], size);
    BatchSizes(all, size, batches);
    BatchesJoin(all, size, batches);
  }

  /** The `ceil(n / size)` strides `k * size` all fall inside the records
      and together reach past the last one. */
  lemma StridesBelow(n: nat, size: nat, m: nat)
    requires size > 0 && m == (n + size - 1) / size
    ensures forall k :: 0 <= k < m ==> k * size < n
    ensures n <= m * size
  {
    var cs := Offsets(n, size, 0);
    OffsetsCount(n, size);
    OffsetsEnd(n, size, 0);
    OffsetsAt(n, size, 0);
    OffsetsBelow(n, size, 0);
    forall k | 0 <= k < m
      ensures k * size < n
    {
      assert cs[k] == k * size;
    }
  }

  /** A slice from the start that reaches past the end is everything. */
  lemma CutWhole(all: Columns, hi: nat)
    requires Aligned(all) && |all.documents| <= hi
    ensures Cut(all, 0, hi) == all
  {
    assert Slice(all.documents, 0, hi) == all.documents;
    assert Slice(all.metadatas, 0, hi) == all.metadatas;
    assert Slice(all.ids, 0, hi) == all.ids;
  }

  /** The first `j` batches join up to the first `j * size` records. */
  lemma {:induction false} ConcatUpTo(all: Columns, size: nat, batches: seq<Columns>, j: nat)
    requires size > 0 && Aligned(all) && j <= |batches|
    requires forall k :: 0 <= k < |batches| ==> batches[k] == Cut(all, k * size, size) && k * size < |all.documents|
    ensures Concat(batches[..j]) == Cut(all, 0, j * size)
    decreases j
  {
    if j == 0 {
      assert Cut(all, 0, 0) == NoColumns;
    } else {
      ConcatUpTo(all, size, batches, j - 1);
      assert batches[..j][..j - 1] == batches[..j - 1];
      StrideStep(j, size);
      CutJoin(all, (j - 1) * size, size);
    }
  }
}
