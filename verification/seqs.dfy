/** Sequence helpers shared by the chunker and the batcher: Python's clamping
    slice and the cursor values of a stride loop. */
module Seqs {

  function Min(a: int, b: int): int
  {
    if a <= b then a else b
  }

  /** Python's `s[lo:hi]` for non-negative bounds: the end is clamped to the
      length, and a start at or past the end gives the empty slice. */
  function Slice<T>(s: seq<T>, lo: nat, hi: nat): (r: seq<T>)
    ensures |r| == if lo < Min(hi, |s|) then Min(hi, |s|) - lo else 0
    ensures forall k :: 0 <= k < |r| ==> r[k] == s[lo + k]
  {
    var b := Min(hi, |s|);
    if lo < b then s[lo..b] else []
  }

  /** Strictly increasing. */
  ghost predicate Increasing(s: seq<nat>)
  {
    forall i, j :: 0 <= i < j < |s| ==> s[i] < s[j]
  }

  /** The values a cursor takes in `c := from; while c < len { ...; c := c + step }`,
      which is also Python's `range(from, len, step)`. */
  function Offsets(len: nat, step: nat, from: nat): seq<nat>
    requires step > 0
    decreases len - from
  {
    if from < len then [from] + Offsets(len, step, from + step) else []
  }

  /** The cursors from `start` on: `start` itself, then those one stride on. */
  lemma OffsetsStep(len: nat, step: nat, start: nat)
    requires step > 0 && start < len
    ensures Offsets(len, step, start) == [start] + Offsets(len, step, start + step)
  {
  }

  /** One more stride is one more multiple of the step. */
  lemma StrideStep(k: nat, step: nat)
    requires 0 < k
    ensures k * step == (k - 1) * step + step
  {
  }

  /** More strides reach further. */
  lemma {:induction false} StrideMonotone(i: nat, j: nat, step: nat)
    requires i < j && 0 < step
    ensures i * step < j * step
    decreases j
  {
    StrideStep(j, step);
    if i < j - 1 {
      StrideMonotone(i, j - 1, step);
    }
  }

  /** The k-th cursor value is `from + k * step`. */
  lemma {:induction false} OffsetsAt(len: nat, step: nat, from: nat)
    requires step > 0
    ensures forall k :: 0 <= k < |Offsets(len, step, from)| ==> Offsets(len, step, from)[k] == from + k * step
    decreases len - from
  {
    if from < len {
      var rest := Offsets(len, step, from + step);
      OffsetsAt(len, step, from + step);
      forall k | 0 < k < |rest| + 1
        ensures ([from] + rest)[k] == from + k * step
      {
        assert ([from] + rest)[k] == rest[k - 1];
        StrideStep(k, step);
      }
    }
  }

  /** The walk stops at the first value that reaches `len`: it is empty iff
      `from` is already there, and otherwise its last value is below `len`
      and one more stride would reach it. */
  lemma {:induction false} OffsetsEnd(len: nat, step: nat, from: nat)
    requires step > 0
    ensures var cs := Offsets(len, step, from);
      && (|cs| == 0 <==> len <= from)
      && (from < len ==> from + (|cs| - 1) * step < len <= from + |cs| * step)
    decreases len - from
  {
    if from < len {
      var rest := Offsets(len, step, from + step);
      OffsetsEnd(len, step, from + step);
      if 0 < |rest| {
        StrideStep(|rest|, step);
        StrideStep(|rest| + 1, step);
      }
    }
  }

  /** The k-th cursor value is `from + k * step`, and the walk stops at the
      first value that reaches `len`. */
  lemma OffsetsShape(len: nat, step: nat, from: nat)
    requires step > 0
    ensures var cs := Offsets(len, step, from);
      && (forall k :: 0 <= k < |cs| ==> cs[k] == from + k * step)
      && (|cs| == 0 <==> len <= from)
      && (from < len ==> from + (|cs| - 1) * step < len <= from + |cs| * step)
  {
    OffsetsAt(len, step, from);
    OffsetsEnd(len, step, from);
  }

  /** A stride walk is strictly increasing. */
  lemma {:induction false} OffsetsIncreasing(len: nat, step: nat, from: nat)
    requires step > 0
    ensures Increasing(Offsets(len, step, from))
  {
    OffsetsShape(len, step, from);
    var cs := Offsets(len, step, from);
    forall i, j | 0 <= i < j < |cs|
      ensures cs[i] < cs[j]
    {
      StrideMonotone(i, j, step);
    }
  }

  /** Every cursor value is below the bound. */
  lemma {:induction false} OffsetsBelow(len: nat, step: nat, from: nat)
    requires step > 0
    ensures forall k :: 0 <= k < |Offsets(len, step, from)| ==> Offsets(len, step, from)[k] < len
    decreases len - from
  {
    if from < len {
      OffsetsBelow(len, step, from + step);
    }
  }

  /** Floor division is pinned down by its bracketing multiples. */
  lemma DivBracket(x: nat, d: nat, q: nat)
    requires d > 0 && q * d <= x < q * d + d
    ensures x / d == q
  {
    var r := x / d;
    assert x == r * d + x % d;
    assert r < q ==> (r + 1) * d <= q * d;
    assert r > q ==> (q + 1) * d <= r * d;
  }

  /** A stride walk from 0 makes `ceil(len / step)` steps. */
  lemma OffsetsCount(len: nat, step: nat)
    requires step > 0
    ensures |Offsets(len, step, 0)| == (len + step - 1) / step
  {
    OffsetsShape(len, step, 0);
    var c := |Offsets(len, step, 0)|;
    if len == 0 {
      DivBracket(step - 1, step, 0);
    } else {
      assert (c - 1) * step == c * step - step;
      DivBracket(len + step - 1, step, c);
    }
  }
}
