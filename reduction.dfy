// The two block reducers of audioParser.py, as functions of the trimmed
// sample sequence. Each is defined the way the Python loop computes it, one
// sample at a time, and the lemmas give the closed form of every output value.
module Reduction {
  import opened Util

  /** Previous-hold reduction (reduceWavFilePrev): a sample at a block start
      is copied; any other sample repeats the value emitted just before it. */
  function PrevReduced(s: seq<int>, b: int): (r: seq<real>)
    requires b >= 1
    ensures |r| == |s|
    decreases |s|
  {
    if s == [] then []
    else
      var p := PrevReduced(s[..|s| - 1], b);
      var i := |s| - 1;
      p + [if i % b == 0 then s[i] as real else p[i - 1]]
  }

  /** One more sample extends the Prev output by one value. */
  lemma PrevReducedSnoc(s: seq<int>, x: int, b: int)
    requires b >= 1
    ensures |s| % b != 0 ==> |s| >= 1
    ensures PrevReduced(s + [x], b) ==
              PrevReduced(s, b) + [if |s| % b == 0 then x as real else PrevReduced(s, b)[|s| - 1]]
  {
    assert (s + [x])[..|s|] == s;
  }

  /** Every output position holds the sample at the start of its block. */
  lemma {:induction false} PrevReducedAt(s: seq<int>, b: int, i: int)
    requires b >= 1 && 0 <= i < |s|
    ensures 0 <= i - i % b <= i
    ensures PrevReduced(s, b)[i] == s[i - i % b] as real
    decreases |s|
  {
    var front := s[..|s| - 1];
    if i < |s| - 1 {
      PrevReducedAt(front, b, i);
      assert PrevReduced(s, b)[i] == PrevReduced(front, b)[i];
    } else if i % b != 0 {
      ModPred(i, b);
      PrevReducedAt(front, b, i - 1);
      assert PrevReduced(s, b)[i] == PrevReduced(front, b)[i - 1];
    } else {
      assert PrevReduced(s, b)[i] == s[i] as real;
    }
  }

  /** Block `k` (positions k*b .. k*b+b-1, cut at the end) repeats sample k*b. */
  lemma PrevReducedBlock(s: seq<int>, b: int, k: int, t: int)
    requires b >= 1 && k >= 0 && 0 <= t < b && k * b + t < |s|
    ensures PrevReduced(s, b)[k * b + t] == s[k * b] as real
  {
    BlockOf(k, t, b);
    PrevReducedAt(s, b, k * b + t);
  }

  /** reduceWavFileAvg's loop from sample `i` on, with the running sum `acc`
      and the values `out` appended so far: a sample at a block start adds
      itself to the sum, appends the sum divided by `b` b times and resets the
      sum; any other sample only adds itself to the sum. */
  function AvgWalk(s: seq<int>, b: int, i: nat, acc: real, out: seq<real>): seq<real>
    requires b >= 1
    decreases |s| - i
  {
    if i >= |s| then out
    else if i % b == 0 then AvgWalk(s, b, i + 1, 0.0, out + Repeat((acc + s[i] as real) / b as real, b))
    else AvgWalk(s, b, i + 1, acc + s[i] as real, out)
  }

  /** Average reduction (reduceWavFileAvg): the whole loop, from an empty
      sum and no output. */
  function AvgReduced(s: seq<int>, b: int): seq<real>
    requires b >= 1
  {
    AvgWalk(s, b, 0, 0.0, [])
  }

  /** The loop only appends: values already in the list stay in front. */
  lemma {:induction false} AvgWalkPrefix(s: seq<int>, b: int, i: nat, acc: real, p: seq<real>, out: seq<real>)
    requires b >= 1
    ensures AvgWalk(s, b, i, acc, p + out) == p + AvgWalk(s, b, i, acc, out)
    decreases |s| - i
  {
    if i < |s| {
      if i % b == 0 {
        var run := Repeat((acc + s[i] as real) / b as real, b);
        assert p + out + run == p + (out + run);
        AvgWalkPrefix(s, b, i + 1, 0.0, p, out + run);
      } else {
        AvgWalkPrefix(s, b, i + 1, acc + s[i] as real, p, out);
      }
    }
  }

  /** The sum the Avg reducer divides for the block starting at `start`: the
      (up to) b samples that END at the block start, s[start-b+1 ..= start],
      which for the first block is s[0] alone. */
  function BlockTotal(s: seq<int>, b: int, start: int): int
    requires b >= 1 && 0 <= start < |s|
  {
    Sum(s[Max(start - b + 1, 0) .. start + 1])
  }

  /** The value the Avg reducer writes for the block starting at `start`. */
  function BlockMean(s: seq<int>, b: int, start: int): real
    requires b >= 1 && 0 <= start < |s|
  {
    BlockTotal(s, b, start) as real / b as real
  }

  /** Every value written so far is the mean of its block. */
  predicate MeansSoFar(s: seq<int>, b: int, i: int, out: seq<real>)
    requires b >= 1 && i <= |s|
  {
    forall j :: 0 <= j < |out| ==> 0 <= j - j % b < i && out[j] == BlockMean(s, b, j - j % b)
  }

  /** At a block start i the running sum plus s[i] is the block's total. */
  lemma BlockStartTotal(s: seq<int>, b: int, i: nat, acc: real)
    requires b >= 1 && i < |s| && i % b == 0
    requires i == 0 ==> acc == 0.0
    requires i >= 1 ==> 0 <= Span(i, b) - b + 1 <= i && acc == Sum(s[Span(i, b) - b + 1 .. i]) as real
    ensures acc + s[i] as real == BlockTotal(s, b, i) as real
  {
    SpanCover(i, b);
    if i == 0 {
      assert s[0..1] == [] + [s[0]];
      SumAppend([], s[0]);
    } else {
      MultipleOfBlock(i, b);
      var lo := i - b + 1;
      assert s[lo .. i + 1] == s[lo .. i] + [s[i]];
      SumAppend(s[lo .. i], s[i]);
    }
  }

  /** A block start appends b copies of the block's mean, all of them at
      positions inside that block. */
  lemma MeansAtBlockStart(s: seq<int>, b: int, i: nat, out: seq<real>, mean: real)
    requires b >= 1 && i < |s| && i % b == 0 && mean == BlockMean(s, b, i)
    requires |out| == i && MeansSoFar(s, b, i, out)
    ensures MeansSoFar(s, b, i + 1, out + Repeat(mean, b))
  {
    var out' := out + Repeat(mean, b);
    forall j | 0 <= j < |out'|
      ensures 0 <= j - j % b < i + 1 && out'[j] == BlockMean(s, b, j - j % b)
    {
      if j >= i {
        SameBlock(i, j, b);
      }
    }
  }

  /** What the loop keeps before sample i: the output covers Span(i, b)
      positions, each holding the mean of its block, and the running sum
      holds the samples after the last block start. */
  predicate AvgKept(s: seq<int>, b: int, i: nat, acc: real, out: seq<real>)
    requires b >= 1 && i <= |s|
  {
    && |out| == Span(i, b) && MeansSoFar(s, b, i, out)
    && (i == 0 ==> acc == 0.0)
    && (i >= 1 ==> 0 <= Span(i, b) - b + 1 <= i && acc == Sum(s[Span(i, b) - b + 1 .. i]) as real)
  }

  /** A sample at a block start keeps AvgKept. */
  lemma AvgKeptAtStart(s: seq<int>, b: int, i: nat, acc: real, out: seq<real>)
    requires b >= 1 && i < |s| && i % b == 0 && AvgKept(s, b, i, acc, out)
    ensures AvgKept(s, b, i + 1, 0.0, out + Repeat((acc + s[i] as real) / b as real, b))
  {
    SpanStep(i, b);
    SpanCover(i, b);
    BlockStartTotal(s, b, i, acc);
    MeansAtBlockStart(s, b, i, out, (acc + s[i] as real) / b as real);
    assert s[i + 1 .. i + 1] == [];
  }

  /** A sample inside a block keeps AvgKept. */
  lemma AvgKeptInside(s: seq<int>, b: int, i: nat, acc: real, out: seq<real>)
    requires b >= 1 && i < |s| && i % b != 0 && AvgKept(s, b, i, acc, out)
    ensures AvgKept(s, b, i + 1, acc + s[i] as real, out)
  {
    SpanStep(i, b);
    var lo := Span(i, b) - b + 1;
    assert s[lo .. i + 1] == s[lo .. i] + [s[i]];
    SumAppend(s[lo .. i], s[i]);
  }

  /** From any state the loop keeps, it ends with ceil(|s|/b) * b values,
      each the mean of its block. */
  lemma {:induction false} AvgWalkShape(s: seq<int>, b: int, i: nat, acc: real, out: seq<real>)
    requires b >= 1 && i <= |s| && AvgKept(s, b, i, acc, out)
    ensures var r := AvgWalk(s, b, i, acc, out);
      |r| == Span(|s|, b) && MeansSoFar(s, b, |s|, r)
    decreases |s| - i
  {
    if i < |s| {
      if i % b == 0 {
        var out' := out + Repeat((acc + s[i] as real) / b as real, b);
        assert AvgWalk(s, b, i, acc, out) == AvgWalk(s, b, i + 1, 0.0, out');
        AvgKeptAtStart(s, b, i, acc, out);
        AvgWalkShape(s, b, i + 1, 0.0, out');
      } else {
        assert AvgWalk(s, b, i, acc, out) == AvgWalk(s, b, i + 1, acc + s[i] as real, out);
        AvgKeptInside(s, b, i, acc, out);
        AvgWalkShape(s, b, i + 1, acc + s[i] as real, out);
      }
    }
  }

  /** Full Avg shape and values: ceil(|s|/b) * b values, each the mean of the
      block holding its position. */
  lemma AvgReducedShape(s: seq<int>, b: int)
    requires b >= 1
    ensures |AvgReduced(s, b)| == NumBlocks(|s|, b) * b
    ensures forall j :: 0 <= j < |AvgReduced(s, b)| ==>
              0 <= j - j % b < |s| && AvgReduced(s, b)[j] == BlockMean(s, b, j - j % b)
  {
    AvgWalkShape(s, b, 0, 0.0, []);
    SpanIsProduct(|s|, b);
  }

  /** The Avg output is as long as the input exactly when the length is a
      multiple of b; otherwise it is longer (by fewer than b values). */
  lemma AvgReducedLength(s: seq<int>, b: int)
    requires b >= 1
    ensures |s| % b == 0 ==> |AvgReduced(s, b)| == |s|
    ensures |s| % b != 0 ==> |s| < |AvgReduced(s, b)| < |s| + b
  {
    AvgReducedShape(s, b);
    SpanIsProduct(|s|, b);
    SpanCover(|s|, b);
  }

  /** The reducer operations() dispatches to: Avg for method 1, Prev for any other value. */
  function Reduced(reduceMethod: int, s: seq<int>, b: int): seq<real>
    requires b >= 1
  {
    if reduceMethod == 1 then AvgReduced(s, b) else PrevReduced(s, b)
  }

  /** The reduced sequence is exactly as long as the trimmed one unless the Avg
      reducer runs on a length that is not a multiple of b, when it is longer. */
  lemma ReducedLength(reduceMethod: int, s: seq<int>, b: int)
    requires b >= 1
    ensures |Reduced(reduceMethod, s, b)| == |s| <==> reduceMethod != 1 || |s| % b == 0
    ensures |Reduced(reduceMethod, s, b)| >= |s|
  {
    AvgReducedLength(s, b);
  }
}
