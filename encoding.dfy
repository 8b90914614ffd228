// The UDS encoder of audioParser.py (produceUDSfile) as a function of the
// reduced sequence. Samples and levels are exact reals: the source's float
// rounding is not modelled.
module Encoding {
  import opened Util

  /** The offset added to every block value before it is compared and divided by. */
  const EPS: real := 0.00001

  function Abs(x: real): real
  {
    if x < 0.0 then -x else x
  }

  /** The source's relative difference, in percent, of `prev` against `temp`. */
  function PercentDiff(prev: real, temp: real): (d: real)
    requires temp != 0.0
    ensures d >= 0.0
    ensures d == 0.0 <==> prev == temp
  {
    Abs((prev - temp) / temp * 100.0)
  }

  /** One UDS symbol: 'S' when the relative difference is below `minDiff`
      percent, otherwise 'D' when the level fell and 'U' when it did not. */
  function Classify(prev: real, temp: real, minDiff: real): (c: char)
    requires temp != 0.0
    ensures c == 'S' || c == 'D' || c == 'U'
    ensures c == 'D' ==> prev > temp
    ensures c == 'U' ==> prev <= temp
  {
    if PercentDiff(prev, temp) < minDiff then 'S'
    else if prev > temp then 'D'
    else 'U'
  }

  /** The amplitude written for a block: the previous level when the block is
      'S', the block's own offset value otherwise. */
  function Level(prev: real, temp: real, minDiff: real): (lvl: real)
    requires temp != 0.0
    ensures lvl == prev || lvl == temp
    ensures lvl != temp ==> Abs(prev - temp) * 100.0 < minDiff * Abs(temp)
    ensures Abs(prev - temp) * 100.0 < minDiff * Abs(temp) ==> lvl == prev
  {
    ClassifySame(prev, temp, minDiff);
    if Classify(prev, temp, minDiff) == 'S' then prev else temp
  }

  /** The percentage test, cross-multiplied: 'S' exactly when
      |prev - temp| * 100 < minDiff * |temp|. */
  lemma ClassifySame(prev: real, temp: real, minDiff: real)
    requires temp != 0.0
    ensures Classify(prev, temp, minDiff) == 'S' <==> Abs(prev - temp) * 100.0 < minDiff * Abs(temp)
    ensures Classify(prev, temp, minDiff) == 'D' <==>
              !(Abs(prev - temp) * 100.0 < minDiff * Abs(temp)) && prev > temp
    ensures Classify(prev, temp, minDiff) == 'U' <==>
              !(Abs(prev - temp) * 100.0 < minDiff * Abs(temp)) && prev <= temp
  {
    var d := prev - temp;
    var q := d / temp;
    assert d == q * temp;
    assert Abs(d) == Abs(q) * Abs(temp);
    assert PercentDiff(prev, temp) == Abs(q) * 100.0;
    if Abs(q) * 100.0 < minDiff {
      assert Abs(d) * 100.0 == (Abs(q) * 100.0) * Abs(temp);
    } else {
      assert Abs(d) * 100.0 == (Abs(q) * 100.0) * Abs(temp);
    }
  }

  /** What produceUDSfile leaves behind: the symbols and levels appended to
      UDS and dataUDS, and whether it ran to the end (`ok`) or stopped on an
      exception (an empty input, or a zero divisor r[i] + EPS). */
  datatype UdsRun = UdsRun(uds: seq<char>, dataUds: seq<real>, ok: bool)

  /** The encoder loop from index `i` on, with `prev` the current prevLevel. */
  function EncodeFrom(r: seq<real>, b: int, minDiff: real, i: nat, prev: real): (e: UdsRun)
    requires b >= 1
    ensures |e.uds| <= NumBlocks(|r| - i, b)
    decreases |r| - i
  {
    if i >= |r| then UdsRun([], [], true)
    else
      var temp := r[i] + EPS;
      if temp == 0.0 then UdsRun([], [], false)
      else
        var rest := EncodeFrom(r, b, minDiff, i + b, temp);
        UdsRun([Classify(prev, temp, minDiff)] + rest.uds,
               Repeat(Level(prev, temp, minDiff), b) + rest.dataUds,
               rest.ok)
  }

  /** One step of the loop: block i's symbol and levels, then the rest from i + b. */
  lemma EncodeFromStep(r: seq<real>, b: int, minDiff: real, i: nat, prev: real)
    requires b >= 1 && i < |r| && r[i] + EPS != 0.0
    ensures var temp := r[i] + EPS;
      var rest := EncodeFrom(r, b, minDiff, i + b, temp);
      EncodeFrom(r, b, minDiff, i, prev) ==
        UdsRun([Classify(prev, temp, minDiff)] + rest.uds,
               Repeat(Level(prev, temp, minDiff), b) + rest.dataUds, rest.ok)
  {
  }

  /** The encoder loop's bookkeeping for one block: appending its symbol and
      its levels to what was written so far, then encoding from the next
      block start, gives what encoding from this block gives. */
  lemma EncodeLoopStep(r: seq<real>, b: int, minDiff: real, i: nat, prev: real,
                       written: seq<char>, levels: seq<real>)
    requires b >= 1 && i < |r| && r[i] + EPS != 0.0
    ensures var temp := r[i] + EPS;
      var here := EncodeFrom(r, b, minDiff, i, prev);
      var next := EncodeFrom(r, b, minDiff, i + b, temp);
      && (written + [Classify(prev, temp, minDiff)]) + next.uds == written + here.uds
      && (levels + Repeat(Level(prev, temp, minDiff), b)) + next.dataUds == levels + here.dataUds
      && next.ok == here.ok
  {
    var temp := r[i] + EPS;
    var next := EncodeFrom(r, b, minDiff, i + b, temp);
    EncodeFromStep(r, b, minDiff, i, prev);
    assert (written + [Classify(prev, temp, minDiff)]) + next.uds ==
             written + ([Classify(prev, temp, minDiff)] + next.uds);
    assert (levels + Repeat(Level(prev, temp, minDiff), b)) + next.dataUds ==
             levels + (Repeat(Level(prev, temp, minDiff), b) + next.dataUds);
  }

  /** produceUDSfile: prevLevel starts as r[0] (without EPS), 'B' comes first. */
  function Encode(r: seq<real>, b: int, minDiff: real): UdsRun
    requires b >= 1
  {
    if r == [] then UdsRun([], [], false)
    else
      var e := EncodeFrom(r, b, minDiff, 0, r[0]);
      UdsRun(['B'] + e.uds, e.dataUds, e.ok)
  }

  /** prevLevel when block k is compared: r[0] for block 0, then the previous
      block's offset value. */
  function BlockPrev(r: seq<real>, b: int, k: nat): real
    requires b >= 1 && |r| >= 1 && k * b < |r|
  {
    if k == 0 then r[0] else MulAtLeast(k, b); r[k * b - b] + EPS
  }

  /** Shape of the loop's output from `i`: b levels per symbol, every symbol
      in {S, D, U}, and one symbol per remaining block when it runs to the end. */
  lemma {:induction false} EncodeFromShape(r: seq<real>, b: int, minDiff: real, i: nat, prev: real)
    requires b >= 1
    ensures var e := EncodeFrom(r, b, minDiff, i, prev);
      && |e.dataUds| == |e.uds| * b
      && |e.uds| <= NumBlocks(|r| - i, b)
      && (e.ok ==> |e.uds| == NumBlocks(|r| - i, b))
      && forall k :: 0 <= k < |e.uds| ==> e.uds[k] == 'S' || e.uds[k] == 'D' || e.uds[k] == 'U'
    decreases |r| - i
  {
    if i < |r| && r[i] + EPS != 0.0 {
      var temp := r[i] + EPS;
      EncodeFromShape(r, b, minDiff, i + b, temp);
      MulPred(|EncodeFrom(r, b, minDiff, i + b, temp).uds| + 1, b);
    }
  }

  /** Block k of the loop started at `i` (position i + k*b): it is compared
      against the previous block's offset value (or `prev` for the first),
      gets Classify's symbol, and its b levels are all Level's value. */
  lemma {:induction false} EncodeFromAt(r: seq<real>, b: int, minDiff: real, i: nat, prev: real, k: nat)
    requires b >= 1
    requires k < |EncodeFrom(r, b, minDiff, i, prev).uds|
    ensures 0 <= k * b && (k > 0 ==> b <= k * b)
    ensures i + k * b < |r| && r[i + k * b] + EPS != 0.0
    ensures var p := if k == 0 then prev else r[i + k * b - b] + EPS;
      var e := EncodeFrom(r, b, minDiff, i, prev);
      && e.uds[k] == Classify(p, r[i + k * b] + EPS, minDiff)
      && |e.dataUds| >= k * b + b
      && forall j :: k * b <= j < k * b + b ==> e.dataUds[j] == Level(p, r[i + k * b] + EPS, minDiff)
    decreases |r| - i, 1
  {
    EncodeFromShape(r, b, minDiff, i, prev);
    if k > 0 {
      EncodeFromLater(r, b, minDiff, i, prev, k);
    }
  }

  /** Block k >= 1 of the loop started at `i` is block k - 1 of the loop
      started at i + b, whose prevLevel is block 0's offset value. */
  lemma {:induction false} EncodeFromLater(r: seq<real>, b: int, minDiff: real, i: nat, prev: real, k: nat)
    requires b >= 1 && 1 <= k < |EncodeFrom(r, b, minDiff, i, prev).uds|
    ensures b <= k * b && i + k * b < |r| && r[i + k * b] + EPS != 0.0
    ensures var p := r[i + k * b - b] + EPS;
      var e := EncodeFrom(r, b, minDiff, i, prev);
      && e.uds[k] == Classify(p, r[i + k * b] + EPS, minDiff)
      && |e.dataUds| >= k * b + b
      && forall j :: k * b <= j < k * b + b ==> e.dataUds[j] == Level(p, r[i + k * b] + EPS, minDiff)
    decreases |r| - i, 0
  {
    var temp := r[i] + EPS;
    EncodeFromAt(r, b, minDiff, i + b, temp, k - 1);
    MulPred(k, b);
    MulAtLeast(k, b);
  }

  /** Every block start from `i` on (i, i + b, i + 2b, ...) has a non-zero divisor. */
  predicate DivisorsNonZero(r: seq<real>, b: int, i: nat)
    requires b >= 1
  {
    forall p :: i <= p < |r| && (p - i) % b == 0 ==> r[p] + EPS != 0.0
  }

  /** The loop from `i` runs to the end exactly when no block start from `i`
      on has r[p] + EPS == 0 (which would raise ZeroDivisionError). */
  lemma {:induction false} EncodeFromOk(r: seq<real>, b: int, minDiff: real, i: nat, prev: real)
    requires b >= 1
    ensures EncodeFrom(r, b, minDiff, i, prev).ok <==> DivisorsNonZero(r, b, i)
    decreases |r| - i
  {
    if i < |r| {
      var temp := r[i] + EPS;
      if temp != 0.0 {
        EncodeFromOk(r, b, minDiff, i + b, temp);
        if DivisorsNonZero(r, b, i) {
          forall p | i + b <= p < |r| && (p - (i + b)) % b == 0
            ensures r[p] + EPS != 0.0
          {
            ModShift(p - (i + b), b);
          }
        }
        if DivisorsNonZero(r, b, i + b) {
          forall p | i <= p < |r| && (p - i) % b == 0
            ensures r[p] + EPS != 0.0
          {
            MultipleOfBlock(p - i, b);
            if p != i {
              ModShift(p - (i + b), b);
            }
          }
        }
      } else {
        assert (i - i) % b == 0;
      }
    }
  }

  /** Counts and alphabet of the whole encoder: 'B' first, then one symbol in
      {S, D, U} per block; b levels per block; when it completes there are
      ceil(|r|/b) blocks. An empty input fails before anything is written. */
  lemma EncodeShape(r: seq<real>, b: int, minDiff: real)
    requires b >= 1
    ensures var run := Encode(r, b, minDiff);
      && (r == [] ==> run.uds == [] && run.dataUds == [] && !run.ok)
      && (r != [] ==> |run.uds| >= 1 && run.uds[0] == 'B')
      && (forall k :: 1 <= k < |run.uds| ==> run.uds[k] == 'S' || run.uds[k] == 'D' || run.uds[k] == 'U')
      && (r != [] ==> |run.dataUds| == (|run.uds| - 1) * b)
      && (run.ok ==> |run.uds| == 1 + NumBlocks(|r|, b) && |run.dataUds| == NumBlocks(|r|, b) * b)
  {
    if r != [] {
      EncodeFromShape(r, b, minDiff, 0, r[0]);
    }
  }

  /** The encoder completes exactly when the input is non-empty and no block
      start p has r[p] + EPS == 0. */
  lemma EncodeOk(r: seq<real>, b: int, minDiff: real)
    requires b >= 1
    ensures Encode(r, b, minDiff).ok <==>
              r != [] && forall p :: 0 <= p < |r| && p % b == 0 ==> r[p] + EPS != 0.0
  {
    if r != [] {
      EncodeFromOk(r, b, minDiff, 0, r[0]);
    }
  }

  /** Block k of the whole encoder (symbol k + 1, after 'B'): compared against
      BlockPrev, classified by Classify, its b levels given by Level. */
  lemma EncodeBlock(r: seq<real>, b: int, minDiff: real, k: nat)
    requires b >= 1 && k + 1 < |Encode(r, b, minDiff).uds|
    ensures r != [] && k * b < |r| && r[k * b] + EPS != 0.0
    ensures var run := Encode(r, b, minDiff);
      && run.uds[k + 1] == Classify(BlockPrev(r, b, k), r[k * b] + EPS, minDiff)
      && |run.dataUds| >= k * b + b
      && forall j :: k * b <= j < k * b + b ==>
           run.dataUds[j] == Level(BlockPrev(r, b, k), r[k * b] + EPS, minDiff)
  {
    EncodeFromAt(r, b, minDiff, 0, r[0], k);
  }

  /** prevLevel carries the EPS offset: two equal consecutive block values
      after the first give 'S' when minDiff > 0 and 'U' when minDiff <= 0. */
  lemma EqualBlocks(r: seq<real>, b: int, minDiff: real, k: nat)
    requires b >= 1 && 1 <= k && k + 1 < |Encode(r, b, minDiff).uds|
    requires k * b < |r| && b <= k * b
    requires r[k * b] == r[k * b - b]
    ensures Encode(r, b, minDiff).uds[k + 1] == if minDiff > 0.0 then 'S' else 'U'
  {
    EncodeBlock(r, b, minDiff, k);
    ClassifySame(BlockPrev(r, b, k), r[k * b] + EPS, minDiff);
  }

  /** The first comparison is r[0] against r[0] + EPS: when r[0] == 0 the
      first block is 'S' only for minDiff > 100, and 'U' otherwise. */
  lemma ZeroFirstBlock(r: seq<real>, b: int, minDiff: real)
    requires b >= 1 && |r| >= 1 && r[0] == 0.0
    ensures |Encode(r, b, minDiff).uds| >= 2
    ensures Encode(r, b, minDiff).uds[1] == if minDiff > 100.0 then 'S' else 'U'
  {
    ClassifySame(0.0, EPS, minDiff);
  }

  /** A constant input of four 10s with blocks of 2 and a 5% threshold gives
      "BSS" (the first block is compared with itself plus EPS). */
  lemma ExampleSameBlocks()
    ensures Encode([10.0, 10.0, 10.0, 10.0], 2, 5.0) ==
              UdsRun("BSS", [10.0, 10.0, 10.00001, 10.00001], true)
  {
    var r := [10.0, 10.0, 10.0, 10.0];
    ClassifySame(10.0, 10.00001, 5.0);
    ClassifySame(10.00001, 10.00001, 5.0);
    assert EncodeFrom(r, 2, 5.0, 4, 10.00001) == UdsRun([], [], true);
    assert EncodeFrom(r, 2, 5.0, 2, 10.00001) == UdsRun("S", [10.00001, 10.00001], true);
  }

  /** [100, 50] with blocks of 1 and a 10% threshold gives "BSD" and the
      levels [100, 50.00001]. */
  lemma ExampleDrop()
    ensures Encode([100.0, 50.0], 1, 10.0) == UdsRun("BSD", [100.0, 50.00001], true)
  {
    var r := [100.0, 50.0];
    ClassifySame(100.0, 100.00001, 10.0);
    ClassifySame(100.00001, 50.00001, 10.0);
    assert EncodeFrom(r, 1, 10.0, 2, 50.00001) == UdsRun([], [], true);
    assert EncodeFrom(r, 1, 10.0, 1, 100.00001) == UdsRun("D", [50.00001], true);
  }
}
