// Small sequence and integer-division helpers shared by the audio pipeline
// and the query chunker.
module Util {

  /** `n` copies of `v`: what an inner `for x in range(0, n): l.append(v)` adds. */
  function Repeat<T>(v: T, n: nat): seq<T>
  {
    seq(n, _ => v)
  }

  function Min(a: int, b: int): int
  {
    if a <= b then a else b
  }

  function Max(a: int, b: int): int
  {
    if a >= b then a else b
  }

  /** Sum of a sequence of samples, peeled from the back (the order a running `+=` adds them). */
  function Sum(s: seq<int>): int
  {
    if s == [] then 0 else Sum(s[..|s| - 1]) + s[|s| - 1]
  }

  /** Number of blocks of size `b` needed to cover `n` positions: ceil(n / b), and 0 for n <= 0. */
  function NumBlocks(n: int, b: int): nat
    requires b >= 1
    decreases n
  {
    if n <= 0 then 0 else 1 + NumBlocks(n - b, b)
  }

  /** Positions covered by the ceil(n/b) blocks of size b that start before
      n (block starts 0, b, 2b, ...): NumBlocks(n, b) * b, added up one block
      at a time. */
  function Span(n: int, b: int): nat
    requires b >= 1
    decreases n
  {
    if n <= 0 then 0 else Span(n - b, b) + b
  }

  lemma {:induction false} SpanIsProduct(n: int, b: int)
    requires b >= 1
    ensures Span(n, b) == NumBlocks(n, b) * b
    decreases n
  {
    if n > 0 {
      SpanIsProduct(n - b, b);
      MulPred(NumBlocks(n - b, b) + 1, b);
    }
  }

  /** Euclidean division of n by b, with its two defining facts. */
  lemma DivMod(n: int, b: int) returns (q: int, m: int)
    requires b >= 1
    ensures q == n / b && m == n % b
    ensures n == q * b + m && 0 <= m < b
  {
    q, m := n / b, n % b;
  }

  lemma MulPred(k: int, b: int)
    ensures (k - 1) * b == k * b - b
  {
  }

  lemma MulAtLeast(k: int, b: int)
    requires k >= 1 && b >= 1
    ensures k * b >= b
  {
  }

  lemma DivUnique(n: int, b: int, q: int)
    requires b >= 1 && q * b <= n < q * b + b
    ensures n / b == q && n % b == n - q * b
  {
    var d, m := DivMod(n, b);
    if d < q {
      assert q * b - d * b == (q - d) * b;
      MulAtLeast(q - d, b);
      assert false;
    } else if d > q {
      assert d * b - q * b == (d - q) * b;
      MulAtLeast(d - q, b);
      assert false;
    }
  }

  /** ceil(n/b) brackets n: the last block starts before n and the blocks reach at least n. */
  lemma {:induction false} NumBlocksBounds(n: int, b: int)
    requires b >= 1 && n >= 1
    ensures NumBlocks(n, b) >= 1
    ensures NumBlocks(n, b) * b - b < n <= NumBlocks(n, b) * b
    decreases n
  {
    var k := NumBlocks(n - b, b);
    if n - b >= 1 {
      NumBlocksBounds(n - b, b);
    }
    MulPred(k + 1, b);
  }

  /** ceil((q*b + m) / b) for an offset 0 <= m <= b. */
  lemma {:induction false} NumBlocksAt(q: nat, m: int, b: int)
    requires b >= 1 && 0 <= m <= b
    ensures NumBlocks(q * b + m, b) == if m == 0 then q else q + 1
    decreases q
  {
    if q > 0 {
      MulPred(q, b);
      NumBlocksAt(q - 1, m, b);
    } else if m > 0 {
      assert NumBlocks(m - b, b) == 0;
    }
  }

  /** One more position opens a new block exactly when it lands on a block start. */
  lemma NumBlocksStep(n: nat, b: int)
    requires b >= 1
    ensures NumBlocks(n + 1, b) == NumBlocks(n, b) + (if n % b == 0 then 1 else 0)
  {
    var q, m := DivMod(n, b);
    NumBlocksAt(q, m, b);
    NumBlocksAt(q, m + 1, b);
  }

  /** The blocks cover exactly n positions when b divides n, and overshoot
      by less than one block otherwise. */
  lemma NumBlocksCover(n: nat, b: int)
    requires b >= 1
    ensures n % b == 0 ==> NumBlocks(n, b) * b == n
    ensures n % b != 0 ==> n < NumBlocks(n, b) * b < n + b
  {
    var q, m := DivMod(n, b);
    NumBlocksAt(q, m, b);
    MulPred(q + 1, b);
  }

  /** One more position adds a whole block exactly when it lands on a block start. */
  lemma SpanStep(n: nat, b: int)
    requires b >= 1
    ensures Span(n + 1, b) == Span(n, b) + (if n % b == 0 then b else 0)
  {
    NumBlocksStep(n, b);
    SpanIsProduct(n, b);
    SpanIsProduct(n + 1, b);
    MulPred(NumBlocks(n, b) + 1, b);
  }

  /** The blocks reach exactly n when b divides n and overshoot by less than
      one block otherwise; the last block starts before n. */
  lemma SpanCover(n: nat, b: int)
    requires b >= 1
    ensures n % b == 0 ==> Span(n, b) == n
    ensures n % b != 0 ==> n < Span(n, b) < n + b
    ensures n >= 1 ==> Span(n, b) - b < n <= Span(n, b)
  {
    NumBlocksCover(n, b);
    SpanIsProduct(n, b);
  }

  /** A position less than one block past a block start lies in that block. */
  lemma SameBlock(i: int, j: int, b: int)
    requires b >= 1 && i % b == 0 && i <= j < i + b
    ensures j - j % b == i
  {
    var q, m := DivMod(i, b);
    BlockOf(q, j - i, b);
  }

  /** The start of the block holding j is at most j and at least 0 for j >= 0. */
  lemma BlockStart(j: int, b: int)
    requires b >= 1 && j >= 0
    ensures 0 <= j - j % b <= j && (j - j % b) % b == 0
  {
    var q, m := DivMod(j, b);
    BlockOf(q, 0, b);
  }

  /** Position `k*b + t` with `t < b` lies in block `k`, at offset `t`. */
  lemma BlockOf(k: int, t: int, b: int)
    requires b >= 1 && 0 <= t < b
    ensures (k * b + t) / b == k && (k * b + t) % b == t
  {
    DivUnique(k * b + t, b, k);
  }

  /** Stepping back from a position that is not a block start stays in the same block. */
  lemma ModPred(i: int, b: int)
    requires b >= 1 && i >= 1 && i % b != 0
    ensures (i - 1) % b == i % b - 1 && 0 <= i - i % b <= i - 1
  {
    var q, m := DivMod(i, b);
    BlockOf(q, m - 1, b);
  }

  /** Adding a whole block does not change the offset in the block. */
  lemma ModShift(x: int, b: int)
    requires b >= 1
    ensures (x + b) % b == x % b
  {
    var q, m := DivMod(x, b);
    MulPred(q + 1, b);
    BlockOf(q + 1, m, b);
  }

  /** A non-negative multiple of b is 0 or at least b. */
  lemma MultipleOfBlock(x: int, b: int)
    requires b >= 1 && x >= 0 && x % b == 0
    ensures x == 0 || x >= b
  {
    var q, m := DivMod(x, b);
    if q >= 1 {
      MulAtLeast(q, b);
    }
  }

  /** A slice of a suffix is a shifted slice of the whole sequence. */
  lemma SliceOfSuffix<T>(s: seq<T>, n: int, lo: int, hi: int)
    requires 0 <= n <= |s| && 0 <= lo <= hi <= |s| - n
    ensures s[n..][lo..hi] == s[n + lo .. n + hi]
  {
  }

  lemma SumAppend(s: seq<int>, x: int)
    ensures Sum(s + [x]) == Sum(s) + x
  {
    assert (s + [x])[..|s + [x]| - 1] == s;
  }
}
