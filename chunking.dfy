// The query chunker of queryGenerator.py as functions: the UDS text is cut
// into consecutive chunks, every other chunk (starting with the first) is a
// query, and the queries are written one per line.
module Chunking {
  import opened Util

  /** Chunk lengths for a text of n characters: at least n of them (each
      chunk takes at least one character), all positive. */
  predicate ValidLengths(lens: seq<int>, n: nat)
  {
    |lens| >= n && forall k :: 0 <= k < |lens| ==> lens[k] >= 1
  }

  /** The lengths of fixed mode: `split` for every chunk. */
  function FixedLengths(split: int, n: nat): seq<int>
  {
    Repeat(split, n)
  }

  /** The random draws of random mode: at least n of them, each in [1, 15]. */
  predicate ValidDraws(draws: seq<int>, n: nat)
  {
    |draws| >= n && forall k :: 0 <= k < |draws| ==> 1 <= draws[k] <= 15
  }

  /** Consecutive chunks of `s`, chunk k of length lens[k] (cut at the end). */
  function Chunks(s: string, lens: seq<int>): (cs: seq<string>)
    requires ValidLengths(lens, |s|)
    ensures |cs| <= |s|
    ensures s != [] ==> |cs| >= 1
    decreases |s|
  {
    if s == [] then []
    else
      var n := Min(lens[0], |s|);
      [s[..n]] + Chunks(s[n..], lens[1..])
  }

  /** Keeps the chunks at even positions when `keep` holds at the start,
      flipping `keep` after every chunk. */
  function Alternate(cs: seq<string>, keep: bool): seq<string>
    decreases |cs|
  {
    if cs == [] then []
    else (if keep then [cs[0]] else []) + Alternate(cs[1..], !keep)
  }

  /** One chunk in front: kept when `keep` holds, and `keep` flips for the rest. */
  lemma AlternateCons(w: string, rest: seq<string>, keep: bool)
    ensures Alternate([w] + rest, keep) == (if keep then [w] else []) + Alternate(rest, !keep)
  {
    assert ([w] + rest)[1..] == rest;
  }

  /** The query loop's bookkeeping for one chunk: appending it when it is
      kept, then flipping `keep`, leaves "collected + still to collect" unchanged. */
  lemma KeepStep(done: seq<string>, word: string, rest: seq<string>, keep: bool, target: seq<string>)
    requires done + Alternate([word] + rest, keep) == target
    ensures (if keep then done + [word] else done) + Alternate(rest, !keep) == target
  {
    AlternateCons(word, rest, keep);
    if keep {
      assert done + [word] + Alternate(rest, !keep) == done + ([word] + Alternate(rest, !keep));
    }
  }

  /** generateQueries: the kept chunks. */
  function Queries(s: string, lens: seq<int>): seq<string>
    requires ValidLengths(lens, |s|)
  {
    Alternate(Chunks(s, lens), true)
  }

  function Concat(cs: seq<string>): string
    decreases |cs|
  {
    if cs == [] then [] else cs[0] + Concat(cs[1..])
  }

  /** writeFile: every query followed by a newline. */
  function Serialize(qs: seq<string>): string
    decreases |qs|
  {
    if qs == [] then [] else qs[0] + "\n" + Serialize(qs[1..])
  }

  /** Index of the first newline of `t`, or |t| when there is none. */
  function LineEnd(t: string): (k: nat)
    ensures k <= |t|
    ensures k < |t| ==> t[k] == '\n'
    ensures forall j :: 0 <= j < k ==> t[j] != '\n'
    decreases |t|
  {
    if t == [] || t[0] == '\n' then 0 else 1 + LineEnd(t[1..])
  }

  /** Reads newline-terminated text back as lines (the reader's side of writeFile). */
  function SplitLines(t: string): seq<string>
    decreases |t|
  {
    if t == [] then []
    else
      var k := LineEnd(t);
      [t[..k]] + (if k < |t| then SplitLines(t[k + 1..]) else [])
  }

  /** One iteration of the chunking loop at position i with draw number `iter`. */
  lemma ChunksStep(s: string, lens: seq<int>, i: nat, iter: nat)
    requires ValidLengths(lens, |s|) && iter <= i < |s|
    ensures ValidLengths(lens[iter..], |s| - i) && ValidLengths(lens[iter + 1..], |s| - Min(i + lens[iter], |s|))
    ensures Chunks(s[i..], lens[iter..]) ==
              [s[i..Min(i + lens[iter], |s|)]] + Chunks(s[Min(i + lens[iter], |s|)..], lens[iter + 1..])
  {
    var n := Min(lens[iter], |s| - i);
    assert s[i..][..n] == s[i..i + n];
    assert s[i..][n..] == s[i + n..];
    assert lens[iter..][1..] == lens[iter + 1..];
  }

  /** The chunks from position i on, the first of them of length lens[iter]:
      the chunks the query loop still has to walk through. */
  function ChunksFrom(s: string, lens: seq<int>, i: nat, iter: nat): (cs: seq<string>)
    requires ValidLengths(lens, |s|) && iter <= i
    decreases |s| - i
  {
    if i >= |s| then []
    else [s[i..Min(i + lens[iter], |s|)]] + ChunksFrom(s, lens, i + lens[iter], iter + 1)
  }

  /** Walking from position i with draw iter is chunking the rest of the text
      with the remaining lengths. */
  lemma {:induction false} ChunksFromRest(s: string, lens: seq<int>, i: nat, iter: nat)
    requires ValidLengths(lens, |s|) && iter <= i <= |s|
    ensures ValidLengths(lens[iter..], |s| - i)
    ensures ChunksFrom(s, lens, i, iter) == Chunks(s[i..], lens[iter..])
    decreases |s| - i
  {
    if i < |s| {
      ChunksStep(s, lens, i, iter);
      var next := Min(i + lens[iter], |s|);
      ChunksFromRest(s, lens, next, iter + 1);
      if i + lens[iter] > |s| {
        assert ChunksFrom(s, lens, i + lens[iter], iter + 1) == [];
        assert s[next..] == [];
      }
    }
  }

  /** One step of the walk: the chunk at position i, then the walk from the
      position after it with the next draw. */
  lemma ChunksFromStep(s: string, lens: seq<int>, i: nat, iter: nat)
    requires ValidLengths(lens, |s|) && iter <= i < |s|
    ensures iter < |lens| && lens[iter] >= 1
    ensures ChunksFrom(s, lens, i, iter) ==
              [s[i..Min(i + lens[iter], |s|)]] + ChunksFrom(s, lens, i + lens[iter], iter + 1)
  {
  }

  /** Where the query loop ends up: the queries collected and the number of
      lengths drawn. */
  datatype Walked = Walked(queries: seq<string>, used: nat)

  /** The query loop run to the end from position i, draw iter, with `keep`
      telling whether the next chunk is kept and `done` the queries so far. */
  function Walk(s: string, lens: seq<int>, i: nat, iter: nat, keep: bool, done: seq<string>): Walked
    requires ValidLengths(lens, |s|) && iter <= i
    decreases |s| - i
  {
    if i >= |s| then Walked(done, iter)
    else
      var word := s[i..Min(i + lens[iter], |s|)];
      Walk(s, lens, i + lens[iter], iter + 1, !keep, if keep then done + [word] else done)
  }

  /** The loop from any point collects every other one of the remaining
      chunks, and draws one length per remaining chunk. */
  lemma {:induction false} WalkChunks(s: string, lens: seq<int>, i: nat, iter: nat, keep: bool, done: seq<string>)
    requires ValidLengths(lens, |s|) && iter <= i
    ensures Walk(s, lens, i, iter, keep, done).queries == done + Alternate(ChunksFrom(s, lens, i, iter), keep)
    ensures Walk(s, lens, i, iter, keep, done).used == iter + |ChunksFrom(s, lens, i, iter)|
    decreases |s| - i
  {
    if i < |s| {
      var word := s[i..Min(i + lens[iter], |s|)];
      var rest := ChunksFrom(s, lens, i + lens[iter], iter + 1);
      ChunksFromStep(s, lens, i, iter);
      WalkChunks(s, lens, i + lens[iter], iter + 1, !keep, if keep then done + [word] else done);
      KeepStep(done, word, rest, keep, done + Alternate([word] + rest, keep));
    }
  }

  /** The whole loop: the queries of `s` appended to `done`, one draw per chunk. */
  lemma WalkQueries(s: string, lens: seq<int>, done: seq<string>)
    requires ValidLengths(lens, |s|)
    ensures Walk(s, lens, 0, 0, true, done) == Walked(done + Queries(s, lens), |Chunks(s, lens)|)
  {
    WalkChunks(s, lens, 0, 0, true, done);
    ChunksFromRest(s, lens, 0, 0);
    assert s[0..] == s && lens[0..] == lens;
  }

  /** All chunks, kept and skipped, concatenated in order give back `s`. */
  lemma {:induction false} ChunksConcat(s: string, lens: seq<int>)
    requires ValidLengths(lens, |s|)
    ensures Concat(Chunks(s, lens)) == s
    decreases |s|
  {
    if s != [] {
      var n := Min(lens[0], |s|);
      ChunksConcat(s[n..], lens[1..]);
      assert s[..n] + s[n..] == s;
    }
  }

  /** Chunk k is non-empty, at most lens[k] long, and exactly lens[k] long
      unless it is the last chunk; there are at most |s| chunks. */
  lemma {:induction false} ChunkSize(s: string, lens: seq<int>, k: nat)
    requires ValidLengths(lens, |s|) && k < |Chunks(s, lens)|
    ensures 1 <= |Chunks(s, lens)[k]| <= lens[k]
    ensures k < |Chunks(s, lens)| - 1 ==> |Chunks(s, lens)[k]| == lens[k]
    decreases |s|
  {
    var n := Min(lens[0], |s|);
    if k > 0 {
      ChunkSize(s[n..], lens[1..], k - 1);
    } else if |Chunks(s, lens)| > 1 {
      assert s[n..] != [];
    }
  }

  /** With every length equal to `split` there are ceil(|s| / split) chunks. */
  lemma {:induction false} FixedChunkCount(s: string, lens: seq<int>, split: int)
    requires split >= 1 && ValidLengths(lens, |s|)
    requires forall k :: 0 <= k < |lens| ==> lens[k] == split
    ensures |Chunks(s, lens)| == NumBlocks(|s|, split)
    decreases |s|
  {
    if s != [] {
      var n := Min(split, |s|);
      FixedChunkCount(s[n..], lens[1..], split);
      if |s| <= split {
        assert NumBlocks(|s| - split, split) == 0;
      }
    }
  }

  /** The first chunk takes min(lens[0], |s|) characters, and the others are
      the chunks of the rest with the remaining lengths. */
  lemma ChunksUnfold(s: string, lens: seq<int>)
    requires ValidLengths(lens, |s|) && s != []
    ensures var n := Min(lens[0], |s|);
      && 1 <= n <= |s| && ValidLengths(lens[1..], |s| - n)
      && Chunks(s, lens) == [s[..n]] + Chunks(s[n..], lens[1..])
  {
  }

  /** With every length equal to `split`, chunk m is s[m*split .. min(m*split + split, |s|)]. */
  lemma {:induction false} FixedChunkAt(s: string, lens: seq<int>, split: int, m: nat)
    requires split >= 1 && ValidLengths(lens, |s|)
    requires forall k :: 0 <= k < |lens| ==> lens[k] == split
    requires m < |Chunks(s, lens)|
    ensures 0 <= m * split < |s|
    ensures Chunks(s, lens)[m] == s[m * split .. Min(m * split + split, |s|)]
    decreases m
  {
    ChunksUnfold(s, lens);
    if m > 0 {
      var tail := s[split..];
      assert Chunks(s, lens)[m] == Chunks(tail, lens[1..])[m - 1];
      FixedChunkAt(tail, lens[1..], split, m - 1);
      MulPred(m, split);
      var a := m * split - split;
      var hi := Min(a + split, |tail|);
      assert Chunks(tail, lens[1..])[m - 1] == tail[a..hi];
      SliceOfSuffix(s, split, a, hi);
      assert split + hi == Min(m * split + split, |s|);
    } else {
      assert m * split == 0;
    }
  }

  /** The alternation keeps exactly chunks 0, 2, 4, ...: ceil(|cs| / 2) of them. */
  lemma {:induction false} AlternateEven(cs: seq<string>)
    ensures |Alternate(cs, true)| == (|cs| + 1) / 2
    ensures forall m :: 0 <= m < |Alternate(cs, true)| ==> Alternate(cs, true)[m] == cs[2 * m]
    decreases |cs|
  {
    if |cs| >= 2 {
      var tail := cs[2..];
      AlternateEven(tail);
      assert cs[1..][1..] == tail;
      assert Alternate(cs, true) == [cs[0]] + Alternate(tail, true);
      forall m | 0 <= m < |Alternate(cs, true)|
        ensures Alternate(cs, true)[m] == cs[2 * m]
      {
        if m > 0 {
          assert Alternate(cs, true)[m] == Alternate(tail, true)[m - 1];
          assert tail[2 * (m - 1)] == cs[2 * m];
        }
      }
    }
  }

  /** Query m is chunk 2m; there are ceil(#chunks / 2) queries. */
  lemma QueriesAreEvenChunks(s: string, lens: seq<int>)
    requires ValidLengths(lens, |s|)
    ensures |Queries(s, lens)| == (|Chunks(s, lens)| + 1) / 2
    ensures forall m :: 0 <= m < |Queries(s, lens)| ==>
              2 * m < |Chunks(s, lens)| && Queries(s, lens)[m] == Chunks(s, lens)[2 * m]
  {
    var cs := Chunks(s, lens);
    AlternateEven(cs);
  }

  /** Fixed mode: ceil(ceil(|s| / split) / 2) queries, query m being
      s[2m*split .. min(2m*split + split, |s|)]; an empty text gives none. */
  lemma FixedQueries(s: string, split: int)
    requires split >= 1
    ensures |Queries(s, FixedLengths(split, |s|))| == (NumBlocks(|s|, split) + 1) / 2
    ensures s == [] ==> Queries(s, FixedLengths(split, |s|)) == []
    ensures forall m :: 0 <= m < |Queries(s, FixedLengths(split, |s|))| ==>
              0 <= 2 * m * split < |s| &&
              Queries(s, FixedLengths(split, |s|))[m] == s[2 * m * split .. Min(2 * m * split + split, |s|)]
  {
    var lens := FixedLengths(split, |s|);
    FixedChunkCount(s, lens, split);
    QueriesAreEvenChunks(s, lens);
    forall m | 0 <= m < |Queries(s, lens)|
      ensures 0 <= 2 * m * split < |s| &&
              Queries(s, lens)[m] == s[2 * m * split .. Min(2 * m * split + split, |s|)]
    {
      FixedChunkAt(s, lens, split, 2 * m);
    }
  }

  /** Random mode: every query is 1 to 15 characters long, and every query is
      a chunk at an even position. */
  lemma RandomQueries(s: string, draws: seq<int>)
    requires ValidDraws(draws, |s|)
    ensures ValidLengths(draws, |s|)
    ensures forall q :: q in Queries(s, draws) ==> 1 <= |q| <= 15
  {
    var cs := Chunks(s, draws);
    QueriesAreEvenChunks(s, draws);
    forall q | q in Queries(s, draws)
      ensures 1 <= |q| <= 15
    {
      var m :| 0 <= m < |Queries(s, draws)| && Queries(s, draws)[m] == q;
      ChunkSize(s, draws, 2 * m);
    }
  }

  /** "BSUDS" cut in twos gives the chunks "BS", "UD", "S" and the queries "BS", "S". */
  lemma Example()
    ensures Chunks("BSUDS", FixedLengths(2, 5)) == ["BS", "UD", "S"]
    ensures Queries("BSUDS", FixedLengths(2, 5)) == ["BS", "S"]
  {
    var lens := FixedLengths(2, 5);
    assert lens[1..] == FixedLengths(2, 4) && lens[1..][1..] == FixedLengths(2, 3);
    assert "BSUDS"[2..] == "UDS" && "UDS"[2..] == "S";
    assert "S"[..1] == "S" && "S"[1..] == [];
    assert "UDS"[..2] == "UD" && "BSUDS"[..2] == "BS";
    assert Chunks("S", FixedLengths(2, 3)) == ["S"];
    assert Chunks("UDS", FixedLengths(2, 4)) == ["UD", "S"];
  }

  /** Writing one more query appends that query and a newline. */
  lemma {:induction false} SerializeSnoc(qs: seq<string>, q: string)
    ensures Serialize(qs + [q]) == Serialize(qs) + q + "\n"
    decreases |qs|
  {
    if qs != [] {
      assert (qs + [q])[1..] == qs[1..] + [q];
      SerializeSnoc(qs[1..], q);
    } else {
      assert [q][1..] == [];
    }
  }

  /** The first newline of q + "\n" + rest is the one after q when q has none. */
  lemma {:induction false} LineEndAfter(q: string, rest: string)
    requires '\n' !in q
    ensures LineEnd(q + "\n" + rest) == |q|
    decreases |q|
  {
    if q != [] {
      assert (q + "\n" + rest)[1..] == q[1..] + "\n" + rest;
      LineEndAfter(q[1..], rest);
    }
  }

  /** Reading the written file back line by line gives the queries again,
      as long as no query contains a newline. */
  lemma {:induction false} SplitSerialize(qs: seq<string>)
    requires forall k :: 0 <= k < |qs| ==> '\n' !in qs[k]
    ensures SplitLines(Serialize(qs)) == qs
    decreases |qs|
  {
    if qs != [] {
      var t := Serialize(qs);
      var q := qs[0];
      LineEndAfter(q, Serialize(qs[1..]));
      assert t[..|q|] == q;
      assert t[|q| + 1..] == Serialize(qs[1..]);
      SplitSerialize(qs[1..]);
    }
  }
}
