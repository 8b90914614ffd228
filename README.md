# Song-Search: UDS encoding and query chunking, in Dafny

This project models the two core components of Song-Search.

**The audio pipeline (`audioParser.py`).** It does four things:

- It trims a mono waveform to `maxLen * 44100` samples.
- It reduces the waveform block by block, with blocks of `reducer` samples. It uses one of two strategies:
  - *Prev* holds each block's first sample across the block.
  - *Avg* writes `reducer` copies of an accumulated average per block.
- It encodes the reduced data as a UDS string: `'B'` first, then `'S'`ame, `'D'`own or `'U'`p per block, using a relative-percentage test.
- It builds the reconstructed waveform, `dataUDS`, next to that string.

**The query generator (`queryGenerator.py`).** It cuts a UDS text into consecutive chunks. The chunks have a fixed length `split`, or random lengths in [1, 15]. It keeps every other chunk, starting with the first, and writes the kept chunks one per line.

Both classes are modelled as Dafny classes whose fields are the source's lists. Their methods keep the source's loops. Each method is proved against a pure specification function:

| specification function | what it computes |
|---|---|
| `Reduction.PrevReduced` | the Prev reducer's output |
| `Reduction.AvgReduced` | the Avg reducer's output |
| `Encoding.Encode` | the encoder's run |
| `Chunking.Queries` | the queries kept from the text |
| `Chunking.Serialize` | the written query file |

The lemmas beside these functions state what the source promises. They give closed forms, lengths, the alphabet, the error conditions, bounds and a read-back round trip.

Modules:

- `Util` (`util.dfy`): `Repeat`, `Sum`, ceil-division (`NumBlocks`, `Span`), and Euclidean-division lemmas.
- `Reduction` (`reduction.dfy`): the Prev and Avg reducers as functions of the trimmed samples.
- `Encoding` (`encoding.dfy`): the percentage test and the UDS encoder as functions of the reduced data.
- `AudioPipeline` (`audio_parser.dfy`): class `AudioParser` with `ReadWavFile`, `ReduceWavFilePrev`, `ReduceWavFileAvg`, `ProduceUdsFile` and `Operations`.
- `Chunking` (`chunking.dfy`): chunking, alternation, serialisation and their lemmas.
- `QueryGeneration` (`query_generator.dfy`): class `QueryGenerator` with `ReadFile`, `GenerateQueries`, `WriteFile` and `Operations`.

How the source is mapped:

- **Numbers.** Samples are `int`. Reduced values and levels are exact `real`s: `EPS` is `1/100000` and `/` is exact division. Python's `i % reducer` with `reducer >= 1` agrees with Dafny's `%` on the non-negative indices used.
- **Exceptions.** The source raises in three places: `dataWhole[i]` past the end of the file, `dataReduced[0]` on an empty list, and division by `r[i] + EPS == 0`. Each is modelled as `ok == false`, and the fields hold what the source had already appended when it raised.
- **Random lengths.** `random.randint(1, 15)` is replaced by an input sequence `draws` of values in [1, 15], one consumed per chunk.

Where the code differs from what its own comments describe, the model follows the code:

- **Avg window.** The comment on `reduceWavFileAvg` (audioParser.py:97-98) describes "the average of self.reducer numbers", which suggests each block `data[k*b .. k*b+b-1]` is averaged. The code adds the block-start sample to the samples accumulated since the previous block start. So block 0 holds `data[0] / b`, and block k >= 1 holds `(data[k*b-b+1] + ... + data[k*b]) / b`. Samples after the last block start are never emitted (`Reduction.AvgReducedShape`, `Reduction.AvgKeptInside`).
- **Avg length.** The argument comment (audioParser.py:10) describes the reduced length as `length / reduceBy`, and the Prev reducer keeps the input length. Avg emits `b * ceil(n / b)` values, which is longer than `n` when `b` does not divide `n`. For example, 5 samples with `b = 2` give 6 values (`Reduction.AvgReducedLength`).
- **Symbol for block 0.** The header comment of `produceUDSfile` (audioParser.py:48-50) describes each symbol as a comparison with the previous sample, so after `'B'` one would expect one symbol per later block. The code also emits a symbol for block 0, comparing `r[0]` with `r[0] + EPS`. So `[10, 10, 10, 10]` with `b = 2` gives `"BSS"`, and `[100, 50]` with `b = 1` gives `"BSD"`. The code's `prevLevel` keeps the EPS offset (`Encoding.ExampleSameBlocks`, `Encoding.ExampleDrop`).

## Model

| member | source | states |
|---|---|---|
| `AudioPipeline.AudioParser.constructor` | audioParser.py:15-25 | stores reducer, percentage threshold, maximum length and method id; rate is 0 and the four lists start empty |
| `AudioPipeline.Trim` | audioParser.py:43-45 | the samples kept are a prefix of the file, maxLen*44100 long, or the whole file when it is shorter (none for a negative maximum) |
| `AudioPipeline.AudioParser.ReadWavFile` | audioParser.py:41-45 | the rate is the file's; data gains exactly the first maxLen*44100 samples (the file's own rate is ignored); it succeeds iff the file holds that many, and on failure all the file's samples have been appended |
| `AudioPipeline.AudioParser.Operations` | audioParser.py:29-36 | method 1 runs Avg and any other id runs Prev and is rewritten to 0; the lists then hold the reduced data and its encoding; a failed read leaves the later lists untouched; success iff the read and the encoder both succeed |
| `AudioPipeline.AudioParser.ReduceWavFilePrev` | audioParser.py:87-94 | dataReduced gains exactly PrevReduced(data), whose values Reduction.PrevReducedAt gives |
| `AudioPipeline.AudioParser.ReduceWavFileAvg` | audioParser.py:100-110 | dataReduced gains exactly AvgReduced(data), whose length and values Reduction.AvgReducedShape gives |
| `AudioPipeline.AppendCopies` | audioParser.py:106-107 | the inner append loop adds exactly n copies of the value at the end |
| `AudioPipeline.AudioParser.ProduceUdsFile` | audioParser.py:51-77 | uds and dataUds gain exactly the encoder's symbols ('B' first) and levels; ok iff the encoder completes; on success the text written is the symbol list |
| `AudioPipeline.AudioParser.AppendBlock` | audioParser.py:58-70 | one block appends the classified symbol and reducer copies of the held or the new level |
| `AudioPipeline.AudioParser.UdsText` | audioParser.py:75-76 | the text file has one character per UDS symbol, in order, with no separator |
| `Reduction.PrevReduced` | audioParser.py:89-94 | Prev emits one value per input sample |
| `Reduction.PrevReducedSnoc` | audioParser.py:90-94 | one more sample appends the sample itself at a block start and repeats the previous output value elsewhere |
| `Reduction.PrevReducedAt` | audioParser.py:88-94 | output i equals data[i - i % b], the first sample of its block, so block-start samples are kept |
| `Reduction.PrevReducedBlock` | audioParser.py:88-94 | every position of block k holds sample k*b |
| `Reduction.AvgWalk` | audioParser.py:100-110 | the Avg loop from sample i with running sum acc: a block start appends b copies of (acc + sample)/b and resets the sum, any other sample is added to the sum |
| `Reduction.AvgReduced` | audioParser.py:100-110 | the Avg loop from the first sample with a zero sum and nothing written |
| `Reduction.AvgWalkPrefix` | audioParser.py:100-110 | the loop only appends to dataReduced: values already in the list stay in front of everything it writes |
| `Reduction.BlockStartTotal` | audioParser.py:103-105 | at a block start the running sum plus the current sample is the window of up to b samples ending at that start |
| `Reduction.MeansAtBlockStart` | audioParser.py:103-108 | a block start appends b copies of its window mean, all at positions of that block |
| `Reduction.AvgKeptAtStart` | audioParser.py:103-108 | a block-start sample keeps the loop invariant: output covers ceil(i/b)*b positions of window means, and the running sum is reset |
| `Reduction.AvgKeptInside` | audioParser.py:109-110 | any other sample keeps the loop invariant: nothing is written, and the running sum holds the samples after the last block start |
| `Reduction.AvgWalkShape` | audioParser.py:100-110 | from any state that keeps the invariant, the loop ends with ceil(n/b)*b values, each the window mean of its block |
| `Reduction.AvgReducedShape` | audioParser.py:100-110 | Avg emits ceil(n/b)*b values; value j is (data[s-b+1] + ... + data[s]) / b for its block start s (data[0]/b for block 0) |
| `Reduction.AvgReducedLength` | audioParser.py:102-108 | Avg output is as long as the input iff b divides n, otherwise longer by less than b |
| `Reduction.Reduced` | audioParser.py:31-35 | the reducer operations() runs: Avg for method 1, Prev for any other value |
| `Reduction.ReducedLength` | audioParser.py:31-35 | the dispatched reducer keeps the length iff it is Prev or b divides n, and never shortens |
| `Encoding.PercentDiff` | audioParser.py:58 | perDiff is never negative, and is zero exactly when prevLevel equals temp |
| `Encoding.Classify` | audioParser.py:57-68 | the symbol is S, D or U; D only when the level fell and U only when it did not |
| `Encoding.Level` | audioParser.py:58-70 | the level written is prevLevel exactly when the difference is under minDiff percent (an S block), and temp otherwise |
| `Encoding.EncodeFrom` | audioParser.py:55-72 | the while loop from index i with the given prevLevel: at most one symbol per remaining block, stopping with ok false on a zero divisor |
| `Encoding.Encode` | audioParser.py:52-72 | produceUDSfile's run: fails on an empty list; otherwise 'B' and then the loop from index 0 with prevLevel r[0] |
| `Encoding.BlockPrev` | audioParser.py:52-71 | the prevLevel block k is compared with: r[0] for block 0, r[k*b-b] + EPS for later blocks |
| `Encoding.ClassifySame` | audioParser.py:58-68 | 'S' iff abs(prev - temp)*100 < minDiff*abs(temp); otherwise 'D' iff prev > temp, else 'U' |
| `Encoding.EncodeFromStep` | audioParser.py:55-72 | one loop iteration emits the block's symbol and b levels, then continues from i+b with prevLevel = temp |
| `Encoding.EncodeLoopStep` | audioParser.py:55-72 | appending one block's output keeps "written so far + still to write" equal to the whole run |
| `Encoding.EncodeFromShape` | audioParser.py:55-72 | b levels per symbol, symbols in {S, D, U}, one symbol per remaining block when the loop completes |
| `Encoding.EncodeFromAt` | audioParser.py:55-72 | block k is compared with the previous block's r+EPS (or the starting prevLevel), classified, and its b levels are Level's value |
| `Encoding.EncodeFromLater` | audioParser.py:71-72 | block k >= 1 is block k-1 of the loop from i+b with prevLevel the first block's r+EPS |
| `Encoding.EncodeFromOk` | audioParser.py:56-58 | the loop completes iff no block start has r[p] + EPS == 0 |
| `Encoding.EncodeShape` | audioParser.py:52-72 | empty input fails with nothing written; otherwise 'B' first, then S/D/U only, b levels per block, and on success 1 + ceil(n/b) symbols and b*ceil(n/b) levels |
| `Encoding.EncodeOk` | audioParser.py:52-58 | the encoder completes iff the input is non-empty and every block start has r[p] + EPS != 0 |
| `Encoding.EncodeBlock` | audioParser.py:52-72 | symbol k+1 and block k's levels follow the percentage test against BlockPrev (r[0], then the previous block's r+EPS) |
| `Encoding.EqualBlocks` | audioParser.py:57-71 | two equal consecutive block values after the first give 'S' when minDiff > 0 and 'U' otherwise |
| `Encoding.ZeroFirstBlock` | audioParser.py:52-68 | when r[0] == 0 the first block is 'S' only for minDiff > 100, else 'U' |
| `Encoding.ExampleSameBlocks` | audioParser.py:51-72 | [10,10,10,10] with b=2 and 5% encodes to "BSS" with levels [10, 10, 10.00001, 10.00001] |
| `Encoding.ExampleDrop` | audioParser.py:51-72 | [100,50] with b=1 and 10% encodes to "BSD" with levels [100, 50.00001] |
| `QueryGeneration.QueryGenerator.constructor` | queryGenerator.py:16-28 | stores the split length and the random flag; queries and contents start empty |
| `QueryGeneration.QueryGenerator.ReadFile` | queryGenerator.py:59-62 | fileContents is the text read |
| `QueryGeneration.QueryGenerator.GenerateQueries` | queryGenerator.py:38-55 | queries gains exactly the chunks at even positions of the text, cut with split or with the draws; fixed mode keeps split, random mode leaves it at the last length drawn |
| `QueryGeneration.TakeChunk` | queryGenerator.py:44-47 | the inner loop collects exactly the characters i .. i+len-1 that exist, a non-empty word of at most len characters unless i is at the end |
| `QueryGeneration.QueryGenerator.WriteFile` | queryGenerator.py:67-71 | the file text is the serialisation of the queries |
| `QueryGeneration.QueryGenerator.Operations` | queryGenerator.py:32-35 | read, generate and write: the text written serialises the queries of the text read |
| `Chunking.Queries` | queryGenerator.py:38-55 | the queries generateQueries collects: the chunks at even positions |
| `Chunking.Chunks` | queryGenerator.py:41-54 | a text of n characters has at most n chunks, and a non-empty one has at least one |
| `Chunking.ChunksStep` | queryGenerator.py:44-54 | the chunks from position i are the chunk at i followed by the chunks after it |
| `Chunking.ChunksFromStep` | queryGenerator.py:41-54 | the walk from position i takes lens[iter] >= 1 characters, then walks on with the next length |
| `Chunking.ChunksFromRest` | queryGenerator.py:41-54 | the walk from position i with draw iter chunks the rest of the text with the remaining lengths |
| `Chunking.ChunksFrom` | queryGenerator.py:41-54 | the chunks the loop still walks through from position i with length number iter |
| `Chunking.Walk` | queryGenerator.py:40-55 | the whole loop run from position i, length number iter and bit, with the queries collected so far: the queries it ends with and the lengths it drew |
| `Chunking.Alternate` | queryGenerator.py:49-52 | keeps a chunk when bit is 0 and toggles bit after every chunk |
| `Chunking.AlternateCons` | queryGenerator.py:49-52 | a chunk is kept iff bit is 0, and bit toggles for the next chunk |
| `Chunking.KeepStep` | queryGenerator.py:49-52 | appending a kept chunk keeps "queries so far + still to keep" equal to the final queries |
| `Chunking.WalkChunks` | queryGenerator.py:40-55 | the loop from any point keeps every other remaining chunk and draws one length per chunk |
| `Chunking.WalkQueries` | queryGenerator.py:38-55 | the whole loop appends exactly the queries and draws exactly one length per chunk |
| `Chunking.ChunksConcat` | queryGenerator.py:44-54 | concatenating all chunks, kept and skipped, in order gives back the text |
| `Chunking.ChunkSize` | queryGenerator.py:44-54 | every chunk is non-empty and at most its length, and only the last can be shorter |
| `Chunking.FixedChunkCount` | queryGenerator.py:41-54 | a fixed split gives ceil(n/split) chunks |
| `Chunking.FixedChunkAt` | queryGenerator.py:41-54 | with a fixed split, chunk m is text[m*split .. min(m*split+split, n)] |
| `Chunking.AlternateEven` | queryGenerator.py:40-52 | the alternation starting with keep keeps items 0, 2, 4, ..., ceil(count/2) of them |
| `Chunking.QueriesAreEvenChunks` | queryGenerator.py:40-54 | query m is chunk 2m, and there are ceil(#chunks/2) queries |
| `Chunking.FixedQueries` | queryGenerator.py:41-54 | fixed split: ceil(ceil(n/split)/2) queries, query m is text[2m*split .. min(2m*split+split, n)], none for an empty text |
| `Chunking.RandomQueries` | queryGenerator.py:42-47 | with draws in [1, 15] every query has 1 to 15 characters |
| `Chunking.Example` | queryGenerator.py:38-54 | "BSUDS" with split 2 gives chunks "BS", "UD", "S" and queries "BS", "S" |
| `Chunking.Serialize` | queryGenerator.py:69-70 | the text writeFile writes: each query followed by a newline |
| `Chunking.SerializeSnoc` | queryGenerator.py:69-70 | writing one more query appends it and a newline |
| `Chunking.LineEnd` | queryGenerator.py:69-70 | the reader stops at the first newline: none before it, and a newline there unless it is the end |
| `Chunking.LineEndAfter` | queryGenerator.py:69-70 | the first newline after a newline-free query is the one written after it |
| `Chunking.SplitSerialize` | queryGenerator.py:69-70 | reading the written file back line by line gives the queries again when none contains a newline |

## Left out

- File I/O is left out: `wavfile.read`, `wavfile.write`, `np.asarray`, `open`/`write`/`close` and the `print` calls. The samples read and the file rate are parameters, and the texts written are results.
- `writeWavFile` and `writeUDSwav` are left out: they only serialise `dataReduced` and `dataUDS`, which the model states.
- Output file names built with `%d` are left out: string formatting only.
- IEEE float rounding of `float()`, `/` and `+ 0.00001` is not modelled; values are exact reals.
- The int16 sample width is not modelled; samples are unbounded integers. So the model cannot show the wrap-around of the Avg running sum: `avg += self.data[i]` (audioParser.py:104, 110) adds samples that may be numpy int16 values, and under NumPy's integer promotion a block's sum can then overflow that width before the division.
- Python 3 true division is assumed for `avg / self.reducer`.
- `random.randint(1, 15)` is replaced by an input sequence of draws in [1, 15]. It is not a model of the generator.
- Both constructors only initialise the fields. The source constructors also call `operations()`; the model runs the pipeline through a separate `Operations` method so that it can return the written text.
- `QueryGeneration.QueryGenerator.constructor` takes `split` as an int. The source parses `splitVal` with `int()` and checks for `"rand"` (queryGenerator.py:21-25), but line 26 then stores the raw argument. Fixed mode therefore works only when the caller passes an int, and the parsing is not modelled.
- `AudioPipeline.AudioParser.ReduceWavFilePrev` requires `reducer >= 1`, a positive block size. Not modelled: the ZeroDivisionError a zero reducer raises, and the behaviour a negative reducer has under Python's sign-following `%`.
- `AudioPipeline.AudioParser.ReduceWavFileAvg` requires `reducer >= 1`. For a zero or negative reducer, neither the error nor the empty inner `range` is modelled.
- `AudioPipeline.AudioParser.ProduceUdsFile` requires `reducer >= 1`. With a zero reducer the source loops forever. With a negative one it walks backwards through Python's negative indices until an IndexError; that is not modelled.
- `AudioPipeline.AudioParser.Operations` requires `reducer >= 1`, for the same reasons.
- `QueryGeneration.QueryGenerator.GenerateQueries` requires `split >= 1` in fixed mode, because with `split <= 0` the source loop never terminates on any non-empty text (on an empty text it returns no queries, which the model does not cover). In random mode it requires at least one draw per character, which is at least as many as the loop can consume.
- `AudioPipeline.AudioParser.ReduceWavFileAvg` states its output through `AvgReduced`; its length and values are stated in `Reduction.AvgReducedShape` rather than in the method's own contract.
