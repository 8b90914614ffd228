// The queryGenerator class: reads a UDS text, cuts it into queries and
// writes them one per line. The file read and write are replaced by a
// parameter and a result, and random.randint by a sequence of draws.
module QueryGeneration {
  import opened Util
  import opened Chunking

  /** The inner loop of generateQueries: the characters at positions
      i .. i+len-1 that exist in `c`. */
  method TakeChunk(c: string, i: nat, len: int) returns (word: string)
    requires i <= |c| && len >= 1
    ensures word == c[i..Min(i + len, |c|)]
    ensures 1 <= |word| <= len || i == |c|
  {
    word := "";
    var j := i;
    while j < i + len
      invariant i <= j <= i + len
      invariant word == c[i..Min(j, |c|)]
    {
      if j < |c| {
        word := word + [c[j]];
      }
      j := j + 1;
    }
  }

  class QueryGenerator {
    var split: int
    const randFlag: bool
    var queries: seq<string>
    var fileContents: string

    /** `splitVal` is stored as given (fixed mode needs it to be a positive
        length); `rand` selects random mode. */
    constructor (splitVal: int, rand: bool)
      ensures split == splitVal && randFlag == rand
      ensures queries == [] && fileContents == []
    {
      split := splitVal;
      randFlag := rand;
      queries := [];
      fileContents := [];
    }

    /** readFile: the text of the UDS file. */
    method ReadFile(contents: string)
      modifies this`fileContents
      ensures fileContents == contents
    {
      fileContents := contents;
    }

    /** The chunk lengths one run uses: the draws in random mode, `split`
        for every chunk in fixed mode. */
    function Lengths(draws: seq<int>): seq<int>
      reads this
    {
      if randFlag then draws else FixedLengths(split, |fileContents|)
    }

    /** generateQueries: walks the text in chunks, in random mode drawing a
        new `split` per chunk, and appends every other chunk (the first, the
        third, ...) to `queries`. */
    method GenerateQueries(draws: seq<int>)
      requires randFlag ==> ValidDraws(draws, |fileContents|)
      requires !randFlag ==> split >= 1
      modifies this`queries, this`split
      ensures ValidLengths(old(Lengths(draws)), |fileContents|)
      ensures queries == old(queries) + Queries(fileContents, old(Lengths(draws)))
      ensures !randFlag || fileContents == [] ==> split == old(split)
      ensures randFlag && fileContents != [] ==>
                split == draws[|Chunks(fileContents, draws)| - 1]
    {
      var c := fileContents;
      ghost var lens := Lengths(draws);
      ghost var final := Walk(c, lens, 0, 0, true, queries);
      WalkQueries(c, lens, queries);
      var iter := 0; // how many values have been drawn from the generator
      var word := "";
      var bit, i := 0, 0;
      while i < |c|
        invariant iter <= i && iter <= |lens| && (bit == 0 || bit == 1)
        invariant split == if randFlag && iter > 0 then draws[iter - 1] else old(split)
        invariant Walk(c, lens, i, iter, bit == 0, queries) == final
      {
        if randFlag {
          split := draws[iter];
        }
        var len := split;
        assert lens[iter] == len;
        word := TakeChunk(c, i, len);
        if bit == 0 {
          queries := queries + [word];
        }
        bit := 1 - bit; // abs(bit - 1)
        word := "";
        i := i + len;
        iter := iter + 1;
      }
    }

    /** writeFile: every query followed by a newline. */
    method WriteFile() returns (text: string)
      ensures text == Serialize(queries)
    {
      text := "";
      var k := 0;
      while k < |queries|
        invariant 0 <= k <= |queries|
        invariant text == Serialize(queries[..k])
      {
        assert queries[..k + 1] == queries[..k] + [queries[k]];
        SerializeSnoc(queries[..k], queries[k]);
        text := text + queries[k] + "\n";
        k := k + 1;
      }
      assert queries[..k] == queries;
    }

    /** operations: read, generate the queries, and return the text written. */
    method Operations(contents: string, draws: seq<int>) returns (text: string)
      requires randFlag ==> ValidDraws(draws, |contents|)
      requires !randFlag ==> split >= 1
      modifies this
      ensures fileContents == contents
      ensures var lens := if randFlag then draws else FixedLengths(old(split), |contents|);
        ValidLengths(lens, |contents|) &&
        queries == old(queries) + Queries(contents, lens)
      ensures text == Serialize(queries)
      ensures !randFlag || contents == [] ==> split == old(split)
      ensures randFlag && contents != [] ==> split == draws[|Chunks(contents, draws)| - 1]
    {
      ReadFile(contents);
      GenerateQueries(draws);
      text := WriteFile();
    }
  }
}
