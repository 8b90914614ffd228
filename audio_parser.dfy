// The audioParser class: trims a waveform, reduces it block by block and
// encodes it as a UDS ("Up, Down, Same") symbol string plus a reconstructed
// waveform. The file reads and writes are replaced by parameters and results:
// the model keeps the sequences that the source hands to them.
module AudioPipeline {
  import opened Util
  import opened Reduction
  import opened Encoding

  /** The sample rate the trim assumes, whatever the file's own rate is. */
  const SAMPLE_RATE: int := 44100

  /** The samples readWavFile copies from the file: the first maxLen * 44100
      of them, or all of them when the file is shorter (the copy loop then
      fails after copying them). */
  function Trim(whole: seq<int>, maxLen: int): (t: seq<int>)
    ensures t <= whole
    ensures |t| == Min(Max(maxLen * SAMPLE_RATE, 0), |whole|)
  {
    var n := maxLen * SAMPLE_RATE;
    whole[..Min(if n < 0 then 0 else n, |whole|)]
  }

  /** `for x in range(0, n): lst.append(v)` */
  method AppendCopies(lst: seq<real>, v: real, n: int) returns (res: seq<real>)
    requires n >= 0
    ensures res == lst + Repeat(v, n)
  {
    res := lst;
    var x := 0;
    while x < n
      invariant 0 <= x <= n
      invariant res == lst + Repeat(v, x)
    {
      res := res + [v];
      x := x + 1;
    }
  }

  class AudioParser {
    const reducer: int
    const maxLen: int
    const minDiff: real
    var rate: int
    var reduceMethod: int
    var data: seq<int>
    var dataReduced: seq<real>
    var uds: seq<char>
    var dataUds: seq<real>

    /** Stores the settings and starts with empty lists; running the pipeline
        is the separate method Operations. */
    constructor (reduceBy: int, percentDiff: real, maximum: int, methodId: int)
      ensures reducer == reduceBy && minDiff == percentDiff && maxLen == maximum
      ensures reduceMethod == methodId && rate == 0
      ensures data == [] && dataReduced == [] && uds == [] && dataUds == []
    {
      reducer := reduceBy;
      maxLen := maximum;
      minDiff := percentDiff;
      rate := 0;
      reduceMethod := methodId;
      data := [];
      dataReduced := [];
      uds := [];
      dataUds := [];
    }

    /** readWavFile: appends the first maxLen * 44100 samples of the file to
        `data`. It fails (ok == false) when the file holds fewer samples,
        after having appended all the samples it has. */
    method ReadWavFile(fileRate: int, dataWhole: seq<int>) returns (ok: bool)
      modifies this`rate, this`data
      ensures rate == fileRate
      ensures ok == (maxLen * SAMPLE_RATE <= |dataWhole|)
      ensures data == old(data) + Trim(dataWhole, maxLen)
      ensures ok ==> |data| == |old(data)| + (if maxLen < 0 then 0 else maxLen * SAMPLE_RATE)
    {
      rate := fileRate;
      var numSamples := maxLen * SAMPLE_RATE;
      var i := 0;
      while i < numSamples
        invariant rate == fileRate
        invariant 0 <= i <= |dataWhole|
        invariant numSamples >= 0 ==> i <= numSamples
        invariant numSamples < 0 ==> i == 0
        invariant data == old(data) + dataWhole[..i]
      {
        if i >= |dataWhole| {
          // dataWhole[i] raises IndexError
          return false;
        }
        data := data + [dataWhole[i]];
        i := i + 1;
      }
      ok := true;
    }

    /** reduceWavFilePrev: every sample is replaced by the sample at the
        start of its block. */
    method ReduceWavFilePrev()
      requires reducer >= 1
      modifies this`dataReduced
      ensures dataReduced == old(dataReduced) + PrevReduced(data, reducer)
    {
      var prevI := 0;
      var i := 0;
      while i < |data|
        invariant 0 <= i <= |data|
        invariant dataReduced == old(dataReduced) + PrevReduced(data[..i], reducer)
        invariant i > 0 ==> 0 <= prevI < i && PrevReduced(data[..i], reducer)[i - 1] == data[prevI] as real
      {
        assert data[..i + 1] == data[..i] + [data[i]];
        PrevReducedSnoc(data[..i], data[i], reducer);
        if i % reducer == 0 {
          dataReduced := dataReduced + [data[i] as real];
          prevI := i;
        } else {
          dataReduced := dataReduced + [data[prevI] as real];
        }
        i := i + 1;
      }
      assert data[..i] == data;
    }

    /** reduceWavFileAvg: at each block start the running sum (plus the
        current sample) divided by `reducer` is appended `reducer` times. */
    method ReduceWavFileAvg()
      requires reducer >= 1
      modifies this`dataReduced
      ensures dataReduced == old(dataReduced) + AvgReduced(data, reducer)
    {
      ghost var final := AvgWalk(data, reducer, 0, 0.0, old(dataReduced));
      AvgWalkPrefix(data, reducer, 0, 0.0, old(dataReduced), []);
      assert old(dataReduced) + [] == old(dataReduced);
      var avg: real := 0.0;
      var i := 0;
      while i < |data|
        invariant 0 <= i <= |data|
        invariant AvgWalk(data, reducer, i, avg, dataReduced) == final
      {
        if i % reducer == 0 {
          avg := avg + data[i] as real;
          avg := avg / reducer as real;
          dataReduced := AppendCopies(dataReduced, avg, reducer);
          avg := 0.0;
        } else {
          avg := avg + data[i] as real;
        }
        i := i + 1;
      }
    }

    /** produceUDSfile: walks dataReduced with stride `reducer`, appends 'B'
        and then one symbol per block to `uds` and `reducer` levels per block
        to `dataUds`; the text written is the symbols with no separator. It
        fails (ok == false) on an empty dataReduced and on a zero divisor. */
    method ProduceUdsFile() returns (ok: bool, text: string)
      requires reducer >= 1
      modifies this`uds, this`dataUds
      ensures var run := Encode(dataReduced, reducer, minDiff);
        uds == old(uds) + run.uds && dataUds == old(dataUds) + run.dataUds && ok == run.ok
      ensures ok ==> text == uds
    {
      text := "";
      if |dataReduced| == 0 {
        // dataReduced[0] raises IndexError
        return false, text;
      }
      var r := dataReduced;
      var prevLevel := r[0];
      uds := uds + ['B'];
      ghost var run := Encode(r, reducer, minDiff);
      ghost var rest := EncodeFrom(r, reducer, minDiff, 0, prevLevel);
      assert uds + rest.uds == old(uds) + run.uds;
      var i := 0;
      while i < |r|
        invariant rest == EncodeFrom(r, reducer, minDiff, i, prevLevel)
        invariant uds + rest.uds == old(uds) + run.uds
        invariant dataUds + rest.dataUds == old(dataUds) + run.dataUds
        invariant rest.ok == run.ok
        decreases |r| - i
      {
        var temp := r[i];
        temp := temp + EPS;
        if temp == 0.0 {
          // the division by temp raises ZeroDivisionError
          return false, text;
        }
        EncodeLoopStep(r, reducer, minDiff, i, prevLevel, uds, dataUds);
        AppendBlock(prevLevel, temp);
        rest := EncodeFrom(r, reducer, minDiff, i + reducer, temp);
        prevLevel := temp;
        i := i + reducer;
      }
      ok := true;
      text := UdsText();
    }

    /** One block of produceUDSfile: the percentage test picks the symbol,
        and `reducer` copies of the held or the new level are appended. */
    method AppendBlock(prevLevel: real, temp: real)
      requires reducer >= 1 && temp != 0.0
      modifies this`uds, this`dataUds
      ensures uds == old(uds) + [Classify(prevLevel, temp, minDiff)]
      ensures dataUds == old(dataUds) + Repeat(Level(prevLevel, temp, minDiff), reducer)
    {
      var perDiff := Abs((prevLevel - temp) / temp * 100.0);
      if perDiff < minDiff {
        uds := uds + ['S'];
        dataUds := AppendCopies(dataUds, prevLevel, reducer);
      } else if prevLevel > temp {
        uds := uds + ['D'];
        dataUds := AppendCopies(dataUds, temp, reducer);
      } else {
        uds := uds + ['U'];
        dataUds := AppendCopies(dataUds, temp, reducer);
      }
    }

    /** The text file produceUDSfile writes: every UDS symbol in order, one
        character each, no separator. */
    method UdsText() returns (text: string)
      ensures |text| == |uds|
      ensures forall k :: 0 <= k < |uds| ==> text[k] == uds[k]
    {
      text := "";
      var k := 0;
      while k < |uds|
        invariant 0 <= k <= |uds|
        invariant text == uds[..k]
      {
        text := text + [uds[k]];
        k := k + 1;
      }
    }

    /** operations: read and trim, reduce with the method chosen by
        reduceMethod (1 = Avg, anything else = Prev, stored back as 0), then
        encode. A failing step ends the run and leaves the later lists as
        they were. */
    method Operations(fileRate: int, dataWhole: seq<int>) returns (ok: bool, udsText: string)
      requires reducer >= 1
      modifies this
      ensures rate == fileRate
      ensures data == old(data) + Trim(dataWhole, maxLen)
      ensures var readOk := maxLen * SAMPLE_RATE <= |dataWhole|;
        var reduced := Reduced(old(reduceMethod), data, reducer);
        var run := Encode(old(dataReduced) + reduced, reducer, minDiff);
        && reduceMethod == (if readOk && old(reduceMethod) != 1 then 0 else old(reduceMethod))
        && dataReduced == (if readOk then old(dataReduced) + reduced else old(dataReduced))
        && uds == (if readOk then old(uds) + run.uds else old(uds))
        && dataUds == (if readOk then old(dataUds) + run.dataUds else old(dataUds))
        && ok == (readOk && run.ok)
        && (ok ==> udsText == uds)
    {
      udsText := "";
      ok := ReadWavFile(fileRate, dataWhole);
      if !ok {
        return;
      }
      if reduceMethod == 1 {
        ReduceWavFileAvg();
      } else {
        reduceMethod := 0;
        ReduceWavFilePrev();
      }
      ok, udsText := ProduceUdsFile();
    }
  }
}
