/**
  mp3_wav.c: decode an MP3 file once and write each requested time range
  as a 32-bit float WAV file named `<output>_slice_<i>.wav`.
 */
module Mp3Wav {
  import opened Bytes
  import opened Options
  import opened FileSystem
  import opened Wav
  import opened Mp3Decode
  import opened Text
  import opened Slicing

  /** `MAX_SLICES`. */
  const MaxSlices: nat := 100

  /** Size of the `output_filename` buffer. */
  const FileNameSize: nat := 512

  /** `info`: the rate and channel count `slice_mp3_to_wav` reports. */
  datatype Info = Info(sr: int, channels: int)

  /**
    `get_lengths`: the start and end lists are split on "," in step; pair
    `i` is `(atof(start_i), atof(end_i))`; it stops at the shorter list or
    after `MAX_SLICES` pairs, leaving the rest of `lengths` alone.
   */
  method GetLengths(starts: string, ends: string, lengths: array<(real, real)>) returns (count: nat)
    requires lengths.Length >= MaxSlices
    modifies lengths
    ensures count == Min(Min(|Tokens(starts)|, |Tokens(ends)|), MaxSlices)
    ensures lengths[..count] == ParsePairs(Tokens(starts)[..count], Tokens(ends)[..count])
    ensures lengths[count..] == old(lengths[count..])
  {
    count := 0;
    var startToken := Strtok(starts);
    var endToken := Strtok(ends);
    ScannedStart(starts);
    ScannedStart(ends);
    while startToken.Some? && endToken.Some? && count < MaxSlices
      invariant count <= MaxSlices
      invariant Zipped(starts, ends, count, startToken, endToken, lengths[..count])
      invariant lengths[count..] == old(lengths[count..])
    {
      var (start, restStarts) := startToken.value;
      var (end, restEnds) := endToken.value;
      ghost var before := lengths[..];
      lengths[count] := (Atof(start), Atof(end));
      UpdateSplits(before, count, lengths[count]);
      ZippedStep(starts, ends, count, startToken, endToken, before[..count]);
      count := count + 1;
      startToken := Strtok(restStarts);
      endToken := Strtok(restEnds);
    }
    ZippedDone(starts, ends, count, startToken, endToken, lengths[..count], MaxSlices);
  }

  /**
    The loop's view of two `strtok_r` scans in step: `count` tokens of each
    list consumed, the tokens still to come, and `ls` holding the pairs
    parsed so far.
   */
  ghost predicate Zipped(starts: string, ends: string, count: nat,
                         startToken: Option<(string, string)>, endToken: Option<(string, string)>,
                         ls: seq<(real, real)>)
  {
    && Scanned(starts, count, startToken)
    && Scanned(ends, count, endToken)
    && ls == ParsePairs(Tokens(starts)[..count], Tokens(ends)[..count])
  }

  lemma ZippedStep(starts: string, ends: string, count: nat,
                   startToken: Option<(string, string)>, endToken: Option<(string, string)>,
                   ls: seq<(real, real)>)
    requires startToken.Some? && endToken.Some?
    requires Zipped(starts, ends, count, startToken, endToken, ls)
    ensures Zipped(starts, ends, count + 1, Strtok(startToken.value.1), Strtok(endToken.value.1),
                   ls + [(Atof(startToken.value.0), Atof(endToken.value.0))])
  {
    ScannedNext(starts, count, startToken);
    ScannedNext(ends, count, endToken);
    ParsePairsSnoc(Tokens(starts), Tokens(ends), count);
  }

  lemma ZippedDone(starts: string, ends: string, count: nat,
                   startToken: Option<(string, string)>, endToken: Option<(string, string)>,
                   ls: seq<(real, real)>, cap: nat)
    requires Zipped(starts, ends, count, startToken, endToken, ls)
    requires count <= cap && (startToken.None? || endToken.None? || count == cap)
    ensures count == Min(Min(|Tokens(starts)|, |Tokens(ends)|), cap)
    ensures ls == ParsePairs(Tokens(starts)[..count], Tokens(ends)[..count])
  {
    if startToken.None? {
      ScannedDone(starts, count, startToken);
    }
    if endToken.None? {
      ScannedDone(ends, count, endToken);
    }
  }

  /** Storing `x` at `k` extends the prefix by `x` and leaves what follows alone. */
  lemma UpdateSplits<T>(s: seq<T>, k: nat, x: T)
    requires k < |s|
    ensures s[k := x][..k + 1] == s[..k] + [x]
    ensures s[k := x][k + 1..] == s[k + 1..] == s[k..][1..]
  {
  }

  /** `snprintf(output_filename, 512, "%s_slice_%d.wav", output_fn, n)`. */
  function SliceFileName(outputFn: string, n: nat): (r: string)
    ensures |r| < FileNameSize
    ensures |outputFn| + |NatToString(n)| + 11 < FileNameSize ==> r == outputFn + "_slice_" + NatToString(n) + ".wav"
  {
    Truncate(outputFn + "_slice_" + NatToString(n) + ".wav", FileNameSize)
  }

  /** Slice `i` of the list (counting from 0) goes to the file numbered `i + 1`. */
  function SliceNames(outputFn: string, count: nat): (names: seq<string>)
    ensures |names| == count
  {
    seq(count, i requires 0 <= i < count => SliceFileName(outputFn, i + 1))
  }

  /** Two slices never share a file while the names fit the buffer. */
  lemma SliceFileNamesDistinct(outputFn: string, m: nat, n: nat)
    requires m != n
    requires |outputFn| + |NatToString(m)| + 11 < FileNameSize
    requires |outputFn| + |NatToString(n)| + 11 < FileNameSize
    ensures SliceFileName(outputFn, m) != SliceFileName(outputFn, n)
  {
    var x, y := NatToString(m), NatToString(n);
    var p := outputFn + "_slice_";
    if SliceFileName(outputFn, m) == SliceFileName(outputFn, n) {
      var u, v := p + x + ".wav", p + y + ".wav";
      assert u == v;
      assert |x| == |y|;
      assert x == u[|p|..|p| + |x|];
      assert y == v[|p|..|p| + |y|];
      NatToStringValue(m);
      NatToStringValue(n);
      assert false;
    }
  }

  /**
    While every numbered name fits the 512-byte buffer, slice `i + 1` of a
    `SliceMp3ToWav` run ends up holding exactly its own WAV file when its
    range passes the check, its buffer can be allocated, its file can be
    created and the disk, as the earlier slices left it, has room: no other
    slice of the run writes to the same name.
   */
  lemma SliceOutput(d: DiskState, readOnly: set<string>, a: Audio, ranges: seq<(real, real)>,
                    outputFn: string, canAlloc: nat -> bool, i: nat)
    requires a.Valid() && i < |ranges|
    requires forall n :: 1 <= n <= |ranges| ==> |outputFn| + |NatToString(n)| + 11 < FileNameSize
    requires SliceValid(ranges[i].0, ranges[i].1, a.decoded, a.sr)
    ensures var (lo, hi) := SliceBounds(ranges[i].0, ranges[i].1, a.decoded, a.sr, a.channels);
      && lo <= hi <= |a.pcm| && a.channels > 0
      && var b := SliceFile(Float32, a.pcm, lo, hi, a.channels, a.sr);
      && var names := SliceNames(outputFn, |ranges|);
      && var before := SliceAll(d, readOnly, Float32, a, ranges[..i], names[..i], canAlloc);
      && var r := SliceAll(d, readOnly, Float32, a, ranges, names, canAlloc);
      && var name := outputFn + "_slice_" + NatToString(i + 1) + ".wav";
      canAlloc(SliceBytes(Float32, hi - lo)) && name !in readOnly && |b| <= before.free ==>
        name in r.files && r.files[name] == b
  {
    var names := SliceNames(outputFn, |ranges|);
    assert names[i] == outputFn + "_slice_" + NatToString(i + 1) + ".wav";
    forall j | i < j < |names| ensures names[j] != names[i] {
      SliceFileNamesDistinct(outputFn, j + 1, i + 1);
    }
    SliceAllFinal(d, readOnly, Float32, a, ranges, names, canAlloc, i);
  }

  /**
    `slice_mp3_to_wav`: read and decode the whole input, then, for each
    pair in `lengths[..length]`, write the slice if its range passes the
    check and skip it otherwise. An unreadable input or a failed buffer
    allocation returns an all-zero `Info` and writes nothing; otherwise the
    `Info` holds the rate and channel count of the last frame that yielded
    samples.
   */
  method SliceMp3ToWav(disk: Disk, input: Option<seq<byte>>, outputFn: string,
                       lengths: array<(real, real)>, length: nat, canAlloc: nat -> bool, decode: Decoder)
    returns (info: Info)
    requires DecoderOk(decode) && length <= lengths.Length
    modifies disk
    ensures input.None? ==> info == Info(0, 0) && disk.State() == old(disk.State())
    ensures input.Some? && !canAlloc(PcmBufferBytes(|input.value|, Float32)) ==>
      info == Info(0, 0) && disk.State() == old(disk.State())
    ensures input.Some? && canAlloc(PcmBufferBytes(|input.value|, Float32)) ==>
      var a := DecodeAll(decode, input.value);
      && info == Info(a.sr, a.channels)
      && disk.State() == SliceAll(old(disk.State()), disk.readOnly, Float32, a, lengths[..length],
                                  SliceNames(outputFn, length), canAlloc)
  {
    if input.None? {
      return Info(0, 0);
    }
    var buf := input.value;
    var maxPcm := MaxPcmSamples(|buf|);
    if !canAlloc(PcmBufferBytes(|buf|, Float32)) {
      return Info(0, 0);
    }
    var fullPcm := AllocZeroed(2 * maxPcm);
    var decoded, channels, sr, _ := DecodeFrames(decode, buf, maxPcm, fullPcm);
    info := Info(sr, channels);
    ghost var a := DecodeAll(decode, buf);
    assert a == Audio(fullPcm[..], decoded, channels, sr);
    ghost var d0 := disk.State();
    ghost var names := SliceNames(outputFn, length);
    for i := 0 to length
      invariant fullPcm[..] == a.pcm
      invariant disk.State() == SliceAll(d0, disk.readOnly, Float32, a, lengths[..length][..i], names[..i], canAlloc)
    {
      SliceAllSnoc(d0, disk.readOnly, Float32, a, lengths[..length], names, canAlloc, i);
      WriteSlice(disk, Float32, fullPcm, decoded, channels, sr, lengths[i], SliceFileName(outputFn, i + 1), canAlloc);
    }
    assert lengths[..length][..length] == lengths[..length];
    assert names[..length] == names;
  }
}
