/**
  main.c: decode an MP3 file into 16-bit PCM once, split comma-separated
  lists of output names, start times and end times, and write each time
  range as `<name>.wav`.
 */
module MainProgram {
  import opened Bytes
  import opened Options
  import opened FileSystem
  import opened Wav
  import opened Mp3Decode
  import opened Text
  import opened Slicing

  /** `MAX_SLICES`. */
  const MaxSlices: nat := 400

  /** `MAX_FN_LENGTH`: the size of one row of `output_strs` and of `output_str`. */
  const MaxFnLength: nat := 512

  /** Size of the `output_filename` buffer of a slice writer. */
  const OutputNameSize: nat := 780

  /**
    `audio_data`: samples per channel, channel count, the PCM buffer
    (`None` for the null pointer) and the rate.
   */
  datatype AudioData = AudioData(numSamples: nat, channels: nat, samples: Option<array<Sample>>, sampleRate: int)

  /** The audio as the slicers see it. */
  function View(audio: AudioData): Audio
    reads if audio.samples.Some? then {audio.samples.value} else {}
  {
    Audio(if audio.samples.Some? then audio.samples.value[..] else [],
          audio.numSamples, audio.channels, audio.sampleRate)
  }

  /** A well-formed `audio_data`: what `read_mp3` returns. */
  predicate AudioOk(audio: AudioData)
    reads if audio.samples.Some? then {audio.samples.value} else {}
  {
    && View(audio).Valid()
    && (audio.samples.None? ==> audio.sampleRate == 0)
  }

  /** `audio_data audio = {0}`. */
  function NoAudio(): AudioData {
    AudioData(0, 0, None, 0)
  }

  /**
    `read_mp3`: an unreadable input or a failed allocation of the
    `2 * max_pcm_samples`-element buffer gives the all-zero `audio_data`
    with a null buffer; otherwise the buffer holds what the decode loop
    left, `num_samples` is the samples per channel decoded, and channels
    and rate are those of the last frame that yielded samples.
   */
  method ReadMp3(input: Option<seq<byte>>, canAlloc: nat -> bool, decode: Decoder) returns (audio: AudioData)
    requires DecoderOk(decode)
    ensures AudioOk(audio)
    ensures input.None? ==> audio == NoAudio()
    ensures input.Some? && !canAlloc(PcmBufferBytes(|input.value|, Pcm16)) ==> audio == NoAudio()
    ensures input.Some? && canAlloc(PcmBufferBytes(|input.value|, Pcm16)) ==>
      && audio.samples.Some? && fresh(audio.samples.value)
      && View(audio) == DecodeAll(decode, input.value)
  {
    if input.None? {
      return NoAudio();
    }
    var buf := input.value;
    var maxPcm := MaxPcmSamples(|buf|);
    if !canAlloc(PcmBufferBytes(|buf|, Pcm16)) {
      return NoAudio();
    }
    var fullPcm := AllocZeroed(2 * maxPcm);
    var decoded, channels, sampleRate, _ := DecodeFrames(decode, buf, maxPcm, fullPcm);
    audio := AudioData(decoded, channels, Some(fullPcm), sampleRate);
    assert View(audio) == DecodeAll(decode, buf);
  }

  // ----- Output names -----

  /**
    `strcpy(output_strs[count], token)` as written: `None` when the token
    and its terminating NUL do not fit in the 512-byte row, so the copy
    runs past it.
   */
  function StrcpyRow(token: string): (r: Option<string>)
    ensures r.Some? <==> |token| < MaxFnLength
    ensures r.Some? ==> r.value == token
  {
    if |token| + 1 <= MaxFnLength then Some(token) else None
  }

  /** A 512-character name overruns its row. */
  lemma LongNameOverruns()
    ensures StrcpyRow(seq(512, _ => 'a')) == None
  {
  }

  /**
    The row a name token should leave: the token cut to 511 characters, as
    the `strncpy` into `output_str` does later. It always fits, and is the
    token itself whenever the unchecked copy stays inside the row.
   */
  function StoreRow(token: string): (r: string)
    ensures |r| < MaxFnLength && r <= token
    ensures StrcpyRow(token).Some? ==> r == StrcpyRow(token).value
  {
    Truncate(token, MaxFnLength)
  }

  function StoreRows(tokens: seq<string>): (rows: seq<string>)
    ensures |rows| == |tokens|
    ensures forall i :: 0 <= i < |tokens| ==> rows[i] == StoreRow(tokens[i])
  {
    seq(|tokens|, i requires 0 <= i < |tokens| => StoreRow(tokens[i]))
  }

  /**
    Where the three-list loop stands: the start, end and name scans in
    step after `count` tokens each; `ls` and `rows` (the arrays' contents)
    hold the pairs parsed and the rows stored so far, and past `count`
    still hold what `ls0` and `rows0` held on entry.
   */
  ghost predicate Loaded(outputFns: string, starts: string, ends: string, count: nat,
                         outToken: Option<(string, string)>, startToken: Option<(string, string)>,
                         endToken: Option<(string, string)>, ls: seq<(real, real)>, rows: seq<string>,
                         ls0: seq<(real, real)>, rows0: seq<string>)
  {
    && count <= |ls| == |ls0| && count <= |rows| == |rows0|
    && Scanned(starts, count, startToken)
    && Scanned(ends, count, endToken)
    && Scanned(outputFns, count, outToken)
    && ls[..count] == ParsePairs(Tokens(starts)[..count], Tokens(ends)[..count])
    && rows[..count] == StoreRows(Tokens(outputFns)[..count])
    && ls[count..] == ls0[count..] && rows[count..] == rows0[count..]
  }

  lemma LoadedStep(outputFns: string, starts: string, ends: string, count: nat,
                   outToken: Option<(string, string)>, startToken: Option<(string, string)>,
                   endToken: Option<(string, string)>, ls: seq<(real, real)>, rows: seq<string>,
                   ls0: seq<(real, real)>, rows0: seq<string>)
    requires outToken.Some? && startToken.Some? && endToken.Some?
    requires count < |ls| && count < |rows|
    requires Loaded(outputFns, starts, ends, count, outToken, startToken, endToken, ls, rows, ls0, rows0)
    ensures Loaded(outputFns, starts, ends, count + 1, Strtok(outToken.value.1), Strtok(startToken.value.1),
                   Strtok(endToken.value.1), ls[count := (Atof(startToken.value.0), Atof(endToken.value.0))],
                   rows[count := StoreRow(outToken.value.0)], ls0, rows0)
  {
    ScannedNext(starts, count, startToken);
    ScannedNext(ends, count, endToken);
    ScannedNext(outputFns, count, outToken);
    ParsePairsSnoc(Tokens(starts), Tokens(ends), count);
    StoreRowsSnoc(Tokens(outputFns), count);
    StoreAt(ls, ls0, count, (Atof(startToken.value.0), Atof(endToken.value.0)));
    StoreAt(rows, rows0, count, StoreRow(outToken.value.0));
  }

  lemma StoreRowsSnoc(ts: seq<string>, k: nat)
    requires k < |ts|
    ensures StoreRows(ts[..k + 1]) == StoreRows(ts[..k]) + [StoreRow(ts[k])]
  {
  }

  /**
    Storing `x` at `k` in an array whose contents from `k` on are still
    `s0`'s extends the prefix by `x` and keeps the rest as `s0` has it.
   */
  lemma StoreAt<T>(s: seq<T>, s0: seq<T>, k: nat, x: T)
    requires k < |s| == |s0| && s[k..] == s0[k..]
    ensures s[k := x][..k + 1] == s[..k] + [x]
    ensures s[k := x][k + 1..] == s0[k + 1..]
  {
    assert s[k + 1..] == s[k..][1..];
  }

  lemma LoadedDone(outputFns: string, starts: string, ends: string, count: nat,
                   outToken: Option<(string, string)>, startToken: Option<(string, string)>,
                   endToken: Option<(string, string)>, ls: seq<(real, real)>, rows: seq<string>,
                   ls0: seq<(real, real)>, rows0: seq<string>)
    requires Loaded(outputFns, starts, ends, count, outToken, startToken, endToken, ls, rows, ls0, rows0)
    requires count <= MaxSlices
    requires startToken.None? || endToken.None? || outToken.None? || count == MaxSlices
    ensures count == Min(Min(|Tokens(starts)|, |Tokens(ends)|), Min(|Tokens(outputFns)|, MaxSlices))
  {
    if startToken.None? {
      ScannedDone(starts, count, startToken);
    }
    if endToken.None? {
      ScannedDone(ends, count, endToken);
    }
    if outToken.None? {
      ScannedDone(outputFns, count, outToken);
    }
  }

  /** Stores entry `k` of both arrays: `lengths[k] = pair` and the row. */
  method StoreEntry(lengths: array<(real, real)>, outputStrs: array<string>, k: nat,
                    pair: (real, real), row: string)
    requires k < lengths.Length && k < outputStrs.Length
    modifies lengths, outputStrs
    ensures lengths[..] == old(lengths[..])[k := pair]
    ensures outputStrs[..] == old(outputStrs[..])[k := row]
  {
    lengths[k] := pair;
    outputStrs[k] := row;
  }

  /**
    `get_lengths` of main.c: the three lists are split on "," in step;
    entry `i` is `(atof(start_i), atof(end_i))` with the row for name `i`;
    it stops at the shortest list or after `MAX_SLICES` entries, leaving
    the rest of both arrays alone. Rows are stored cut to fit (see
    `StrcpyRow` for the unchecked copy).
   */
  method GetLengths(outputFns: string, starts: string, ends: string,
                    lengths: array<(real, real)>, outputStrs: array<string>) returns (count: nat)
    requires lengths.Length >= MaxSlices && outputStrs.Length >= MaxSlices
    modifies lengths, outputStrs
    ensures count == Min(Min(|Tokens(starts)|, |Tokens(ends)|), Min(|Tokens(outputFns)|, MaxSlices))
    ensures lengths[..count] == ParsePairs(Tokens(starts)[..count], Tokens(ends)[..count])
    ensures outputStrs[..count] == StoreRows(Tokens(outputFns)[..count])
    ensures lengths[count..] == old(lengths[count..]) && outputStrs[count..] == old(outputStrs[count..])
  {
    ghost var ls0, rows0 := lengths[..], outputStrs[..];
    count := 0;
    var startToken := Strtok(starts);
    var endToken := Strtok(ends);
    var outToken := Strtok(outputFns);
    ScannedStart(starts);
    ScannedStart(ends);
    ScannedStart(outputFns);
    while startToken.Some? && endToken.Some? && outToken.Some? && count < MaxSlices
      invariant count <= MaxSlices
      invariant Loaded(outputFns, starts, ends, count, outToken, startToken, endToken,
                       lengths[..], outputStrs[..], ls0, rows0)
    {
      var (start, restStarts) := startToken.value;
      var (end, restEnds) := endToken.value;
      var (name, restOutputFns) := outToken.value;
      LoadedStep(outputFns, starts, ends, count, outToken, startToken, endToken,
                 lengths[..], outputStrs[..], ls0, rows0);
      StoreEntry(lengths, outputStrs, count, (Atof(start), Atof(end)), StoreRow(name));
      count := count + 1;
      startToken := Strtok(restStarts);
      endToken := Strtok(restEnds);
      outToken := Strtok(restOutputFns);
    }
    LoadedDone(outputFns, starts, ends, count, outToken, startToken, endToken,
               lengths[..], outputStrs[..], ls0, rows0);
    assert lengths[..count] == lengths[..][..count] && lengths[count..] == lengths[..][count..];
    assert outputStrs[..count] == outputStrs[..][..count] && outputStrs[count..] == outputStrs[..][count..];
  }

  // ----- Writing the slices -----

  /** `thread_args_t` without the shared `audio` pointer: one slice's range and name. */
  datatype ThreadArgs = ThreadArgs(range: (real, real), outputStr: string)

  /**
    `snprintf(output_filename, 780, "%s.wav", name)`: never cut for a name
    that fits its 512-byte row.
   */
  function ThreadFileName(name: string): (r: string)
    ensures |r| < OutputNameSize
    ensures |name| < MaxFnLength ==> r == name + ".wav"
  {
    Truncate(name + ".wav", OutputNameSize)
  }

  /** The file each packed slice writes: its row cut to 511 characters, plus ".wav". */
  function ThreadNames(rows: seq<string>): (names: seq<string>)
    ensures |names| == |rows|
  {
    seq(|rows|, i requires 0 <= i < |rows| => ThreadFileName(Truncate(rows[i], MaxFnLength)))
  }

  /** The file each slice of `sliced_write_wave` writes: its row plus ".wav". */
  function SequentialNames(rows: seq<string>): (names: seq<string>)
    ensures |names| == |rows|
  {
    seq(|rows|, i requires 0 <= i < |rows| => ThreadFileName(rows[i]))
  }

  /**
    For rows `get_lengths` stored, the threaded and the sequential writer
    name every slice's file the same: `name_i + ".wav"`.
   */
  lemma AsyncMatchesSequential(rows: seq<string>)
    requires forall i :: 0 <= i < |rows| ==> |rows[i]| < MaxFnLength
    ensures ThreadNames(rows) == SequentialNames(rows)
    ensures forall i :: 0 <= i < |rows| ==> ThreadNames(rows)[i] == rows[i] + ".wav"
  {
  }

  /**
    Audio with no rate and no channels, as `read_mp3` returns after a failed
    read or allocation and as `main` leaves it for an unrecognised input
    type: with nothing checking the range, every range gives offsets of 0,
    and `slice_samples / audio->channels` divides by zero.
   */
  lemma ZeroAudioDividesByZero(start: real, end: real)
    ensures UncheckedSliceLength(start, end, 0, 0) == Some(0)
    ensures FrameCountAsWritten(0, 0) == None
  {
    assert CastU64(start * 0 as real) == Some(0);
    assert CastU64(end * 0 as real) == Some(0);
    assert U64(0 * 0) == 0;
  }

  /**
    `write_wave_thread` for one slice, with the range check of mp3_wav.c
    added: the offsets of main.c:203-205 are only computed for a range that
    passes it (see `Slicing.UncheckedSliceLength` for the code as written).
   */
  method WriteWaveThread(disk: Disk, audio: AudioData, args: ThreadArgs, canAlloc: nat -> bool)
    requires AudioOk(audio)
    modifies disk
    ensures disk.State() == SliceEffect(old(disk.State()), disk.readOnly, Pcm16, View(audio), args.range,
                                        ThreadFileName(args.outputStr), canAlloc)
  {
    if audio.samples.None? {
      return;
    }
    WriteSlice(disk, Pcm16, audio.samples.value, audio.numSamples, audio.channels, audio.sampleRate,
               args.range, ThreadFileName(args.outputStr), canAlloc);
  }

  /**
    The packing loop of `async_sliced_write_wave`: slice `k`'s argument
    block holds its range and its row cut by `strncpy` to 511 characters.
   */
  method PackArgs(lengths: array<(real, real)>, length: nat, outputStrs: array<string>) returns (args: array<ThreadArgs>)
    requires length <= lengths.Length && length <= outputStrs.Length
    ensures fresh(args) && args.Length == length
    ensures forall k :: 0 <= k < length ==> args[k] == ThreadArgs(lengths[k], Truncate(outputStrs[k], MaxFnLength))
  {
    args := new ThreadArgs[length](_ => ThreadArgs((0.0, 0.0), []));
    for i := 0 to length
      invariant forall k :: 0 <= k < i ==> args[k] == ThreadArgs(lengths[k], Truncate(outputStrs[k], MaxFnLength))
    {
      args[i] := ThreadArgs(lengths[i], Truncate(outputStrs[i], MaxFnLength));
    }
  }

  /**
    `async_sliced_write_wave`: pack each slice's arguments, then run each
    slice's writer; here they run one after another in list order.
   */
  method AsyncSlicedWriteWave(disk: Disk, audio: AudioData, lengths: array<(real, real)>, length: nat,
                              outputStrs: array<string>, canAlloc: nat -> bool)
    requires AudioOk(audio) && length <= lengths.Length && length <= outputStrs.Length
    modifies disk
    ensures disk.State() == SliceAll(old(disk.State()), disk.readOnly, Pcm16, View(audio), lengths[..length],
                                     ThreadNames(outputStrs[..length]), canAlloc)
  {
    var args := PackArgs(lengths, length, outputStrs);
    ghost var d0 := disk.State();
    ghost var ranges := lengths[..length];
    ghost var names := ThreadNames(outputStrs[..length]);
    for i := 0 to length
      invariant AudioOk(audio)
      invariant disk.State() == SliceAll(d0, disk.readOnly, Pcm16, View(audio), ranges[..i], names[..i], canAlloc)
      modifies disk
    {
      assert args[i] == ThreadArgs(lengths[i], Truncate(outputStrs[i], MaxFnLength));
      assert outputStrs[..length][i] == outputStrs[i];
      assert names[i] == ThreadFileName(Truncate(outputStrs[i], MaxFnLength));
      SliceAllSnoc(d0, disk.readOnly, Pcm16, View(audio), ranges, names, canAlloc, i);
      WriteWaveThread(disk, audio, args[i], canAlloc);
    }
    assert ranges[..length] == ranges;
    assert names[..length] == names;
  }

  /**
    `sliced_write_wave`: the same slices written in list order without
    threads, each to its row plus ".wav", with the range check restored.
   */
  method SlicedWriteWave(disk: Disk, audio: AudioData, lengths: array<(real, real)>, length: nat,
                         outputStrs: array<string>, canAlloc: nat -> bool)
    requires AudioOk(audio) && length <= lengths.Length && length <= outputStrs.Length
    modifies disk
    ensures disk.State() == SliceAll(old(disk.State()), disk.readOnly, Pcm16, View(audio), lengths[..length],
                                     SequentialNames(outputStrs[..length]), canAlloc)
  {
    ghost var d0 := disk.State();
    ghost var names := SequentialNames(outputStrs[..length]);
    for i := 0 to length
      invariant AudioOk(audio)
      invariant disk.State() == SliceAll(d0, disk.readOnly, Pcm16, View(audio), lengths[..length][..i], names[..i], canAlloc)
    {
      SliceAllSnoc(d0, disk.readOnly, Pcm16, View(audio), lengths[..length], names, canAlloc, i);
      WriteWaveThread(disk, audio, ThreadArgs(lengths[i], outputStrs[i]), canAlloc);
    }
    assert lengths[..length][..length] == lengths[..length];
    assert names[..length] == names;
  }
}
