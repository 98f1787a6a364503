/**
  Cutting the decoded audio into time ranges: the mapping from a range in
  seconds to element offsets in the interleaved buffer, the range check, and
  what one slice writes (`write_wave_thread` and `sliced_write_wave` in
  main.c, the loop body of `slice_mp3_to_wav` in mp3_wav.c).

  Times and rates are C `float`s; here they are `real`s, so rounding is not
  modelled, and `(uint64_t)x` is truncation toward zero.
 */
module Slicing {
  import opened Bytes
  import opened Options
  import opened FileSystem
  import opened Wav
  import opened Mp3Decode

  /**
    The decoded audio a slicer reads: the interleaved buffer, the number of
    samples per channel decoded, the channel count and the rate.
   */
  datatype Audio = Audio(pcm: seq<Sample>, decoded: nat, channels: nat, sr: int) {
    /** What the decode loop guarantees about its result. */
    predicate Valid() {
      && channels <= 2
      && decoded * 2 <= |pcm|
      && (decoded == 0 <==> channels == 0)
      && sr >= 0
    }
  }

  function Zeros(n: nat): (z: seq<Sample>)
    ensures |z| == n && forall i :: 0 <= i < n ==> z[i] == 0
  {
    seq(n, _ => 0)
  }

  /** `malloc` of the PCM buffer, its contents taken to be zero. */
  method AllocZeroed(n: nat) returns (a: array<Sample>)
    ensures fresh(a) && a[..] == Zeros(n)
  {
    a := new Sample[n](_ => 0);
    assert a[..] == Zeros(n);
  }

  /**
    The audio the decode loop leaves for a readable input `buf`, into a
    buffer of `2 * max_pcm_samples` elements that starts out zero.
   */
  function DecodeAll(decode: Decoder, buf: seq<byte>): (a: Audio)
    requires DecoderOk(decode)
    ensures a.Valid() && |a.pcm| == 2 * MaxPcmSamples(|buf|)
  {
    var maxPcm := MaxPcmSamples(|buf|);
    var r := Run(decode, buf, maxPcm, Initial(Zeros(2 * maxPcm)));
    Audio(r.pcm, r.decoded, r.channels, r.hz)
  }

  // ----- The range check -----

  /**
    The range check of mp3_wav.c:146-147 over the reals, with a rate
    required: a range is copied only when it starts at or after 0, is not
    empty and ends within the decoded audio.
   */
  predicate SliceValid(start: real, end: real, decoded: nat, sr: int) {
    sr > 0 && 0.0 <= start && start < end && end <= decoded as real / sr as real
  }

  /**
    The same check as C evaluates it: with `sr == 0` the bound
    `(float)decoded / sr` is +inf or NaN, and `end > bound` is false either
    way, so only the first two tests remain.
   */
  predicate RangePassesAsWritten(start: real, end: real, decoded: nat, sr: int) {
    !(start < 0.0 || end <= start || (sr != 0 && end > decoded as real / sr as real))
  }

  /** With a rate, the check as written and the intended check agree. */
  lemma RangeCheckAgrees(start: real, end: real, decoded: nat, sr: int)
    requires sr > 0
    ensures RangePassesAsWritten(start, end, decoded, sr) <==> SliceValid(start, end, decoded, sr)
  {
  }

  // ----- Offsets -----

  /** `floor(t * sr)`: the frame a time falls in. */
  function FrameIndex(t: real, sr: int): (n: nat)
    requires t >= 0.0 && sr >= 0
    ensures n as real <= t * sr as real < n as real + 1.0
  {
    assert t * sr as real >= 0.0 by {
      Nonneg(t, sr as real);
    }
    (t * sr as real).Floor
  }

  lemma Nonneg(x: real, y: real)
    requires x >= 0.0 && y >= 0.0
    ensures x * y >= 0.0
  {
  }

  /**
    `start_sample` and `end_sample`: `(uint64_t)(t * sr) * channels` for the
    two ends of a validated range, computed exactly.
   */
  function SliceBounds(start: real, end: real, decoded: nat, sr: int, channels: nat): (r: (nat, nat))
    requires SliceValid(start, end, decoded, sr)
    ensures r.0 <= r.1
  {
    FrameIndexOrder(start, end, decoded, sr);
    MulMonotone(FrameIndex(start, sr), FrameIndex(end, sr), channels);
    (FrameIndex(start, sr) * channels, FrameIndex(end, sr) * channels)
  }

  /** The frames of a validated range run forwards and stay within the decoded ones. */
  lemma FrameIndexOrder(start: real, end: real, decoded: nat, sr: int)
    requires SliceValid(start, end, decoded, sr)
    ensures FrameIndex(start, sr) <= FrameIndex(end, sr) <= decoded
  {
    var rate := sr as real;
    var i, j := FrameIndex(start, sr), FrameIndex(end, sr);
    assert start * rate < end * rate by {
      assert (end - start) * rate > 0.0;
    }
    assert i as real < j as real + 1.0;
    assert end * rate <= decoded as real by {
      assert decoded as real / rate * rate == decoded as real;
      assert (decoded as real / rate - end) * rate >= 0.0;
    }
    assert j as real <= decoded as real;
  }

  /**
    A validated range lies inside the decoded samples, both offsets are
    whole frames, and the frame count handed to the writer times the
    channel count is exactly the number of samples copied.
   */
  lemma SliceInBounds(start: real, end: real, decoded: nat, sr: int, channels: nat)
    requires SliceValid(start, end, decoded, sr)
    ensures var (a, b) := SliceBounds(start, end, decoded, sr, channels);
      && a <= b <= decoded * channels
      && (channels > 0 ==> a % channels == 0 && b % channels == 0 && ((b - a) / channels) * channels == b - a)
  {
    var i, j := FrameIndex(start, sr), FrameIndex(end, sr);
    FrameIndexOrder(start, end, decoded, sr);
    MulMonotone(i, j, channels);
    MulMonotone(j, decoded, channels);
    if channels > 0 {
      assert j * channels - i * channels == (j - i) * channels;
      MulDiv(j - i, channels);
      MulDiv(i, channels);
      MulDiv(j, channels);
    }
  }

  lemma MulMonotone(x: nat, y: nat, c: nat)
    requires x <= y
    ensures x * c <= y * c
  {
  }

  /** `x / c` for a positive divisor, as a `nat`. */
  function Quotient(x: nat, c: nat): (q: nat)
    requires c > 0
    ensures q == x / c
  {
    x / c
  }

  lemma MulDiv(x: nat, c: nat)
    requires c > 0
    ensures (x * c) / c == x && (x * c) % c == 0
  {
    ModOfDecomposition(x * c, c, x, 0);
  }

  /** A range that passes the check comes from audio that has channels. */
  lemma ValidSliceHasChannels(a: Audio, start: real, end: real)
    requires a.Valid() && SliceValid(start, end, a.decoded, a.sr)
    ensures a.decoded > 0 && 0 < a.channels <= 2
  {
  }

  // ----- The offsets as main.c computes them, unchecked -----

  /**
    `(uint64_t)x` for a float `x`: truncation toward zero; `None` where C
    leaves the conversion undefined (the value does not fit).
   */
  function CastU64(x: real): (r: Option<uint64>)
    ensures r.Some? <==> -1.0 < x < TwoTo64 as real
    ensures r.Some? && x <= 0.0 ==> r.value == 0
    ensures r.Some? && x >= 0.0 ==> r.value as real <= x < r.value as real + 1.0
  {
    if -1.0 < x < TwoTo64 as real then
      Some(if x <= 0.0 then 0 else x.Floor)
    else None
  }

  /** `(uint64_t)(t * sr) * channels` in 64-bit arithmetic. */
  function SampleIndexAsWritten(t: real, sr: int, channels: nat): Option<uint64> {
    match CastU64(t * sr as real)
    case None => None
    case Some(n) => Some(U64(n * channels))
  }

  /**
    `slice_samples = end_sample - start_sample` as main.c:203-205 computes
    it, with no range check before it: 64-bit unsigned subtraction.
   */
  function UncheckedSliceLength(start: real, end: real, sr: int, channels: nat): Option<uint64> {
    match (SampleIndexAsWritten(start, sr, channels), SampleIndexAsWritten(end, sr, channels))
    case (Some(a), Some(b)) => Some(U64(b - a))
    case _ => None
  }

  /**
    An inverted range, 2 s to 1 s of 44100 Hz stereo, makes `slice_samples`
    wrap to 2^64 - 88200. The byte count then asked of `malloc`, that times
    the sample size reduced modulo 2^64, is still within a few hundred
    kilobytes of 2^64, so the allocation fails and nothing is copied; the
    range that does copy past the decoded samples is the overlong one below.
   */
  lemma InvertedRangeWraps()
    ensures UncheckedSliceLength(2.0, 1.0, 44100, 2) == Some(TwoTo64 - 88200)
  {
    assert CastU64(2.0 * 44100 as real) == Some(88200);
    assert CastU64(1.0 * 44100 as real) == Some(44100);
  }

  /**
    A range ending past the decoded audio passes unchecked: 0 s to 2 s of a
    one-second mono decode at 10 Hz copies 20 samples from a buffer holding
    10 decoded ones.
   */
  lemma OverlongRangeUnchecked()
    ensures UncheckedSliceLength(0.0, 2.0, 10, 1) == Some(20)
    ensures !SliceValid(0.0, 2.0, 10, 10)
  {
    assert CastU64(0.0 * 10 as real) == Some(0);
    assert CastU64(2.0 * 10 as real) == Some(20);
  }

  /** On every validated range the unchecked arithmetic gives the intended length. */
  lemma UncheckedAgreesWhenValid(start: real, end: real, decoded: nat, sr: int, channels: nat)
    requires SliceValid(start, end, decoded, sr) && 0 < channels && decoded * channels < TwoTo64
    ensures var (a, b) := SliceBounds(start, end, decoded, sr, channels);
      UncheckedSliceLength(start, end, sr, channels) == Some(b - a)
  {
    SliceInBounds(start, end, decoded, sr, channels);
    var i, j := FrameIndex(start, sr), FrameIndex(end, sr);
    FrameIndexOrder(start, end, decoded, sr);
    MulMonotone(1, channels, decoded);
    FloorOfCast(start * sr as real, i);
    FloorOfCast(end * sr as real, j);
  }

  lemma FloorOfCast(x: real, n: nat)
    requires n as real <= x < n as real + 1.0 && n < TwoTo64
    ensures CastU64(x) == Some(n)
  {
    if x > 0.0 {
      assert x.Floor == n;
    }
  }

  /**
    `slice_samples / channels` (main.c:219, mp3_wav.c:167): `None` for the
    division by zero C leaves undefined.
   */
  function FrameCountAsWritten(sliceSamples: nat, channels: nat): (r: Option<nat>)
    ensures r.Some? <==> channels > 0
    ensures r.Some? ==> r.value * channels <= sliceSamples < (r.value + 1) * channels
  {
    if channels == 0 then None else Some(sliceSamples / channels)
  }

  /**
    When no frame of the input yields samples, the decode loop leaves rate
    and channels at 0; the check as written then passes the range 0 s to
    1 s, both offsets are 0, and the frame count divides by zero.
   */
  lemma SilentInputDividesByZero(decode: Decoder, buf: seq<byte>)
    requires DecoderOk(decode)
    requires var maxPcm := MaxPcmSamples(|buf|);
      Productive(Trace(decode, buf, maxPcm, Initial(Zeros(2 * maxPcm)))) == []
    ensures var a := DecodeAll(decode, buf);
      && RangePassesAsWritten(0.0, 1.0, a.decoded, a.sr)
      && UncheckedSliceLength(0.0, 1.0, a.sr, a.channels) == Some(0)
      && FrameCountAsWritten(0, a.channels) == None
  {
    var maxPcm := MaxPcmSamples(|buf|);
    var s0 := Initial(Zeros(2 * maxPcm));
    RunKeepsLastFormat(decode, buf, maxPcm, s0);
    var r := Run(decode, buf, maxPcm, s0);
    assert r.channels == 0 && r.hz == 0 && r.decoded == 0;
    var a := DecodeAll(decode, buf);
    assert a.decoded == 0 && a.channels == 0 && a.sr == 0;
    ZeroRateOffsets();
  }

  lemma ZeroRateOffsets()
    ensures UncheckedSliceLength(0.0, 1.0, 0, 0) == Some(0)
  {
    assert CastU64(0.0 * 0 as real) == Some(0);
    assert CastU64(1.0 * 0 as real) == Some(0);
    assert U64(0 * 0) == 0;
  }

  /** The corrected check rejects that range, and any range it accepts has a frame count. */
  lemma ValidSliceHasFrameCount(a: Audio, start: real, end: real, sliceSamples: nat)
    requires a.Valid()
    ensures a.decoded == 0 ==> !SliceValid(start, end, a.decoded, a.sr)
    ensures SliceValid(start, end, a.decoded, a.sr) ==> FrameCountAsWritten(sliceSamples, a.channels).Some?
  {
    if SliceValid(start, end, a.decoded, a.sr) {
      ValidSliceHasChannels(a, start, end);
    }
  }

  // ----- What one slice writes -----

  /** The writer's `data_length` never asks for more bytes than the slice holds. */
  lemma FrameCountFits(fmt: SampleFormat, len: nat, channels: nat)
    requires channels > 0
    ensures DataLength(fmt, U32(len / channels), channels) <= len * fmt.Width()
  {
    var q := len / channels;
    var w := fmt.Width();
    assert U32(q) <= q;
    MulMonotone(U32(q), q, channels);
    MulMonotone(U32(q) * channels, q * channels, w);
    assert q * channels <= len;
    MulMonotone(q * channels, len, w);
    assert U32(U32(q) * channels * w) <= U32(q) * channels * w;
  }

  /** `slice_samples * data_size`: the bytes `malloc` is asked for. */
  function SliceBytes(fmt: SampleFormat, samples: nat): nat {
    samples * fmt.Width()
  }

  /** The WAV file of the samples `pcm[lo..hi)`, `c` per frame: `(hi - lo) / c` frames. */
  function SliceFile(fmt: SampleFormat, pcm: seq<Sample>, lo: nat, hi: nat, c: nat, sr: int): seq<byte>
    requires lo <= hi <= |pcm| && c > 0
  {
    FrameCountFits(fmt, hi - lo, c);
    WavFile(fmt, pcm[lo..hi], U32((hi - lo) / c), c, sr)
  }

  /** The offsets of a validated range of well-formed audio lie in its buffer and span whole frames. */
  lemma ValidSliceBounds(a: Audio, range: (real, real))
    requires a.Valid() && SliceValid(range.0, range.1, a.decoded, a.sr)
    ensures var (lo, hi) := SliceBounds(range.0, range.1, a.decoded, a.sr, a.channels);
      && lo <= hi <= a.decoded * a.channels && hi <= |a.pcm| && 0 < a.channels <= 2
      && ((hi - lo) / a.channels) * a.channels == hi - lo
  {
    SliceInBounds(range.0, range.1, a.decoded, a.sr, a.channels);
    ValidSliceHasChannels(a, range.0, range.1);
    Bounded(a.decoded, a.channels);
  }

  /**
    A slice's file holds exactly the samples from frame `floor(start * sr)`
    up to frame `floor(end * sr)`, behind a header that reads back with the
    audio's channel count and rate and the slice's byte length (when that
    length fits the 32-bit field).
   */
  lemma SliceFileContents(fmt: SampleFormat, a: Audio, range: (real, real))
    requires a.Valid() && SliceValid(range.0, range.1, a.decoded, a.sr)
    requires var (lo, hi) := SliceBounds(range.0, range.1, a.decoded, a.sr, a.channels);
      SliceBytes(fmt, hi - lo) < TwoTo32 && a.sr < TwoTo32
    ensures var (lo, hi) := SliceBounds(range.0, range.1, a.decoded, a.sr, a.channels);
      && lo == FrameIndex(range.0, a.sr) * a.channels && hi == FrameIndex(range.1, a.sr) * a.channels
      && lo <= hi <= a.decoded * a.channels && hi <= |a.pcm| && a.channels > 0
      && var b := SliceFile(fmt, a.pcm, lo, hi, a.channels, a.sr);
      && |b| == HeaderSize + SliceBytes(fmt, hi - lo)
      && ParseHeader(b).Some?
      && ParseHeader(b).value.numChannels == a.channels
      && ParseHeader(b).value.sampleRate == a.sr
      && ParseHeader(b).value.dataLength == SliceBytes(fmt, hi - lo)
      && b[HeaderSize..] == PayloadBytes(fmt, a.pcm[lo..hi])
  {
    var (lo, hi) := SliceBounds(range.0, range.1, a.decoded, a.sr, a.channels);
    ValidSliceBounds(a, range);
    SliceFileLayout(fmt, a.pcm, lo, hi, a.channels, a.sr);
    var b := SliceFile(fmt, a.pcm, lo, hi, a.channels, a.sr);
    var h := ParseHeader(b).value;
    assert h.numChannels == a.channels && h.sampleRate == a.sr && h.dataLength == SliceBytes(fmt, hi - lo);
  }

  /**
    The file of a slice of whole frames: its header reads back with the
    channel count, the rate and the payload's byte length, and the payload
    is all of the slice.
   */
  lemma SliceFileLayout(fmt: SampleFormat, pcm: seq<Sample>, lo: nat, hi: nat, c: nat, sr: int)
    requires lo <= hi <= |pcm| && 0 < c <= 2 && ((hi - lo) / c) * c == hi - lo
    requires SliceBytes(fmt, hi - lo) < TwoTo32 && 0 <= sr < TwoTo32
    ensures var b := SliceFile(fmt, pcm, lo, hi, c, sr);
      && |b| == HeaderSize + SliceBytes(fmt, hi - lo)
      && ParseHeader(b).Some?
      && ParseHeader(b).value.numChannels == c
      && ParseHeader(b).value.sampleRate == sr
      && ParseHeader(b).value.dataLength == SliceBytes(fmt, hi - lo)
      && b[HeaderSize..] == PayloadBytes(fmt, pcm[lo..hi])
  {
    var w := fmt.Width();
    var slice := pcm[lo..hi];
    var n := |slice|;
    var q := Quotient(n, c);
    assert q * c == n;
    assert q <= n by {
      MulMonotone(1, c, q);
    }
    assert q < TwoTo32 by {
      MulMonotone(1, w, n);
    }
    assert DataLength(fmt, U32(q), c) == n * w;
    assert SliceBytes(fmt, hi - lo) == n * w;
    var h := HeaderFor(fmt, U32(q), c, sr);
    assert h.numChannels == c && h.sampleRate == sr && h.dataLength == n * w;
    assert SliceFile(fmt, pcm, lo, hi, c, sr) == WavFile(fmt, slice, U32(q), c, sr);
    WavFileLayout(fmt, slice, U32(q), c, sr);
    var pb := PayloadBytes(fmt, slice);
    assert pb[..n * w] == pb;
  }

  /**
    One slice's effect on the disk: a range that fails the check, or whose
    `malloc` fails, writes nothing and the loop goes on; otherwise
    `filename` receives as much of the slice's file as the disk accepts.
   */
  function SliceEffect(d: DiskState, readOnly: set<string>, fmt: SampleFormat, a: Audio,
                       range: (real, real), filename: string, canAlloc: nat -> bool): (r: DiskState)
    requires a.Valid()
    ensures r.free <= d.free && d.files.Keys <= r.files.Keys
    ensures forall p :: p in d.files && p != filename ==> r.files[p] == d.files[p]
    ensures !SliceValid(range.0, range.1, a.decoded, a.sr) ==> r == d
  {
    if !SliceValid(range.0, range.1, a.decoded, a.sr) then d
    else
      var (lo, hi) := SliceBounds(range.0, range.1, a.decoded, a.sr, a.channels);
      ValidSliceBounds(a, range);
      if !canAlloc(SliceBytes(fmt, hi - lo)) then d
      else WriteAll(d, readOnly, filename, SliceFile(fmt, a.pcm, lo, hi, a.channels, a.sr)).0
  }

  /** The slices processed in order, the `i`-th going to `names[i]`. */
  function SliceAll(d: DiskState, readOnly: set<string>, fmt: SampleFormat, a: Audio,
                    ranges: seq<(real, real)>, names: seq<string>, canAlloc: nat -> bool): DiskState
    requires a.Valid() && |ranges| == |names|
    decreases |ranges|
  {
    if ranges == [] then d
    else
      var n := |ranges| - 1;
      SliceEffect(SliceAll(d, readOnly, fmt, a, ranges[..n], names[..n], canAlloc),
                  readOnly, fmt, a, ranges[n], names[n], canAlloc)
  }

  /** Processing one more slice is one more `SliceEffect`. */
  lemma SliceAllSnoc(d: DiskState, readOnly: set<string>, fmt: SampleFormat, a: Audio,
                     ranges: seq<(real, real)>, names: seq<string>, canAlloc: nat -> bool, i: nat)
    requires a.Valid() && |ranges| == |names| && i < |ranges|
    ensures SliceAll(d, readOnly, fmt, a, ranges[..i + 1], names[..i + 1], canAlloc)
         == SliceEffect(SliceAll(d, readOnly, fmt, a, ranges[..i], names[..i], canAlloc),
                        readOnly, fmt, a, ranges[i], names[i], canAlloc)
  {
    assert ranges[..i + 1][..i] == ranges[..i];
    assert names[..i + 1][..i] == names[..i];
  }

  /**
    Slicing touches only the named output files: every other file keeps its
    contents, no file disappears, and free space only shrinks.
   */
  lemma {:induction false} SliceAllFrame(d: DiskState, readOnly: set<string>, fmt: SampleFormat, a: Audio,
                                         ranges: seq<(real, real)>, names: seq<string>, canAlloc: nat -> bool)
    requires a.Valid() && |ranges| == |names|
    ensures var r := SliceAll(d, readOnly, fmt, a, ranges, names, canAlloc);
      && r.free <= d.free
      && d.files.Keys <= r.files.Keys
      && forall p :: p in d.files && p !in names ==> r.files[p] == d.files[p]
    decreases |ranges|
  {
    if ranges != [] {
      var n := |ranges| - 1;
      SliceAllFrame(d, readOnly, fmt, a, ranges[..n], names[..n], canAlloc);
    }
  }

  /** Processing a list is processing its first `i` slices, then the rest from the disk they leave. */
  lemma {:induction false} SliceAllSplit(d: DiskState, readOnly: set<string>, fmt: SampleFormat, a: Audio,
                                         ranges: seq<(real, real)>, names: seq<string>, canAlloc: nat -> bool, i: nat)
    requires a.Valid() && |ranges| == |names| && i <= |ranges|
    ensures SliceAll(d, readOnly, fmt, a, ranges, names, canAlloc)
         == SliceAll(SliceAll(d, readOnly, fmt, a, ranges[..i], names[..i], canAlloc),
                     readOnly, fmt, a, ranges[i..], names[i..], canAlloc)
    decreases |ranges|
  {
    if i == |ranges| {
      assert ranges[..i] == ranges && names[..i] == names;
      assert ranges[i..] == [];
    } else {
      var n := |ranges| - 1;
      SliceAllSplit(d, readOnly, fmt, a, ranges[..n], names[..n], canAlloc, i);
      assert ranges[..n][..i] == ranges[..i] && names[..n][..i] == names[..i];
      assert ranges[i..][..n - i] == ranges[..n][i..] && names[i..][..n - i] == names[..n][i..];
      assert ranges[i..][n - i] == ranges[n] && names[i..][n - i] == names[n];
    }
  }

  /**
    The file a slice writes is still there at the end of the list when no
    later slice reuses its name: if the range passes the check, the buffer
    can be allocated, the file can be created and the disk, as the earlier
    slices left it, has room, the file ends up holding exactly the slice's
    WAV file.
   */
  lemma SliceAllFinal(d: DiskState, readOnly: set<string>, fmt: SampleFormat, a: Audio,
                      ranges: seq<(real, real)>, names: seq<string>, canAlloc: nat -> bool, i: nat)
    requires a.Valid() && |ranges| == |names| && i < |ranges|
    requires SliceValid(ranges[i].0, ranges[i].1, a.decoded, a.sr)
    requires forall j :: i < j < |names| ==> names[j] != names[i]
    ensures var (lo, hi) := SliceBounds(ranges[i].0, ranges[i].1, a.decoded, a.sr, a.channels);
      && lo <= hi <= |a.pcm| && a.channels > 0
      && var b := SliceFile(fmt, a.pcm, lo, hi, a.channels, a.sr);
      && var before := SliceAll(d, readOnly, fmt, a, ranges[..i], names[..i], canAlloc);
      && var r := SliceAll(d, readOnly, fmt, a, ranges, names, canAlloc);
      canAlloc(SliceBytes(fmt, hi - lo)) && names[i] !in readOnly && |b| <= before.free ==>
        names[i] in r.files && r.files[names[i]] == b
  {
    var (lo, hi) := SliceBounds(ranges[i].0, ranges[i].1, a.decoded, a.sr, a.channels);
    ValidSliceBounds(a, ranges[i]);
    var b := SliceFile(fmt, a.pcm, lo, hi, a.channels, a.sr);
    var before := SliceAll(d, readOnly, fmt, a, ranges[..i], names[..i], canAlloc);
    if canAlloc(SliceBytes(fmt, hi - lo)) && names[i] !in readOnly && |b| <= before.free {
      var mid := SliceAll(d, readOnly, fmt, a, ranges[..i + 1], names[..i + 1], canAlloc);
      SliceAllSnoc(d, readOnly, fmt, a, ranges, names, canAlloc, i);
      SliceEffectWrites(before, readOnly, fmt, a, ranges[i], names[i], canAlloc);
      assert mid.files[names[i]] == b;
      NotInSuffix(names, i);
      SliceAllFrame(mid, readOnly, fmt, a, ranges[i + 1..], names[i + 1..], canAlloc);
      SliceAllSplit(d, readOnly, fmt, a, ranges, names, canAlloc, i + 1);
    }
  }

  /** An element that differs from every later one is not in the suffix after it. */
  lemma NotInSuffix<T>(s: seq<T>, i: nat)
    requires i < |s| && forall j :: i < j < |s| ==> s[j] != s[i]
    ensures s[i] !in s[i + 1..]
  {
  }

  /** A list in which no range passes the check writes nothing at all. */
  lemma {:induction false} SliceAllSkipsInvalid(d: DiskState, readOnly: set<string>, fmt: SampleFormat, a: Audio,
                                                ranges: seq<(real, real)>, names: seq<string>, canAlloc: nat -> bool)
    requires a.Valid() && |ranges| == |names|
    requires forall k :: 0 <= k < |ranges| ==> !SliceValid(ranges[k].0, ranges[k].1, a.decoded, a.sr)
    ensures SliceAll(d, readOnly, fmt, a, ranges, names, canAlloc) == d
    decreases |ranges|
  {
    if ranges != [] {
      var n := |ranges| - 1;
      assert forall k :: 0 <= k < n ==> ranges[..n][k] == ranges[k];
      SliceAllSkipsInvalid(d, readOnly, fmt, a, ranges[..n], names[..n], canAlloc);
    }
  }

  /**
    When a slice is valid, its buffer can be allocated, its file can be
    created and the disk has room for it, the file holds exactly the
    slice's WAV file.
   */
  lemma SliceEffectWrites(d: DiskState, readOnly: set<string>, fmt: SampleFormat, a: Audio,
                          range: (real, real), filename: string, canAlloc: nat -> bool)
    requires a.Valid() && SliceValid(range.0, range.1, a.decoded, a.sr)
    ensures var (lo, hi) := SliceBounds(range.0, range.1, a.decoded, a.sr, a.channels);
      && lo <= hi <= |a.pcm| && a.channels > 0
      && var b := SliceFile(fmt, a.pcm, lo, hi, a.channels, a.sr);
      && var r := SliceEffect(d, readOnly, fmt, a, range, filename, canAlloc);
      canAlloc(SliceBytes(fmt, hi - lo)) && filename !in readOnly && |b| <= d.free ==>
        r.files[filename] == b && r.free == d.free - |b|
  {
    ValidSliceBounds(a, range);
  }

  /** memcpy of `src[lo..hi]` into a fresh `malloc`ed array. */
  method CopyOut(src: array<Sample>, lo: nat, hi: nat) returns (slice: array<Sample>)
    requires lo <= hi <= src.Length
    ensures fresh(slice) && slice[..] == src[lo..hi]
  {
    slice := new Sample[hi - lo];
    forall k | 0 <= k < hi - lo {
      slice[k] := src[lo + k];
    }
  }

  /**
    One slice, as the loop body of mp3_wav.c:145-170 runs it: check the
    range (skip it if it fails), compute the offsets, allocate and copy the
    slice, and hand `slice_samples / channels` frames to the writer.
   */
  method WriteSlice(disk: Disk, fmt: SampleFormat, pcm: array<Sample>, decoded: nat, channels: nat, sr: int,
                    range: (real, real), filename: string, canAlloc: nat -> bool)
    requires Audio(pcm[..], decoded, channels, sr).Valid()
    modifies disk
    ensures disk.State() == SliceEffect(old(disk.State()), disk.readOnly, fmt, Audio(pcm[..], decoded, channels, sr),
                                        range, filename, canAlloc)
  {
    ghost var a := Audio(pcm[..], decoded, channels, sr);
    var (start, end) := range;
    if !(sr > 0 && 0.0 <= start && start < end && end <= decoded as real / sr as real) {
      return;
    }
    assert SliceValid(start, end, decoded, sr);
    var startSample := FrameIndex(start, sr) * channels;
    var endSample := FrameIndex(end, sr) * channels;
    assert (startSample, endSample) == SliceBounds(start, end, decoded, sr, channels);
    ValidSliceBounds(a, range);
    var sliceSamples := endSample - startSample;
    if !canAlloc(SliceBytes(fmt, sliceSamples)) {
      return;
    }
    WriteFrames(disk, fmt, pcm, startSample, endSample, channels, sr, filename);
  }

  /**
    The tail of the loop body once the range is checked and the buffer
    allocated: copy `pcm[lo..hi)` out and write it with `(hi - lo) / channels`
    frames in the header, leaving the result code unused.
   */
  method WriteFrames(disk: Disk, fmt: SampleFormat, pcm: array<Sample>, lo: nat, hi: nat, channels: nat, sr: int,
                     filename: string)
    requires lo <= hi <= pcm.Length && channels > 0
    modifies disk
    ensures disk.State() == WriteAll(old(disk.State()), disk.readOnly, filename,
                                     SliceFile(fmt, pcm[..], lo, hi, channels, sr)).0
  {
    ghost var file := SliceFile(fmt, pcm[..], lo, hi, channels, sr);
    var slice := CopyOut(pcm, lo, hi);
    FrameCountFits(fmt, hi - lo, channels);
    assert file == WavFile(fmt, slice[..], U32((hi - lo) / channels), channels, sr);
    var rc := WriteWav(disk, filename, fmt, slice[..], U32((hi - lo) / channels), channels, sr);
  }
}
