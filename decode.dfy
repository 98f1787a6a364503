/**
  The frame-decode accumulation loop shared by `read_mp3` (main.c) and
  `slice_mp3_to_wav` (mp3_wav.c): a cursor walks the input one MP3 frame at
  a time and every frame's interleaved samples are appended to one
  pre-sized PCM buffer.

  The frame decoder itself (minimp3's `mp3dec_decode_frame`, MPEG-1 Audio
  Layer III) is not part of this model: it is a function parameter, of which
  only its documented bounds are assumed.
 */
module Mp3Decode {
  import opened Bytes
  import opened Wav

  /** `MINIMP3_MAX_SAMPLES_PER_FRAME`: 1152 samples for each of two channels. */
  const MaxSamplesPerFrame: nat := 1152 * 2

  /**
    What one decoder call reports: the return value (samples per channel),
    and from `mp3dec_frame_info_t` the frame's byte length, channel count and
    rate, plus the interleaved samples it wrote into the local `pcm` buffer.
   */
  datatype FrameInfo = FrameInfo(samples: int, frameBytes: nat, channels: int, hz: int, pcm: seq<Sample>)

  /** The decoder's side of the contract, for a frame that yields samples. */
  predicate WellBehaved(f: FrameInfo) {
    f.samples > 0 ==>
      && (f.channels == 1 || f.channels == 2)
      && f.hz > 0
      && f.samples * f.channels <= MaxSamplesPerFrame
      && |f.pcm| == f.samples * f.channels
  }

  /** The decoder, applied to the bytes from the cursor to the end of the input. */
  type Decoder = seq<byte> -> FrameInfo

  ghost predicate DecoderOk(decode: Decoder) {
    forall s :: WellBehaved(decode(s))
  }

  /** `max_pcm_samples`: the worst-case estimate the buffer is sized from. */
  function MaxPcmSamples(bufSize: nat): (n: nat)
    ensures n == 18 * bufSize
  {
    (bufSize * MaxSamplesPerFrame) / 128
  }

  /** `pcm_bsiz`: bytes allocated for the PCM buffer, twice the estimate. */
  function PcmBufferBytes(bufSize: nat, fmt: SampleFormat): (n: nat)
    ensures n == 36 * bufSize * fmt.Width()
  {
    MaxPcmSamples(bufSize) * fmt.Width() * 2
  }

  /**
    The loop's variables: bytes consumed so far (`input_buf` minus its start),
    samples per channel decoded, the channel count and rate last recorded, and
    the whole PCM buffer.
   */
  datatype DecodeState = DecodeState(cursor: nat, decoded: nat, channels: nat, hz: int, pcm: seq<Sample>)

  function Initial(pcm: seq<Sample>): DecodeState {
    DecodeState(0, 0, 0, 0, pcm)
  }

  /**
    What the loop keeps: the cursor stays in the input, the buffer keeps its
    `2 * max_pcm_samples` elements, the overflow guard's bound holds, and the
    format fields are zero exactly until a frame has yielded samples.
   */
  predicate Inv(buf: seq<byte>, maxPcm: nat, s: DecodeState) {
    && s.cursor <= |buf|
    && |s.pcm| == 2 * maxPcm
    && s.decoded * 2 <= maxPcm
    && s.channels <= 2
    && (s.decoded == 0 <==> s.channels == 0)
    && (s.decoded == 0 <==> s.hz == 0)
    && s.hz >= 0
  }

  /** `memcpy(dst + at, src, |src| elements)`. */
  function Splice(dst: seq<Sample>, at: nat, src: seq<Sample>): (r: seq<Sample>)
    requires at + |src| <= |dst|
    ensures |r| == |dst|
    ensures r[..at] == dst[..at] && r[at..at + |src|] == src && r[at + |src|..] == dst[at + |src|..]
  {
    dst[..at] + src + dst[at + |src|..]
  }

  /** Why the loop stopped. */
  datatype HaltReason = Exhausted | BadFrame | GuardTripped

  datatype StepResult = Advance(next: DecodeState) | Halt(reason: HaltReason)

  /** The frame the decoder reports at the cursor. */
  function FrameAt(decode: Decoder, buf: seq<byte>, s: DecodeState): FrameInfo
    requires s.cursor <= |buf|
  {
    decode(buf[s.cursor..])
  }

  /** One iteration of the loop body. */
  function Step(decode: Decoder, buf: seq<byte>, maxPcm: nat, s: DecodeState): (r: StepResult)
    requires DecoderOk(decode) && Inv(buf, maxPcm, s)
    ensures r.Advance? ==> Inv(buf, maxPcm, r.next) && r.next.cursor > s.cursor
  {
    if s.cursor == |buf| then Halt(Exhausted)
    else
      var f := FrameAt(decode, buf, s);
      assert WellBehaved(f);
      if f.frameBytes == 0 || |buf| - s.cursor < f.frameBytes then Halt(BadFrame)
      else if f.samples > 0 && (s.decoded + f.samples) * 2 > maxPcm then Halt(GuardTripped)
      else if f.samples > 0 then
        assert (s.decoded + f.samples) * f.channels <= (s.decoded + f.samples) * 2;
        Advance(DecodeState(s.cursor + f.frameBytes, s.decoded + f.samples, f.channels, f.hz,
                            Splice(s.pcm, s.decoded * f.channels, f.pcm)))
      else
        Advance(s.(cursor := s.cursor + f.frameBytes))
  }

  /**
    The loop run to its end. It terminates because every accepted frame
    advances the cursor; it ends in a state where the next step halts, with
    the invariant intact.
   */
  function Run(decode: Decoder, buf: seq<byte>, maxPcm: nat, s: DecodeState): (r: DecodeState)
    requires DecoderOk(decode) && Inv(buf, maxPcm, s)
    ensures Inv(buf, maxPcm, r)
    ensures s.cursor <= r.cursor && s.decoded <= r.decoded
    ensures Step(decode, buf, maxPcm, r).Halt?
    decreases |buf| - s.cursor
  {
    match Step(decode, buf, maxPcm, s)
    case Advance(next) => Run(decode, buf, maxPcm, next)
    case Halt(_) => s
  }

  /** The frames the loop accepts (advances past), in order. */
  function Trace(decode: Decoder, buf: seq<byte>, maxPcm: nat, s: DecodeState): seq<FrameInfo>
    requires DecoderOk(decode) && Inv(buf, maxPcm, s)
    decreases |buf| - s.cursor
  {
    match Step(decode, buf, maxPcm, s)
    case Advance(next) => [FrameAt(decode, buf, s)] + Trace(decode, buf, maxPcm, next)
    case Halt(_) => []
  }

  function TotalBytes(fs: seq<FrameInfo>): nat {
    if fs == [] then 0 else fs[0].frameBytes + TotalBytes(fs[1..])
  }

  /** Samples per channel contributed by frames that yield any. */
  function TotalSamples(fs: seq<FrameInfo>): nat {
    if fs == [] then 0 else (if fs[0].samples > 0 then fs[0].samples else 0) + TotalSamples(fs[1..])
  }

  /** The frames among `fs` that yield samples. */
  function Productive(fs: seq<FrameInfo>): (r: seq<FrameInfo>)
    ensures forall k :: 0 <= k < |r| ==> r[k].samples > 0
  {
    if fs == [] then [] else (if fs[0].samples > 0 then [fs[0]] else []) + Productive(fs[1..])
  }

  /**
    Cursor accounting: the bytes consumed are the frame lengths of the
    accepted frames, so `consumed + remaining_size == buf_size` at the end;
    and the samples counted are those of the productive frames.
   */
  lemma {:induction false} RunCounts(decode: Decoder, buf: seq<byte>, maxPcm: nat, s: DecodeState)
    requires DecoderOk(decode) && Inv(buf, maxPcm, s)
    ensures var r := Run(decode, buf, maxPcm, s);
      var t := Trace(decode, buf, maxPcm, s);
      && r.cursor == s.cursor + TotalBytes(t)
      && r.decoded == s.decoded + TotalSamples(t)
    decreases |buf| - s.cursor
  {
    match Step(decode, buf, maxPcm, s)
    case Advance(next) =>
      RunCounts(decode, buf, maxPcm, next);
    case Halt(_) =>
  }

  /**
    Channel count and rate are those of the last accepted frame that yielded
    samples; frames that yield none leave them alone, and with no such frame
    at all they keep their starting values.
   */
  lemma {:induction false} RunKeepsLastFormat(decode: Decoder, buf: seq<byte>, maxPcm: nat, s: DecodeState)
    requires DecoderOk(decode) && Inv(buf, maxPcm, s)
    ensures var r := Run(decode, buf, maxPcm, s);
      var p := Productive(Trace(decode, buf, maxPcm, s));
      && (p == [] ==> r.channels == s.channels && r.hz == s.hz && r.decoded == s.decoded)
      && (p != [] ==> r.channels == p[|p| - 1].channels && r.hz == p[|p| - 1].hz)
    decreases |buf| - s.cursor
  {
    match Step(decode, buf, maxPcm, s)
    case Advance(next) =>
      RunKeepsLastFormat(decode, buf, maxPcm, next);
      var f := FrameAt(decode, buf, s);
      assert Trace(decode, buf, maxPcm, s) == [f] + Trace(decode, buf, maxPcm, next);
      assert Run(decode, buf, maxPcm, s) == Run(decode, buf, maxPcm, next);
      if f.samples <= 0 {
        assert next.channels == s.channels && next.hz == s.hz && next.decoded == s.decoded;
      } else {
        assert next.channels == f.channels && next.hz == f.hz;
      }
      LastFormatStep(s, next, f, Trace(decode, buf, maxPcm, next), Run(decode, buf, maxPcm, next));
    case Halt(_) =>
  }

  /** The inductive step of `RunKeepsLastFormat`, apart from the loop. */
  lemma LastFormatStep(s: DecodeState, next: DecodeState, f: FrameInfo, rest: seq<FrameInfo>, r: DecodeState)
    requires f.samples <= 0 ==> next.channels == s.channels && next.hz == s.hz && next.decoded == s.decoded
    requires f.samples > 0 ==> next.channels == f.channels && next.hz == f.hz
    requires var p := Productive(rest);
      && (p == [] ==> r.channels == next.channels && r.hz == next.hz && r.decoded == next.decoded)
      && (p != [] ==> r.channels == p[|p| - 1].channels && r.hz == p[|p| - 1].hz)
    requires f.samples > 0 ==> next.decoded > s.decoded
    ensures var p := Productive([f] + rest);
      && (p == [] ==> r.channels == s.channels && r.hz == s.hz && r.decoded == s.decoded)
      && (p != [] ==> r.channels == p[|p| - 1].channels && r.hz == p[|p| - 1].hz)
  {
    assert ([f] + rest)[1..] == rest;
    var p := Productive(rest);
    if f.samples <= 0 {
      assert Productive([f] + rest) == p;
    } else {
      assert Productive([f] + rest) == [f] + p;
      if p == [] {
        assert ([f] + p)[|[f] + p| - 1] == f;
      } else {
        assert ([f] + p)[|[f] + p| - 1] == p[|p| - 1];
      }
    }
  }

  /** Concatenation of the samples of `fs`. */
  function AllPcm(fs: seq<FrameInfo>): seq<Sample> {
    if fs == [] then [] else fs[0].pcm + AllPcm(fs[1..])
  }

  predicate AllChannels(fs: seq<FrameInfo>, c: int) {
    forall k :: 0 <= k < |fs| ==> fs[k].channels == c
  }

  /**
    With a constant channel count `c` (the stream format the loop supports),
    the buffer from `decoded * c` on holds the productive frames' samples
    back to back, and nothing else in the buffer changes.
   */
  lemma {:induction false} RunLayout(decode: Decoder, buf: seq<byte>, maxPcm: nat, s: DecodeState, c: nat)
    requires DecoderOk(decode) && Inv(buf, maxPcm, s)
    requires c <= 2 && AllChannels(Productive(Trace(decode, buf, maxPcm, s)), c)
    ensures var r := Run(decode, buf, maxPcm, s);
      Placed(s.pcm, r.pcm, s.decoded * c, r.decoded * c, AllPcm(Productive(Trace(decode, buf, maxPcm, s))))
    decreases |buf| - s.cursor, 1
  {
    match Step(decode, buf, maxPcm, s)
    case Halt(_) =>
      assert Run(decode, buf, maxPcm, s) == s;
      assert Trace(decode, buf, maxPcm, s) == [];
      assert AllPcm(Productive([])) == [];
      Bounded(s.decoded, c);
      PlacedNothing(s.pcm, s.decoded * c);
    case Advance(next) =>
      var f := FrameAt(decode, buf, s);
      if f.samples > 0 {
        RunLayoutProductive(decode, buf, maxPcm, s, c);
      } else {
        var rest := Trace(decode, buf, maxPcm, next);
        assert next.decoded == s.decoded && next.pcm == s.pcm;
        assert Run(decode, buf, maxPcm, s) == Run(decode, buf, maxPcm, next);
        assert Trace(decode, buf, maxPcm, s) == [f] + rest;
        assert ([f] + rest)[1..] == rest;
        assert Productive([f] + rest) == Productive(rest);
        RunLayout(decode, buf, maxPcm, next, c);
      }
  }

  /** `RunLayout` when the frame at the cursor is accepted and yields samples. */
  lemma {:induction false} RunLayoutProductive(decode: Decoder, buf: seq<byte>, maxPcm: nat, s: DecodeState, c: nat)
    requires DecoderOk(decode) && Inv(buf, maxPcm, s)
    requires c <= 2 && AllChannels(Productive(Trace(decode, buf, maxPcm, s)), c)
    requires Step(decode, buf, maxPcm, s).Advance? && FrameAt(decode, buf, s).samples > 0
    ensures var r := Run(decode, buf, maxPcm, s);
      Placed(s.pcm, r.pcm, s.decoded * c, r.decoded * c, AllPcm(Productive(Trace(decode, buf, maxPcm, s))))
    decreases |buf| - s.cursor, 0
  {
    var next := Step(decode, buf, maxPcm, s).next;
    var f := FrameAt(decode, buf, s);
    var rest := Trace(decode, buf, maxPcm, next);
    var p := Productive(rest);
    assert Trace(decode, buf, maxPcm, s) == [f] + rest;
    assert ([f] + rest)[1..] == rest;
    assert Productive([f] + rest) == [f] + p;
    assert AllChannels(p, c) by {
      forall k | 0 <= k < |p| ensures p[k].channels == c {
        assert p[k] == ([f] + p)[k + 1];
      }
    }
    assert f.channels == ([f] + p)[0].channels == c;
    RunLayout(decode, buf, maxPcm, next, c);
    assert AllPcm([f] + p) == f.pcm + AllPcm(p) by {
      assert ([f] + p)[1..] == p;
    }
    assert next.decoded * c == s.decoded * c + |f.pcm| by {
      assert WellBehaved(f);
      assert |f.pcm| == f.samples * c;
      assert next.decoded == s.decoded + f.samples;
      Distribute(s.decoded, f.samples, c);
    }
    assert next.pcm == Splice(s.pcm, s.decoded * c, f.pcm);
    var r := Run(decode, buf, maxPcm, s);
    assert r == Run(decode, buf, maxPcm, next);
    LayoutStep(s.pcm, next.pcm, r.pcm, f.pcm, AllPcm(p), s.decoded * c, next.decoded * c, r.decoded * c);
  }

  /**
    `after` is `before` with `content` written at `[a, e)` and nothing else
    changed.
   */
  predicate Placed(before: seq<Sample>, after: seq<Sample>, a: nat, e: nat, content: seq<Sample>) {
    && a + |content| == e <= |after| == |before|
    && after[a..e] == content
    && after[..a] == before[..a]
    && after[e..] == before[e..]
  }

  /** Nothing placed at `a`: the buffer is unchanged. */
  lemma PlacedNothing(x: seq<Sample>, a: nat)
    requires a <= |x|
    ensures Placed(x, x, a, a, [])
  {
  }

  /** The inductive step of `RunLayout` for a productive frame, as facts about sequences. */
  lemma LayoutStep(s: seq<Sample>, n: seq<Sample>, r: seq<Sample>, f: seq<Sample>, p: seq<Sample>, a: nat, m: nat, e: nat)
    requires a + |f| == m && |s| == |n| && m <= |n|
    requires n == Splice(s, a, f)
    requires Placed(n, r, m, e, p)
    ensures Placed(s, r, a, e, f + p)
  {
    assert r[a..m] == n[a..m] by {
      assert r[a..m] == r[..m][a..m];
      assert n[a..m] == n[..m][a..m];
    }
    assert r[a..e] == r[a..m] + r[m..e];
    assert r[..a] == s[..a] by {
      assert r[..a] == r[..m][..a];
      assert n[..a] == n[..m][..a];
    }
    assert n[e..] == s[e..] by {
      assert n[e..] == n[m..][e - m..];
      assert s[e..] == s[m..][e - m..];
    }
  }

  lemma Distribute(a: int, b: int, c: int)
    ensures (a + b) * c == a * c + b * c
  {
  }

  lemma Bounded(a: nat, c: nat)
    requires c <= 2
    ensures a * c <= a * 2
  {
  }

  /** `memcpy(full_pcm + at, src, |src| * sizeof(sample))`. */
  method CopyInto(dst: array<Sample>, at: nat, src: seq<Sample>)
    requires at + |src| <= dst.Length
    modifies dst
    ensures dst[..] == Splice(old(dst[..]), at, src)
  {
    forall k | 0 <= k < |src| {
      dst[at + k] := src[k];
    }
    assert dst[..] == Splice(old(dst[..]), at, src) by {
      assert forall i :: 0 <= i < dst.Length ==> dst[..][i] == Splice(old(dst[..]), at, src)[i];
    }
  }

  /**
    The `while (remaining_size > 0)` loop itself, over the caller's
    `full_pcm` array of `2 * max_pcm_samples` elements. Every `memcpy` stays
    inside the array; the result is the loop run to its end.
   */
  method DecodeFrames(decode: Decoder, buf: seq<byte>, maxPcm: nat, fullPcm: array<Sample>)
    returns (decoded: nat, channels: nat, hz: int, reason: HaltReason)
    requires DecoderOk(decode) && fullPcm.Length == 2 * maxPcm
    modifies fullPcm
    ensures var r := Run(decode, buf, maxPcm, Initial(old(fullPcm[..])));
      && decoded == r.decoded && channels == r.channels && hz == r.hz && fullPcm[..] == r.pcm
      && Step(decode, buf, maxPcm, r) == Halt(reason)
  {
    ghost var goal := Run(decode, buf, maxPcm, Initial(fullPcm[..]));
    var cursor: nat := 0;
    var remaining: nat := |buf|;
    decoded, channels, hz := 0, 0, 0;
    while remaining > 0
      invariant cursor + remaining == |buf|
      invariant Inv(buf, maxPcm, DecodeState(cursor, decoded, channels, hz, fullPcm[..]))
      invariant Run(decode, buf, maxPcm, DecodeState(cursor, decoded, channels, hz, fullPcm[..])) == goal
      decreases remaining
    {
      ghost var s := DecodeState(cursor, decoded, channels, hz, fullPcm[..]);
      var info := decode(buf[cursor..]);
      assert WellBehaved(info);
      if info.frameBytes == 0 || remaining < info.frameBytes {
        assert Step(decode, buf, maxPcm, s) == Halt(BadFrame);
        return decoded, channels, hz, BadFrame;
      }
      if info.samples > 0 {
        if (decoded + info.samples) * 2 > maxPcm {
          assert Step(decode, buf, maxPcm, s) == Halt(GuardTripped);
          return decoded, channels, hz, GuardTripped;
        }
        assert (decoded + info.samples) * info.channels <= (decoded + info.samples) * 2;
        CopyInto(fullPcm, decoded * info.channels, info.pcm);
        channels := info.channels;
        hz := info.hz;
        decoded := decoded + info.samples;
      }
      cursor := cursor + info.frameBytes;
      remaining := remaining - info.frameBytes;
      assert Step(decode, buf, maxPcm, s) == Advance(DecodeState(cursor, decoded, channels, hz, fullPcm[..]));
    }
    assert Step(decode, buf, maxPcm, DecodeState(cursor, decoded, channels, hz, fullPcm[..])) == Halt(Exhausted);
    reason := Exhausted;
  }
}
