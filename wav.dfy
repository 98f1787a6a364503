/**
  The canonical 44-byte RIFF/WAVE header and the files the two WAV writers
  produce: a packed header followed by the raw interleaved sample bytes.
  Multi-byte fields are little-endian, as the RIFF "WAVE" form definition
  lays them out.
 */
module Wav {
  import opened Bytes
  import opened Options
  import opened FileSystem

  /**
    One sample as it sits in memory: the integer whose low 16 bits (a signed
    16-bit sample) or low 32 bits (the bit pattern of an IEEE-754 single) are
    written out.
   */
  type Sample = int

  const WavFormatPcm: uint16 := 1
  const WavFormatFloat: uint16 := 3
  /** `sizeof(wav_header)`: the packed header has no padding. */
  const HeaderSize: nat := 44

  /** The two builds of the writer: 16-bit integer or 32-bit float samples. */
  datatype SampleFormat = Pcm16 | Float32 {
    function Tag(): uint16 {
      if Pcm16? then WavFormatPcm else WavFormatFloat
    }
    function Bits(): nat {
      if Pcm16? then 16 else 32
    }
    /** `sizeof` one sample. */
    function Width(): nat {
      Bits() / 8
    }
  }

  datatype WavHeader = WavHeader(
    fileLength: uint32,
    chunkSize: uint32,
    formatTag: uint16,
    numChannels: uint16,
    sampleRate: uint32,
    bytesPerSec: uint32,
    blockAlign: uint16,
    bitsPerSample: uint16,
    dataLength: uint32)

  /**
    C's `/` on `int`, which truncates toward zero: the remainder `a - b*q`
    has the sign of the dividend and is smaller than the divisor.
   */
  function CDiv(a: int, b: int): (q: int)
    requires b > 0
    ensures a >= 0 ==> 0 <= a - b * q < b
    ensures a < 0 ==> -b < a - b * q <= 0
  {
    if a >= 0 then a / b else -((-a) / b)
  }

  /** Truncation is symmetric: negating the dividend negates the quotient. */
  lemma CDivNegate(a: int, b: int)
    requires b > 0
    ensures CDiv(-a, b) == -CDiv(a, b)
  {
    if a == 0 {
      assert CDiv(0, b) == 0;
    } else if a > 0 {
      assert CDiv(-a, b) == -((-(-a)) / b);
    } else {
      assert CDiv(a, b) == -((-a) / b);
    }
  }

  /** Any quotient with a remainder of the dividend's sign, smaller than the divisor, is `CDiv`. */
  lemma CDivUnique(a: int, b: int, q: int)
    requires b > 0
    requires a >= 0 ==> 0 <= a - b * q < b
    requires a < 0 ==> -b < a - b * q <= 0
    ensures q == CDiv(a, b)
  {
    var c := CDiv(a, b);
    assert b * (q - c) == b * q - b * c;
    OnlyZeroBetween(b, q - c);
  }

  /** The only multiple of `b` strictly between `-b` and `b` is zero. */
  lemma OnlyZeroBetween(b: int, x: int)
    requires b > 0 && -b < b * x < b
    ensures x == 0
  {
    MulLe(b, 1, if x >= 1 then x else 1);
    MulLe(b, if x <= -1 then x else -1, -1);
  }

  lemma MulLe(b: int, x: int, y: int)
    requires b > 0 && x <= y
    ensures b * x <= b * y
  {
  }

  /**
    `init_wav_header`. The C parameters are `int`; each is stored into a
    narrower unsigned field, which keeps its low bits. Products that overflow
    `int` are modelled as wrapping, which gives the same low bits.
   */
  function InitWavHeader(formatTag: int, channels: int, sampleRate: int, bitsPerSample: int, dataLength: uint32): (h: WavHeader)
    ensures h.chunkSize == 16
    ensures h.dataLength == dataLength
    ensures h.fileLength == U32(h.dataLength + HeaderSize - 8)
    ensures h.formatTag == U16(formatTag) && h.numChannels == U16(channels)
    ensures h.sampleRate == U32(sampleRate) && h.bitsPerSample == U16(bitsPerSample)
    ensures h.blockAlign == U16(channels * CDiv(bitsPerSample, 8))
    ensures h.bytesPerSec == U32(sampleRate * h.blockAlign)
  {
    var blockAlign := U16(channels * CDiv(bitsPerSample, 8));
    WavHeader(
      fileLength := U32(dataLength + HeaderSize - 8),
      chunkSize := 16,
      formatTag := U16(formatTag),
      numChannels := U16(channels),
      sampleRate := U32(sampleRate),
      bytesPerSec := U32(sampleRate * blockAlign),
      blockAlign := blockAlign,
      bitsPerSample := U16(bitsPerSample),
      dataLength := dataLength)
  }

  function RiffTag(): seq<byte> { Ascii("RIFF") }
  function WaveTag(): seq<byte> { Ascii("WAVE") }
  function FmtTag(): seq<byte> { Ascii("fmt ") }
  function DataTag(): seq<byte> { Ascii("data") }

  /** A chunk header: its four-character tag, then a 32-bit little-endian size. */
  function ChunkHeader(tag: seq<byte>, size: uint32): (c: seq<byte>)
    requires |tag| == 4
    ensures |c| == 8
  {
    tag + LittleEndian(size, 4)
  }

  /** The 16 bytes of the "fmt " chunk after its header: the format, then the rates. */
  function FmtBody(h: WavHeader): (b: seq<byte>)
    ensures |b| == 16
  {
    (LittleEndian(h.formatTag, 2) + LittleEndian(h.numChannels, 2) + LittleEndian(h.sampleRate, 4))
    + (LittleEndian(h.bytesPerSec, 4) + LittleEndian(h.blockAlign, 2) + LittleEndian(h.bitsPerSample, 2))
  }

  /**
    The packed `wav_header` struct as it is written to the file: the RIFF
    chunk header and "WAVE" (bytes 0 to 12), the "fmt " chunk (12 to 36) and
    the "data" chunk header (36 to 44).
   */
  function HeaderBytes(h: WavHeader): (b: seq<byte>)
    ensures |b| == HeaderSize
  {
    ChunkHeader(RiffTag(), h.fileLength) + WaveTag()
    + ChunkHeader(FmtTag(), h.chunkSize) + FmtBody(h)
    + ChunkHeader(DataTag(), h.dataLength)
  }

  /** Reads a header back from its first 44 bytes; `None` unless the four tags are in place. */
  function ParseHeader(b: seq<byte>): (r: Option<WavHeader>)
    ensures r.Some? ==> |b| >= HeaderSize && b[0..4] == RiffTag() && b[8..12] == WaveTag()
    ensures r.Some? ==> b[12..16] == FmtTag() && b[36..40] == DataTag()
  {
    if |b| < HeaderSize || b[0..4] != RiffTag() || b[8..12] != WaveTag()
       || b[12..16] != FmtTag() || b[36..40] != DataTag()
    then None
    else Some(WavHeader(
      fileLength := FromLittleEndian(b[4..8]),
      chunkSize := FromLittleEndian(b[16..20]),
      formatTag := FromLittleEndian(b[20..22]),
      numChannels := FromLittleEndian(b[22..24]),
      sampleRate := FromLittleEndian(b[24..28]),
      bytesPerSec := FromLittleEndian(b[28..32]),
      blockAlign := FromLittleEndian(b[32..34]),
      bitsPerSample := FromLittleEndian(b[34..36]),
      dataLength := FromLittleEndian(b[40..44])))
  }

  /** Where the five parts of a header sit. */
  lemma HeaderParts(p1: seq<byte>, p2: seq<byte>, p3: seq<byte>, p4: seq<byte>, p5: seq<byte>)
    requires |p1| == 8 && |p2| == 4 && |p3| == 8 && |p4| == 16 && |p5| == 8
    ensures var b := p1 + p2 + p3 + p4 + p5;
      b[0..8] == p1 && b[8..12] == p2 && b[12..20] == p3 && b[20..36] == p4 && b[36..44] == p5
  {
  }

  /** The first 44 bytes are the five header parts back to back. */
  lemma HeaderSplit(b: seq<byte>)
    requires |b| >= HeaderSize
    ensures b[..HeaderSize] == b[0..8] + b[8..12] + b[12..20] + b[20..36] + b[36..44]
  {
  }

  /** A chunk header holds its tag in bytes 0 to 4 and its size in bytes 4 to 8. */
  lemma ChunkHeaderFields(tag: seq<byte>, size: uint32)
    requires |tag| == 4
    ensures var c := ChunkHeader(tag, size);
      c[0..4] == tag && c[4..8] == LittleEndian(size, 4) && FromLittleEndian(c[4..8]) == size
  {
    LittleEndianFits(size, 4);
  }

  /** Eight bytes that hold `tag` and then `size` are that chunk header. */
  lemma ChunkHeaderOf(c: seq<byte>, tag: seq<byte>, size: uint32)
    requires |c| == 8 && c[0..4] == tag && FromLittleEndian(c[4..8]) == size
    ensures ChunkHeader(tag, size) == c
  {
    FromLittleEndianRoundTrip(c[4..8]);
    assert c == c[0..4] + c[4..8];
  }

  /** Where the three parts of a concatenation sit. */
  lemma Parts3(p1: seq<byte>, p2: seq<byte>, p3: seq<byte>)
    ensures var s := p1 + p2 + p3;
      s[0..|p1|] == p1 && s[|p1|..|p1| + |p2|] == p2 && s[|p1| + |p2|..|s|] == p3
  {
  }

  /** Each format field sits at its offset in the "fmt " body. */
  lemma FmtBodyFields(h: WavHeader)
    ensures var f := FmtBody(h);
      && f[0..2] == LittleEndian(h.formatTag, 2) && f[2..4] == LittleEndian(h.numChannels, 2)
      && f[4..8] == LittleEndian(h.sampleRate, 4) && f[8..12] == LittleEndian(h.bytesPerSec, 4)
      && f[12..14] == LittleEndian(h.blockAlign, 2) && f[14..16] == LittleEndian(h.bitsPerSample, 2)
  {
    var f := FmtBody(h);
    var a, b, c := LittleEndian(h.formatTag, 2), LittleEndian(h.numChannels, 2), LittleEndian(h.sampleRate, 4);
    var d, e, g := LittleEndian(h.bytesPerSec, 4), LittleEndian(h.blockAlign, 2), LittleEndian(h.bitsPerSample, 2);
    var x, y := a + b + c, d + e + g;
    assert f[0..8] == x && f[8..16] == y;
    Parts3(a, b, c);
    Parts3(d, e, g);
    SliceOfPart(f, 0, x, 0, 2);
    SliceOfPart(f, 0, x, 2, 4);
    SliceOfPart(f, 0, x, 4, 8);
    SliceOfPart(f, 8, y, 0, 4);
    SliceOfPart(f, 8, y, 4, 6);
    SliceOfPart(f, 8, y, 6, 8);
  }

  /** Sixteen bytes whose fields `h` holds are `h`'s "fmt " body. */
  lemma FmtBodyOf(f: seq<byte>, h: WavHeader)
    requires |f| == 16
    requires h.formatTag == FromLittleEndian(f[0..2]) && h.numChannels == FromLittleEndian(f[2..4])
    requires h.sampleRate == FromLittleEndian(f[4..8]) && h.bytesPerSec == FromLittleEndian(f[8..12])
    requires h.blockAlign == FromLittleEndian(f[12..14]) && h.bitsPerSample == FromLittleEndian(f[14..16])
    ensures FmtBody(h) == f
  {
    FromLittleEndianRoundTrip(f[0..2]);
    FromLittleEndianRoundTrip(f[2..4]);
    FromLittleEndianRoundTrip(f[4..8]);
    FromLittleEndianRoundTrip(f[8..12]);
    FromLittleEndianRoundTrip(f[12..14]);
    FromLittleEndianRoundTrip(f[14..16]);
    assert f == (f[0..2] + f[2..4] + f[4..8]) + (f[8..12] + f[12..14] + f[14..16]);
  }

  /**
    Where the pieces of the five header parts sit: the two halves of each
    chunk header and the six fields of the "fmt " body.
   */
  lemma PartsLayout(riff: seq<byte>, wave: seq<byte>, fmtHeader: seq<byte>, body: seq<byte>, data: seq<byte>)
    requires |riff| == 8 && |wave| == 4 && |fmtHeader| == 8 && |body| == 16 && |data| == 8
    ensures var b := riff + wave + fmtHeader + body + data;
      && b[0..4] == riff[0..4] && b[4..8] == riff[4..8] && b[8..12] == wave
      && b[12..16] == fmtHeader[0..4] && b[16..20] == fmtHeader[4..8]
      && b[20..22] == body[0..2] && b[22..24] == body[2..4] && b[24..28] == body[4..8]
      && b[28..32] == body[8..12] && b[32..34] == body[12..14] && b[34..36] == body[14..16]
      && b[36..40] == data[0..4] && b[40..44] == data[4..8]
  {
    var b := riff + wave + fmtHeader + body + data;
    HeaderParts(riff, wave, fmtHeader, body, data);
    SliceOfPart(b, 0, riff, 0, 4);
    SliceOfPart(b, 0, riff, 4, 8);
    SliceOfPart(b, 12, fmtHeader, 0, 4);
    SliceOfPart(b, 12, fmtHeader, 4, 8);
    SliceOfPart(b, 20, body, 0, 2);
    SliceOfPart(b, 20, body, 2, 4);
    SliceOfPart(b, 20, body, 4, 8);
    SliceOfPart(b, 20, body, 8, 12);
    SliceOfPart(b, 20, body, 12, 14);
    SliceOfPart(b, 20, body, 14, 16);
    SliceOfPart(b, 36, data, 0, 4);
    SliceOfPart(b, 36, data, 4, 8);
  }

  /** Every field of the header sits at its fixed offset, least significant byte first. */
  lemma HeaderLayout(h: WavHeader)
    ensures var b := HeaderBytes(h);
      && b[0..4] == RiffTag() && b[4..8] == LittleEndian(h.fileLength, 4)
      && b[8..12] == WaveTag() && b[12..16] == FmtTag()
      && b[16..20] == LittleEndian(h.chunkSize, 4) && b[20..22] == LittleEndian(h.formatTag, 2)
      && b[22..24] == LittleEndian(h.numChannels, 2) && b[24..28] == LittleEndian(h.sampleRate, 4)
      && b[28..32] == LittleEndian(h.bytesPerSec, 4) && b[32..34] == LittleEndian(h.blockAlign, 2)
      && b[34..36] == LittleEndian(h.bitsPerSample, 2) && b[36..40] == DataTag()
      && b[40..44] == LittleEndian(h.dataLength, 4)
  {
    PartsLayout(ChunkHeader(RiffTag(), h.fileLength), WaveTag(), ChunkHeader(FmtTag(), h.chunkSize),
                FmtBody(h), ChunkHeader(DataTag(), h.dataLength));
    ChunkHeaderFields(RiffTag(), h.fileLength);
    ChunkHeaderFields(FmtTag(), h.chunkSize);
    ChunkHeaderFields(DataTag(), h.dataLength);
    FmtBodyFields(h);
  }

  /** A serialised header parses back to itself. */
  lemma ParseHeaderBytes(h: WavHeader)
    ensures ParseHeader(HeaderBytes(h)) == Some(h)
  {
    HeaderLayout(h);
    LittleEndianFits(h.fileLength, 4);
    LittleEndianFits(h.chunkSize, 4);
    LittleEndianFits(h.formatTag, 2);
    LittleEndianFits(h.numChannels, 2);
    LittleEndianFits(h.sampleRate, 4);
    LittleEndianFits(h.bytesPerSec, 4);
    LittleEndianFits(h.blockAlign, 2);
    LittleEndianFits(h.bitsPerSample, 2);
    LittleEndianFits(h.dataLength, 4);
  }

  /** The pieces of the five header parts of `b`, read at their offsets in `b`. */
  lemma PartsOf(b: seq<byte>)
    requires |b| >= HeaderSize
    ensures var riff, fmtHeader, body, data := b[0..8], b[12..20], b[20..36], b[36..44];
      && riff[0..4] == b[0..4] && riff[4..8] == b[4..8]
      && fmtHeader[0..4] == b[12..16] && fmtHeader[4..8] == b[16..20]
      && body[0..2] == b[20..22] && body[2..4] == b[22..24] && body[4..8] == b[24..28]
      && body[8..12] == b[28..32] && body[12..14] == b[32..34] && body[14..16] == b[34..36]
      && data[0..4] == b[36..40] && data[4..8] == b[40..44]
  {
    var riff, fmtHeader, body, data := b[0..8], b[12..20], b[20..36], b[36..44];
    SliceOfPart(b, 0, riff, 0, 4);
    SliceOfPart(b, 0, riff, 4, 8);
    SliceOfPart(b, 12, fmtHeader, 0, 4);
    SliceOfPart(b, 12, fmtHeader, 4, 8);
    SliceOfPart(b, 20, body, 0, 2);
    SliceOfPart(b, 20, body, 2, 4);
    SliceOfPart(b, 20, body, 4, 8);
    SliceOfPart(b, 20, body, 8, 12);
    SliceOfPart(b, 20, body, 12, 14);
    SliceOfPart(b, 20, body, 14, 16);
    SliceOfPart(b, 36, data, 0, 4);
    SliceOfPart(b, 36, data, 4, 8);
  }

  /** Whatever parses as a header is exactly that header's bytes. */
  lemma HeaderBytesOfParse(b: seq<byte>)
    requires ParseHeader(b).Some?
    ensures HeaderBytes(ParseHeader(b).value) == b[..HeaderSize]
  {
    var h := ParseHeader(b).value;
    var riff, fmtHeader, body, data := b[0..8], b[12..20], b[20..36], b[36..44];
    PartsOf(b);
    ChunkHeaderOf(riff, RiffTag(), h.fileLength);
    ChunkHeaderOf(fmtHeader, FmtTag(), h.chunkSize);
    ChunkHeaderOf(data, DataTag(), h.dataLength);
    FmtBodyOf(body, h);
    HeaderSplit(b);
  }

  /** The raw bytes of a sample buffer, as `fwrite` copies them out of memory. */
  function PayloadBytes(fmt: SampleFormat, pcm: seq<Sample>): (b: seq<byte>)
    ensures |b| == |pcm| * fmt.Width()
  {
    if pcm == [] then [] else LittleEndian(pcm[0], fmt.Width()) + PayloadBytes(fmt, pcm[1..])
  }

  /** Sample `k` occupies bytes `[k*w, (k+1)*w)` of the payload. */
  lemma {:induction false} PayloadSampleAt(fmt: SampleFormat, pcm: seq<Sample>, k: nat)
    requires k < |pcm|
    ensures var w := fmt.Width();
      (k + 1) * w <= |PayloadBytes(fmt, pcm)|
      && PayloadBytes(fmt, pcm)[k * w .. (k + 1) * w] == LittleEndian(pcm[k], w)
  {
    var w := fmt.Width();
    var first, rest := LittleEndian(pcm[0], w), PayloadBytes(fmt, pcm[1..]);
    var all := PayloadBytes(fmt, pcm);
    assert all == first + rest;
    AppendParts(first, rest);
    MulStep(k, w);
    if k > 0 {
      var lo: nat, hi: nat := (k - 1) * w, k * w;
      PayloadSampleAt(fmt, pcm[1..], k - 1);
      assert pcm[1..][k - 1] == pcm[k];
      SliceOfPart(all, w, rest, lo, hi);
      assert all[w + lo..w + hi] == LittleEndian(pcm[k], w);
    }
  }

  /** `data_length`: `sample_count * channels * sizeof(sample)` in 32-bit unsigned arithmetic. */
  function DataLength(fmt: SampleFormat, sampleCount: uint32, channels: int): (r: uint32)
    ensures 0 <= sampleCount * channels * fmt.Width() < TwoTo32 ==> r == sampleCount * channels * fmt.Width()
    ensures channels == 0 ==> r == 0
    ensures (sampleCount * channels * fmt.Width() - r) % TwoTo32 == 0
  {
    U32(sampleCount * channels * fmt.Width())
  }

  /** The header a writer of format `fmt` builds. */
  function HeaderFor(fmt: SampleFormat, sampleCount: uint32, channels: int, sampleRate: int): (h: WavHeader)
  {
    InitWavHeader(fmt.Tag(), channels, sampleRate, fmt.Bits(), DataLength(fmt, sampleCount, channels))
  }

  /** The complete file: header, then the first `data_length` bytes of the samples. */
  function WavFile(fmt: SampleFormat, pcm: seq<Sample>, sampleCount: uint32, channels: int, sampleRate: int): (b: seq<byte>)
    requires DataLength(fmt, sampleCount, channels) <= |pcm| * fmt.Width()
    ensures |b| == HeaderSize + DataLength(fmt, sampleCount, channels)
  {
    HeaderBytes(HeaderFor(fmt, sampleCount, channels, sampleRate))
    + PayloadBytes(fmt, pcm)[..DataLength(fmt, sampleCount, channels)]
  }

  /**
    A written file is its header followed by the payload; the header reads
    back with the writer's format tag, bits and block alignment, the data
    length names exactly the bytes that follow it, and, when nothing wrapped,
    the RIFF length is the file size less the 8 bytes of "RIFF" and itself.
   */
  lemma WavFileLayout(fmt: SampleFormat, pcm: seq<Sample>, sampleCount: uint32, channels: int, sampleRate: int)
    requires DataLength(fmt, sampleCount, channels) <= |pcm| * fmt.Width()
    ensures var b := WavFile(fmt, pcm, sampleCount, channels, sampleRate);
      var h := HeaderFor(fmt, sampleCount, channels, sampleRate);
      && |b| == HeaderSize + h.dataLength
      && ParseHeader(b) == Some(h)
      && h.formatTag == fmt.Tag() && h.bitsPerSample == fmt.Bits() && h.chunkSize == 16
      && b[HeaderSize..] == PayloadBytes(fmt, pcm)[..h.dataLength]
      && (0 < channels < TwoTo16 / fmt.Width() ==> h.blockAlign == channels * fmt.Width())
      && (h.dataLength + HeaderSize - 8 < TwoTo32 ==> h.fileLength + 8 == |b|)
  {
    var h := HeaderFor(fmt, sampleCount, channels, sampleRate);
    var b := WavFile(fmt, pcm, sampleCount, channels, sampleRate);
    ParseHeaderBytes(h);
    assert b[..HeaderSize] == HeaderBytes(h);
    ParseHeaderPrefix(b);
    BlockAlignExact(channels, fmt);
  }

  /** Only the first 44 bytes matter to `ParseHeader`. */
  lemma ParseHeaderPrefix(b: seq<byte>)
    requires |b| >= HeaderSize
    ensures ParseHeader(b) == ParseHeader(b[..HeaderSize])
  {
    var p := b[..HeaderSize];
    assert b[0..4] == p[0..4] && b[4..8] == p[4..8] && b[8..12] == p[8..12] && b[12..16] == p[12..16];
    assert b[16..20] == p[16..20] && b[20..22] == p[20..22] && b[22..24] == p[22..24];
    assert b[24..28] == p[24..28] && b[28..32] == p[28..32] && b[32..34] == p[32..34];
    assert b[34..36] == p[34..36] && b[36..40] == p[36..40] && b[40..44] == p[40..44];
  }

  lemma BlockAlignExact(channels: int, fmt: SampleFormat)
    ensures 0 < channels < TwoTo16 / fmt.Width() ==> U16(channels * CDiv(fmt.Bits(), 8)) == channels * fmt.Width()
  {
    if 0 < channels < TwoTo16 / fmt.Width() {
      assert CDiv(fmt.Bits(), 8) == fmt.Width();
      assert channels * fmt.Width() < TwoTo16;
    }
  }

  /** Two channels at 44100 Hz, 100 float samples per channel: 844 bytes, block 8, 352800 bytes/s. */
  lemma FloatStereoExample(pcm: seq<Sample>)
    requires |pcm| == 200
    ensures var h := HeaderFor(Float32, 100, 2, 44100);
      && |WavFile(Float32, pcm, 100, 2, 44100)| == 844
      && h.formatTag == 3 && h.blockAlign == 8 && h.bytesPerSec == 352800
      && h.dataLength == 800 && h.fileLength == 836
  {
  }

  /**
    `write_pcm_wav` / `write_float_wav` with the format as a parameter: open
    the file, write the header, write the payload; any failure returns -1,
    leaving whatever was written so far.
   */
  method WriteWav(disk: Disk, filename: string, fmt: SampleFormat, pcm: seq<Sample>, sampleCount: uint32, channels: int, sampleRate: int)
    returns (rc: int)
    requires DataLength(fmt, sampleCount, channels) <= |pcm| * fmt.Width()
    modifies disk
    ensures rc == 0 || rc == -1
    ensures var r := WriteAll(old(disk.State()), disk.readOnly, filename, WavFile(fmt, pcm, sampleCount, channels, sampleRate));
      disk.State() == r.0 && (rc == 0 <==> r.1)
  {
    var dataLength := DataLength(fmt, sampleCount, channels);
    var header := InitWavHeader(fmt.Tag(), channels, sampleRate, fmt.Bits(), dataLength);
    var payload := PayloadBytes(fmt, pcm)[..dataLength];
    ghost var file := HeaderBytes(header) + payload;
    assert file == WavFile(fmt, pcm, sampleCount, channels, sampleRate);
    ghost var d0 := disk.State();
    ghost var r := WriteAll(d0, disk.readOnly, filename, file);
    var ok := disk.Open(filename);
    if !ok {
      return -1;
    }
    assert disk.files == d0.files[filename := []];
    var n := disk.Write(filename, HeaderBytes(header));
    UpdateTwice(d0.files, filename, [], HeaderBytes(header)[..n]);
    assert [] + HeaderBytes(header)[..n] == HeaderBytes(header)[..n];
    if n != HeaderSize {
      PrefixOfConcat(HeaderBytes(header), payload, n);
      assert n == Min(|file|, d0.free);
      return -1;
    }
    assert HeaderBytes(header)[..n] == HeaderBytes(header);
    var m := disk.Write(filename, payload);
    UpdateTwice(d0.files, filename, HeaderBytes(header), HeaderBytes(header) + payload[..m]);
    PrefixOfConcat(HeaderBytes(header), payload, HeaderSize + m);
    assert HeaderSize + m == Min(|file|, d0.free);
    if m != dataLength {
      return -1;
    }
    return 0;
  }

  lemma UpdateTwice<K, V>(m: map<K, V>, k: K, a: V, b: V)
    ensures m[k := a][k := b] == m[k := b]
  {
  }

  lemma PrefixOfConcat(a: seq<byte>, b: seq<byte>, n: nat)
    requires n <= |a| + |b|
    ensures n <= |a| ==> (a + b)[..n] == a[..n]
    ensures n >= |a| ==> (a + b)[..n] == a + b[..n - |a|]
  {
  }

  /** `write_pcm_wav`: 16-bit integer samples, format tag 1. */
  method WritePcmWav(disk: Disk, filename: string, pcm: seq<Sample>, sampleCount: uint32, channels: int, sampleRate: int)
    returns (rc: int)
    requires DataLength(Pcm16, sampleCount, channels) <= |pcm| * 2
    modifies disk
    ensures rc == 0 || rc == -1
    ensures var r := WriteAll(old(disk.State()), disk.readOnly, filename, WavFile(Pcm16, pcm, sampleCount, channels, sampleRate));
      disk.State() == r.0 && (rc == 0 <==> r.1)
  {
    rc := WriteWav(disk, filename, Pcm16, pcm, sampleCount, channels, sampleRate);
  }

  /** `write_float_wav`: 32-bit IEEE float samples, format tag 3. */
  method WriteFloatWav(disk: Disk, filename: string, pcm: seq<Sample>, sampleCount: uint32, channels: int, sampleRate: int)
    returns (rc: int)
    requires DataLength(Float32, sampleCount, channels) <= |pcm| * 4
    modifies disk
    ensures rc == 0 || rc == -1
    ensures var r := WriteAll(old(disk.State()), disk.readOnly, filename, WavFile(Float32, pcm, sampleCount, channels, sampleRate));
      disk.State() == r.0 && (rc == 0 <==> r.1)
  {
    rc := WriteWav(disk, filename, Float32, pcm, sampleCount, channels, sampleRate);
  }
}
