/** Serialisation of rendered audio as a 24-bit PCM WAVE file: the RIFF
    header of the WAVE form, holding a `fmt ` chunk with format tag 1
    (WAVE_FORMAT_PCM) and then the `data` chunk, followed by the samples,
    each packed into three little-endian bytes. The file is a pure byte
    sequence here; writing it out is left to the caller. */
module WavWriter {
  import opened Wrappers
  import opened AudioTypes
  import opened EnvelopeTypes

  type byte = b: int | 0 <= b < 0x100
  type uint16 = x: int | 0 <= x < 0x1_0000
  type uint32 = x: int | 0 <= x < 0x1_0000_0000
  type int32 = x: int | -0x8000_0000 <= x < 0x8000_0000

  /** The size of the `fmt ` chunk body and the format tag of linear PCM. */
  const FMT_CHUNK_SIZE: uint32 := 16
  const AUDIO_FORMAT_PCM: uint16 := 1
  /** The RIFF, `fmt ` and `data` headers together. */
  const HEADER_SIZE: nat := 44

  /** The writer's fixed parameters; the constructor asserts both are
      positive. */
  datatype Writer = Writer(sampleRate: uint32, channels: uint16)

  predicate ValidWriter(w: Writer) {
    w.sampleRate > 0 && w.channels > 0
  }

  // ---------------------------------------------------------------------
  // Little-endian integers

  function Pow256(n: nat): (r: nat)
    ensures r > 0
  {
    if n == 0 then 1 else 0x100 * Pow256(n - 1)
  }

  /** The `n` low bytes of `x`, least significant first. */
  function Bytes(x: nat, n: nat): (r: seq<byte>)
    requires x < Pow256(n)
    ensures |r| == n
  {
    if n == 0 then [] else [x % 0x100] + Bytes(x / 0x100, n - 1)
  }

  /** The unsigned number whose little-endian bytes are `bs`. */
  function Value(bs: seq<byte>): (r: nat)
    ensures r < Pow256(|bs|)
  {
    if bs == [] then 0 else bs[0] + 0x100 * Value(bs[1..])
  }

  /** Reading back the bytes of a number gives the number. */
  lemma {:induction false} ValueOfBytes(x: nat, n: nat)
    requires x < Pow256(n)
    ensures Value(Bytes(x, n)) == x
  {
    if n > 0 {
      ValueOfBytes(x / 0x100, n - 1);
      assert Bytes(x, n)[1..] == Bytes(x / 0x100, n - 1);
    }
  }

  /** Writing out a number read from bytes gives the same bytes. */
  lemma {:induction false} BytesOfValue(bs: seq<byte>)
    ensures Bytes(Value(bs), |bs|) == bs
  {
    if bs != [] {
      BytesOfValue(bs[1..]);
      assert Value(bs) / 0x100 == Value(bs[1..]);
    }
  }

  function LE16(x: uint16): (r: seq<byte>)
    ensures |r| == 2
  {
    Bytes(x, 2)
  }

  function LE32(x: uint32): (r: seq<byte>)
    ensures |r| == 4
  {
    Bytes(x, 4)
  }

  /** The C++ narrowing to `uint16_t` and `uint32_t`. */
  function U16(x: int): uint16 { x % 0x1_0000 }
  function U32(x: int): uint32 { x % 0x1_0000_0000 }

  /** The bytes of a four-character chunk identifier. */
  function Tag(s: string): (r: seq<byte>)
    requires forall i :: 0 <= i < |s| ==> s[i] as int < 0x100
    ensures |r| == |s|
    ensures forall i :: 0 <= i < |s| ==> r[i] == s[i] as int
  {
    seq(|s|, i requires 0 <= i < |s| => s[i] as int)
  }

  // ---------------------------------------------------------------------
  // The file

  /** The header fields as the writer computes them, each in its C++
      width: the data size is the PCM length narrowed to 32 bits, and the
      RIFF size, byte rate and block alignment are computed in 32, 32 and
      16 bits. */
  datatype WaveInfo = WaveInfo(
    riffChunkSize: uint32,
    fmtChunkSize: uint32,
    audioFormat: uint16,
    channels: uint16,
    sampleRate: uint32,
    byteRate: uint32,
    blockAlign: uint16,
    bitsPerSample: uint16,
    dataChunkSize: uint32)

  function Info(w: Writer, dataLength: nat): WaveInfo {
    var dataChunkSize := U32(dataLength);
    WaveInfo(
      U32(4 + (8 + FMT_CHUNK_SIZE) + (8 + dataChunkSize)),
      FMT_CHUNK_SIZE,
      AUDIO_FORMAT_PCM,
      w.channels,
      w.sampleRate,
      U32(w.sampleRate * w.channels * PAXEL_BYTES_PER_SAMPLE),
      U16(w.channels * PAXEL_BYTES_PER_SAMPLE),
      PAXEL_BIT_DEPTH,
      dataChunkSize)
  }

  /** The RIFF chunk header: its identifier, its size and the form type. */
  function RiffHeader(i: WaveInfo): (r: seq<byte>)
    ensures |r| == 12
  {
    Tag("RIFF") + LE32(i.riffChunkSize) + Tag("WAVE")
  }

  /** The `fmt ` chunk header and the first two fields of its body. */
  function FmtFormat(i: WaveInfo): (r: seq<byte>)
    ensures |r| == 12
  {
    Tag("fmt ") + LE32(i.fmtChunkSize) + LE16(i.audioFormat) + LE16(i.channels)
  }

  /** The rest of the `fmt ` body: the rates, the alignment and the depth. */
  function FmtRates(i: WaveInfo): (r: seq<byte>)
    ensures |r| == 12
  {
    LE32(i.sampleRate) + LE32(i.byteRate) + LE16(i.blockAlign) + LE16(i.bitsPerSample)
  }

  /** The `data` chunk header. */
  function DataHeader(i: WaveInfo): (r: seq<byte>)
    ensures |r| == 8
  {
    Tag("data") + LE32(i.dataChunkSize)
  }

  /** The 44 header bytes in file order. */
  function Header(i: WaveInfo): (r: seq<byte>)
    ensures |r| == HEADER_SIZE
  {
    RiffHeader(i) + FmtFormat(i) + FmtRates(i) + DataHeader(i)
  }

  /** The file the writer produces for already packed PCM bytes. The source
      asserts the data and the file name are non-empty; opening the file
      is not modelled. */
  function WriteToFile(w: Writer, filename: string, pcm: seq<byte>): (file: seq<byte>)
    requires ValidWriter(w) && |pcm| > 0 && |filename| > 0
    ensures |file| == HEADER_SIZE + |pcm|
    ensures file[HEADER_SIZE..] == pcm
  {
    Header(Info(w, |pcm|)) + pcm
  }

  /** A parsed WAVE file: its header fields and its sample bytes. */
  datatype WaveFile = WaveFile(info: WaveInfo, data: seq<byte>)

  /** The chunk identifiers at the offsets the canonical header puts them. */
  predicate TagsAt(h: seq<byte>)
    requires |h| == HEADER_SIZE
  {
    h[0..4] == Tag("RIFF") && h[8..12] == Tag("WAVE") && h[12..16] == Tag("fmt ") && h[36..40] == Tag("data")
  }

  /** The header fields read back from their offsets. */
  function ReadInfo(h: seq<byte>): WaveInfo
    requires |h| == HEADER_SIZE
  {
    WaveInfo(
      Value(h[4..8]), Value(h[16..20]), Value(h[20..22]), Value(h[22..24]),
      Value(h[24..28]), Value(h[28..32]), Value(h[32..34]), Value(h[34..36]),
      Value(h[40..44]))
  }

  /** A reader of the canonical 44-byte header: `None` when the file is
      too short or a chunk identifier is not where the layout puts it. */
  function ReadWave(file: seq<byte>): (r: Option<WaveFile>)
    ensures r.Some? ==> |file| >= HEADER_SIZE && r.value.data == file[HEADER_SIZE..]
  {
    if |file| < HEADER_SIZE || !TagsAt(file[..HEADER_SIZE]) then None
    else Some(WaveFile(ReadInfo(file[..HEADER_SIZE]), file[HEADER_SIZE..]))
  }

  /** The header bytes at their offsets. */
  lemma HeaderLayout(i: WaveInfo)
    ensures var h := Header(i);
            && h[0..4] == Tag("RIFF") && h[4..8] == LE32(i.riffChunkSize)
            && h[8..12] == Tag("WAVE") && h[12..16] == Tag("fmt ")
            && h[16..20] == LE32(i.fmtChunkSize) && h[20..22] == LE16(i.audioFormat)
            && h[22..24] == LE16(i.channels) && h[24..28] == LE32(i.sampleRate)
            && h[28..32] == LE32(i.byteRate) && h[32..34] == LE16(i.blockAlign)
            && h[34..36] == LE16(i.bitsPerSample) && h[36..40] == Tag("data")
            && h[40..44] == LE32(i.dataChunkSize)
  {
    var h := Header(i);
    Pieces4(RiffHeader(i), FmtFormat(i), FmtRates(i), DataHeader(i));
    Pieces3(Tag("RIFF"), LE32(i.riffChunkSize), Tag("WAVE"));
    Pieces4(Tag("fmt "), LE32(i.fmtChunkSize), LE16(i.audioFormat), LE16(i.channels));
    Pieces4(LE32(i.sampleRate), LE32(i.byteRate), LE16(i.blockAlign), LE16(i.bitsPerSample));
    Pieces2(Tag("data"), LE32(i.dataChunkSize));
    SubSlice(h, 0, 12, 0, 4);
    SubSlice(h, 0, 12, 4, 8);
    SubSlice(h, 0, 12, 8, 12);
    SubSlice(h, 12, 24, 0, 4);
    SubSlice(h, 12, 24, 4, 8);
    SubSlice(h, 12, 24, 8, 10);
    SubSlice(h, 12, 24, 10, 12);
    SubSlice(h, 24, 36, 0, 4);
    SubSlice(h, 24, 36, 4, 8);
    SubSlice(h, 24, 36, 8, 10);
    SubSlice(h, 24, 36, 10, 12);
    SubSlice(h, 36, 44, 0, 4);
    SubSlice(h, 36, 44, 4, 8);
  }

  /** A slice of a slice is a slice of the whole. */
  lemma SubSlice(s: seq<byte>, a: nat, b: nat, lo: nat, hi: nat)
    requires a <= b <= |s| && lo <= hi <= b - a
    ensures s[a..b][lo..hi] == s[a + lo..a + hi]
  {
    assert forall k :: 0 <= k < hi - lo ==> s[a..b][lo..hi][k] == s[a + lo + k];
  }

  lemma Pieces2(p: seq<byte>, q: seq<byte>)
    ensures var s := p + q;
            s[0..|p|] == p && s[|p|..|p| + |q|] == q
  {
  }

  lemma Pieces3(p: seq<byte>, q: seq<byte>, r: seq<byte>)
    ensures var s := p + q + r;
            && s[0..|p|] == p && s[|p|..|p| + |q|] == q
            && s[|p| + |q|..|p| + |q| + |r|] == r
  {
  }

  lemma Pieces4(p: seq<byte>, q: seq<byte>, r: seq<byte>, t: seq<byte>)
    ensures var s := p + q + r + t;
            && s[0..|p|] == p && s[|p|..|p| + |q|] == q
            && s[|p| + |q|..|p| + |q| + |r|] == r
            && s[|p| + |q| + |r|..|p| + |q| + |r| + |t|] == t
  {
  }

  /** Reading a header back recovers every field. */
  lemma ReadHeader(i: WaveInfo)
    ensures TagsAt(Header(i)) && ReadInfo(Header(i)) == i
  {
    HeaderLayout(i);
    ValueOfBytes(i.riffChunkSize, 4);
    ValueOfBytes(i.fmtChunkSize, 4);
    ValueOfBytes(i.audioFormat, 2);
    ValueOfBytes(i.channels, 2);
    ValueOfBytes(i.sampleRate, 4);
    ValueOfBytes(i.byteRate, 4);
    ValueOfBytes(i.blockAlign, 2);
    ValueOfBytes(i.bitsPerSample, 2);
    ValueOfBytes(i.dataChunkSize, 4);
  }

  /** Reading a written file recovers every header field and the data. */
  lemma ReadWrittenFile(w: Writer, filename: string, pcm: seq<byte>)
    requires ValidWriter(w) && |pcm| > 0 && |filename| > 0
    ensures ReadWave(WriteToFile(w, filename, pcm)) == Some(WaveFile(Info(w, |pcm|), pcm))
  {
    var i := Info(w, |pcm|);
    assert WriteToFile(w, filename, pcm)[..HEADER_SIZE] == Header(i);
    ReadHeader(i);
  }

  /** The sizes agree with the file whenever nothing wraps: the RIFF size
      counts every byte after the first eight and the data size is the
      data length. */
  lemma InfoSizes(w: Writer, dataLength: nat)
    requires ValidWriter(w)
    ensures var i := Info(w, dataLength);
            && i.fmtChunkSize == 16 && i.audioFormat == 1 && i.bitsPerSample == 24
            && i.channels == w.channels && i.sampleRate == w.sampleRate
            && (dataLength + 36 < 0x1_0000_0000 ==>
                  i.dataChunkSize == dataLength && 8 + i.riffChunkSize == HEADER_SIZE + dataLength)
  {
  }

  /** The rates agree with the WAVE format's relations whenever nothing
      wraps: a block holds one three-byte sample per channel, and the byte
      rate is one block per sample frame. */
  lemma InfoRates(w: Writer, dataLength: nat)
    requires ValidWriter(w)
    ensures var i := Info(w, dataLength);
            && (w.channels * 3 < 0x1_0000 ==> i.blockAlign == w.channels * 3)
            && (w.channels * 3 < 0x1_0000 && w.sampleRate * (w.channels * 3) < 0x1_0000_0000 ==>
                  i.byteRate == w.sampleRate * i.blockAlign)
  {
    var i := Info(w, dataLength);
    var align := w.channels * 3;
    TimesThree(w.sampleRate, w.channels);
    if align < 0x1_0000 {
      assert i.blockAlign == align;
      if w.sampleRate * align < 0x1_0000_0000 {
        assert i.byteRate == w.sampleRate * align;
      }
    }
  }

  lemma TimesThree(a: nat, b: nat)
    ensures a * b * 3 == a * (b * 3) >= 0
  {
  }

  // ---------------------------------------------------------------------
  // 24-bit samples

  /** The 24-bit sample range. */
  predicate In24(s: int) {
    -MAX_SAMPLE_PAXEL_INT <= s <= MAX_SAMPLE_PAXEL_INT
  }

  /** The three bytes the source copies out of a 32-bit two's-complement
      sample: its low three bytes on a little-endian host. */
  function Pack24(s: int32): (r: seq<byte>)
    ensures |r| == 3
  {
    Bytes(s % 0x100_0000, 3)
  }

  /** Three little-endian bytes read as a signed 24-bit number. */
  function Unpack24(bs: seq<byte>): int
    requires |bs| == 3
  {
    var v := Value(bs);
    if v >= 0x80_0000 then v - 0x100_0000 else v
  }

  /** Sign-extending the packed bytes recovers every sample the 24-bit
      two's-complement range holds, in particular every `In24` sample. */
  lemma Pack24RoundTrip(s: int32)
    requires -0x80_0000 <= s < 0x80_0000
    ensures Unpack24(Pack24(s)) == s
  {
    ValueOfBytes(s % 0x100_0000, 3);
  }

  /** The bundle scaling: C++ integer division by four, which truncates
      toward zero. */
  function QuarterTowardZero(x: int): (q: int)
    ensures x >= 0 ==> 0 <= 4 * q <= x < 4 * q + 4
    ensures x < 0 ==> 4 * q - 4 < x <= 4 * q <= 0
  {
    if x >= 0 then x / 4 else -((-x) / 4)
  }

  /** The value a sample of the given type is packed from: a paxel sample
      as it is, a bundle sample scaled down by four. */
  function Scaled(t: AudioSampleType, s: int32): int {
    if t == PaxelBundleInt then QuarterTowardZero(s) else s
  }

  /** The conversion packs the two integer paxel types; for any other
      type the bytes keep their initial zero. */
  predicate Packed(t: AudioSampleType) {
    t == PaxelInt || t == PaxelBundleInt
  }

  /** The source asserts every (scaled) sample it packs is in range. */
  predicate PcmReady(samples: seq<int32>, t: AudioSampleType) {
    Packed(t) ==> forall i :: 0 <= i < |samples| ==> In24(Scaled(t, samples[i]))
  }

  function SampleBytes(t: AudioSampleType, s: int32): (r: seq<byte>)
    ensures |r| == 3
  {
    if Packed(t) then
      var v := Scaled(t, s);
      assert -0x8000_0000 <= v < 0x8000_0000;
      Pack24(v)
    else [0, 0, 0]
  }

  /** Three-byte frames laid end to end. */
  function JoinFrames(cs: seq<seq<byte>>): (r: seq<byte>)
    requires forall k :: 0 <= k < |cs| ==> |cs[k]| == 3
    ensures |r| == 3 * |cs|
  {
    if cs == [] then [] else JoinFrames(cs[..|cs| - 1]) + cs[|cs| - 1]
  }

  /** Frame `i` occupies bytes `3i` to `3i + 3`. */
  lemma {:induction false} JoinFramesAt(cs: seq<seq<byte>>, i: nat)
    requires forall k :: 0 <= k < |cs| ==> |cs[k]| == 3
    requires i < |cs|
    ensures JoinFrames(cs)[3 * i .. 3 * i + 3] == cs[i]
  {
    var n := |cs|;
    var front := cs[..n - 1];
    var pf := JoinFrames(front);
    assert JoinFrames(cs) == pf + cs[n - 1];
    if i < n - 1 {
      JoinFramesAt(front, i);
      SliceLeft(pf, cs[n - 1], 3 * i, 3 * i + 3);
    } else {
      SliceRight(pf, cs[n - 1]);
    }
  }

  lemma SliceLeft(a: seq<byte>, b: seq<byte>, lo: nat, hi: nat)
    requires lo <= hi <= |a|
    ensures (a + b)[lo..hi] == a[lo..hi]
  {
  }

  lemma SliceRight(a: seq<byte>, b: seq<byte>)
    ensures (a + b)[|a|..|a| + |b|] == b
  {
  }

  function Frames(samples: seq<int32>, t: AudioSampleType): (r: seq<seq<byte>>)
    ensures |r| == |samples|
    ensures forall k :: 0 <= k < |samples| ==> r[k] == SampleBytes(t, samples[k]) && |r[k]| == 3
  {
    seq(|samples|, k requires 0 <= k < |samples| => SampleBytes(t, samples[k]))
  }

  /** The PCM bytes of a run of integer samples. */
  function Pcm(samples: seq<int32>, t: AudioSampleType): (r: seq<byte>)
    ensures |r| == PAXEL_BYTES_PER_SAMPLE * |samples|
  {
    JoinFrames(Frames(samples, t))
  }

  /** Sample `i` occupies bytes `3i` to `3i + 3`. */
  lemma PcmAt(samples: seq<int32>, t: AudioSampleType, i: nat)
    requires i < |samples|
    ensures 3 * i + 3 <= |Pcm(samples, t)|
    ensures Pcm(samples, t)[3 * i .. 3 * i + 3] == SampleBytes(t, samples[i])
  {
    JoinFramesAt(Frames(samples, t), i);
  }

  /** The signed 24-bit numbers held in a run of PCM bytes. */
  function DecodePcm(bytes: seq<byte>): (r: seq<int>)
    requires |bytes| % 3 == 0
    ensures |r| == |bytes| / 3
  {
    seq(|bytes| / 3, i requires 0 <= i < |bytes| / 3 => Unpack24(bytes[3 * i .. 3 * i + 3]))
  }

  /** Decoding the PCM bytes of packed samples gives back each sample as
      packed: a paxel sample itself, a bundle sample divided by four. */
  lemma DecodePcmOfSamples(samples: seq<int32>, t: AudioSampleType)
    requires Packed(t) && PcmReady(samples, t)
    ensures DecodePcm(Pcm(samples, t)) == seq(|samples|, i requires 0 <= i < |samples| => Scaled(t, samples[i]))
  {
    forall i | 0 <= i < |samples|
      ensures DecodePcm(Pcm(samples, t))[i] == Scaled(t, samples[i])
    {
      DecodePcmAt(samples, t, i);
    }
  }

  lemma DecodePcmAt(samples: seq<int32>, t: AudioSampleType, i: nat)
    requires Packed(t) && i < |samples| && In24(Scaled(t, samples[i]))
    ensures DecodePcm(Pcm(samples, t))[i] == Scaled(t, samples[i])
  {
    PcmAt(samples, t, i);
    Pack24RoundTrip(Scaled(t, samples[i]));
  }

  /** Samples of any other type leave every byte zero. */
  lemma UnpackedPcmIsSilent(samples: seq<int32>, t: AudioSampleType, k: nat)
    requires !Packed(t) && k < |Pcm(samples, t)|
    ensures Pcm(samples, t)[k] == 0
  {
    var i := k / 3;
    PcmAt(samples, t, i);
    assert Pcm(samples, t)[k] == Pcm(samples, t)[3 * i .. 3 * i + 3][k - 3 * i];
  }

  /** The conversion loop of the integer writer, one sample at a time. */
  method ConvertSamplesToPcm(samples: seq<int32>, t: AudioSampleType) returns (pcm: seq<byte>)
    requires |samples| > 0 && PcmReady(samples, t)
    ensures |pcm| == PAXEL_BYTES_PER_SAMPLE * |samples|
    ensures pcm == Pcm(samples, t)
  {
    ghost var frames := Frames(samples, t);
    pcm := [];
    var i := 0;
    while i < |samples|
      invariant 0 <= i <= |samples|
      invariant pcm == JoinFrames(frames[..i])
    {
      assert frames[..i + 1][..i] == frames[..i];
      pcm := pcm + SampleBytes(t, samples[i]);
      i := i + 1;
    }
    assert frames[..i] == frames;
  }

  /** The file written from integer samples of the given type. */
  function WriteSamples(w: Writer, filename: string, samples: seq<int32>, t: AudioSampleType): (file: seq<byte>)
    requires ValidWriter(w) && |filename| > 0 && |samples| > 0 && PcmReady(samples, t)
    ensures |file| == HEADER_SIZE + PAXEL_BYTES_PER_SAMPLE * |samples|
    ensures file[HEADER_SIZE..] == Pcm(samples, t)
  {
    WriteToFile(w, filename, Pcm(samples, t))
  }

  // ---------------------------------------------------------------------
  // Floating-point samples

  /** The float-to-integer cast is defined only when the truncated value
      fits in 32 bits. */
  predicate FitsInt32(x: real) {
    -0x8000_0000 <= Trunc(x * MAX_SAMPLE_PAXEL_INT as real) < 0x8000_0000
  }

  /** A float sample scaled to full 24-bit range and truncated toward
      zero; it keeps the sample's sign and stays in range for samples in
      [-1, 1]. */
  function Quantise(x: real): (r: int32)
    requires FitsInt32(x)
    ensures (r >= 0 && x >= 0.0) || (r <= 0 && x <= 0.0)
    ensures -1.0 <= x <= 1.0 ==> In24(r)
    ensures x >= 0.0 ==> r as real <= x * MAX_SAMPLE_PAXEL_INT as real < r as real + 1.0
    ensures x <= 0.0 ==> r as real - 1.0 < x * MAX_SAMPLE_PAXEL_INT as real <= r as real
  {
    Trunc(x * MAX_SAMPLE_PAXEL_INT as real)
  }

  function QuantiseAll(xs: seq<real>): (r: seq<int32>)
    requires forall i :: 0 <= i < |xs| ==> FitsInt32(xs[i])
    ensures |r| == |xs|
    ensures forall i :: 0 <= i < |xs| ==> r[i] == Quantise(xs[i])
  {
    seq(|xs|, i requires 0 <= i < |xs| => Quantise(xs[i]))
  }

  /** The float conversion loop: each sample is quantised and its low three
      bytes are copied, with no range check. */
  method ConvertFloatSamplesToPcm(xs: seq<real>) returns (pcm: seq<byte>)
    requires forall i :: 0 <= i < |xs| ==> FitsInt32(xs[i])
    ensures |pcm| == PAXEL_BYTES_PER_SAMPLE * |xs|
    ensures pcm == Pcm(QuantiseAll(xs), PaxelInt)
  {
    ghost var frames := Frames(QuantiseAll(xs), PaxelInt);
    pcm := [];
    var i := 0;
    while i < |xs|
      invariant 0 <= i <= |xs|
      invariant pcm == JoinFrames(frames[..i])
    {
      assert frames[..i + 1][..i] == frames[..i];
      var sample := Quantise(xs[i]);
      pcm := pcm + Pack24(sample);
      i := i + 1;
    }
    assert frames[..i] == frames;
  }

  /** Decoding the PCM bytes of float samples in [-1, 1] gives their
      quantised values. */
  lemma DecodeFloatPcm(xs: seq<real>)
    requires forall i :: 0 <= i < |xs| ==> -1.0 <= xs[i] <= 1.0 && FitsInt32(xs[i])
    ensures DecodePcm(Pcm(QuantiseAll(xs), PaxelInt)) == QuantiseAll(xs)
  {
    var qs := QuantiseAll(xs);
    DecodePcmOfSamples(qs, PaxelInt);
  }

  /** The file written from float samples. */
  function WriteFloatSamples(w: Writer, filename: string, xs: seq<real>): (file: seq<byte>)
    requires ValidWriter(w) && |filename| > 0 && |xs| > 0
    requires forall i :: 0 <= i < |xs| ==> FitsInt32(xs[i])
    ensures |file| == HEADER_SIZE + PAXEL_BYTES_PER_SAMPLE * |xs|
    ensures ReadWave(file) == Some(WaveFile(Info(w, 3 * |xs|), Pcm(QuantiseAll(xs), PaxelInt)))
  {
    var pcm := Pcm(QuantiseAll(xs), PaxelInt);
    ReadWrittenFile(w, filename, pcm);
    WriteToFile(w, filename, pcm)
  }
}
