/** The WAV container the transcription client uploads: the canonical 44-byte
    RIFF/WAVE header with a PCM `fmt ` chunk (mono, 16 kHz, 16 bits), followed
    by the samples as little-endian 16-bit integers. */
module Wav {
  import opened Wrappers
  import opened Bytes

  const SampleRate: int := 16000
  const Channels: int := 1
  const BitsPerSample: int := 16
  const HeaderSize: int := 44
  const ShortMin: int := -32768
  const ShortMax: int := 32767

  /** Kotlin's `coerceIn(Short.MIN_VALUE, Short.MAX_VALUE)`. */
  function Clamp16(x: int): (r: int)
    ensures ShortMin <= r <= ShortMax
    ensures ShortMin <= x <= ShortMax ==> r == x
    ensures x < ShortMin ==> r == ShortMin
    ensures x > ShortMax ==> r == ShortMax
  {
    if x < ShortMin then ShortMin else if x > ShortMax then ShortMax else x
  }

  /** Clamping twice is clamping once. */
  lemma Clamp16Idempotent(x: int)
    ensures Clamp16(Clamp16(x)) == Clamp16(x)
  {
  }

  /** The 44 header bytes for `n` samples, written the way the client writes
      them: byte-swapped `Int`s and `Short`s on a big-endian stream, with the
      sizes computed in 32-bit `Int` arithmetic. */
  function Header(n: nat): (h: seq<Byte>)
    ensures |h| == HeaderSize
  {
    WriteBytes("RIFF")
    + WriteIntReversed(ToInt32(36 + ToInt32(n * 2)))
    + WriteBytes("WAVE")
    + WriteBytes("fmt ")
    + WriteIntReversed(16)
    + WriteShortReversed(1)
    + WriteShortReversed(ToInt16(Channels))
    + WriteIntReversed(SampleRate)
    + WriteIntReversed(SampleRate * Channels * BitsPerSample / 8)
    + WriteShortReversed(ToInt16(Channels * BitsPerSample / 8))
    + WriteShortReversed(ToInt16(BitsPerSample))
    + WriteBytes("data")
    + WriteIntReversed(ToInt32(n * 2))
  }

  /** The two bytes written for one pre-scaled sample. */
  function SampleBytes(sample: int): (b: seq<Byte>)
    ensures |b| == 2
  {
    WriteShortReversed(ToInt16(Clamp16(sample)))
  }

  /** The sample bytes, in order. */
  function Samples(samples: seq<int>): (b: seq<Byte>)
    ensures |b| == 2 * |samples|
  {
    if |samples| == 0 then [] else SampleBytes(samples[0]) + Samples(samples[1..])
  }

  /** `convertFloatArrayToWav` from the pre-scaled integer samples. */
  function ConvertToWav(samples: seq<int>): (wav: seq<Byte>)
    ensures |wav| == HeaderSize + 2 * |samples|
    ensures wav[..HeaderSize] == Header(|samples|)
  {
    Header(|samples|) + Samples(samples)
  }

  /** The canonical header, field by field, as the RIFF/WAVE format lays it out. */
  function CanonicalHeader(n: nat): (h: seq<Byte>)
    ensures |h| == HeaderSize
  {
    WriteBytes("RIFF") + Le32(36 + 2 * n) + WriteBytes("WAVE")
    + WriteBytes("fmt ") + Le32(16) + Le16(1) + Le16(1) + Le32(16000) + Le32(32000)
    + Le16(2) + Le16(16)
    + WriteBytes("data") + Le32(2 * n)
  }

  /** The bytes the client writes are the canonical header. */
  lemma HeaderIsCanonical(n: nat)
    ensures Header(n) == CanonicalHeader(n)
  {
    assert WriteIntReversed(ToInt32(36 + ToInt32(n * 2))) == Le32(36 + 2 * n) by { WrappedSizes(n); }
    assert WriteIntReversed(ToInt32(n * 2)) == Le32(2 * n) by { WrappedSizes(n); }
    ConstantFields();
  }

  /** The fixed format fields come out as the canonical values. */
  lemma ConstantFields()
    ensures WriteIntReversed(SampleRate) == Le32(16000)
    ensures WriteIntReversed(SampleRate * Channels * BitsPerSample / 8) == Le32(32000)
    ensures WriteShortReversed(ToInt16(Channels)) == Le16(1)
    ensures WriteShortReversed(ToInt16(Channels * BitsPerSample / 8)) == Le16(2)
    ensures WriteShortReversed(ToInt16(BitsPerSample)) == Le16(16)
  {
    assert SampleRate * Channels * BitsPerSample / 8 == 32000;
    assert ToInt16(Channels) == 1 && ToInt16(Channels * BitsPerSample / 8) == 2 && ToInt16(BitsPerSample) == 16;
  }

  /** The 32-bit wrap-around of the client's size arithmetic does not change
      the encoded bytes. */
  lemma WrappedSizes(n: nat)
    ensures Le32(ToInt32(36 + ToInt32(n * 2))) == Le32(36 + 2 * n)
    ensures Le32(ToInt32(n * 2)) == Le32(2 * n)
  {
    AddCongruent32(ToInt32(n * 2), n * 2, 36);
  }

  /** The bytes of sample `i` sit at offset 2i of the sample area. */
  lemma {:induction false} SamplesAt(samples: seq<int>, i: nat)
    requires i < |samples|
    ensures Samples(samples)[2 * i .. 2 * i + 2] == SampleBytes(samples[i])
  {
    if i > 0 {
      SamplesAt(samples[1..], i - 1);
      SliceAfter(SampleBytes(samples[0]), Samples(samples[1..]), 2 * i, 2 * i + 2);
    }
  }

  /** Sample `i` decodes, as a little-endian signed 16-bit value, to the
      clamped input sample. */
  lemma SampleDecodes(samples: seq<int>, i: nat)
    requires i < |samples|
    ensures var wav := ConvertToWav(samples);
      DecodeLe16Signed(wav[HeaderSize + 2 * i .. HeaderSize + 2 * i + 2]) == Clamp16(samples[i])
  {
    var wav := ConvertToWav(samples);
    assert wav[HeaderSize + 2 * i .. HeaderSize + 2 * i + 2] == SampleBytes(samples[i]) by {
      SamplesAt(samples, i);
      SliceAfter(Header(|samples|), Samples(samples), HeaderSize + 2 * i, HeaderSize + 2 * i + 2);
    }
    SampleBytesDecode(samples[i]);
  }

  /** A slice that lies past `a` is a slice of `b`. */
  lemma SliceAfter(a: seq<Byte>, b: seq<Byte>, i: int, j: int)
    requires |a| <= i <= j <= |a| + |b|
    ensures (a + b)[i..j] == b[i - |a| .. j - |a|]
  {
  }

  /** The two bytes of one sample decode to the clamped sample. */
  lemma SampleBytesDecode(sample: int)
    ensures DecodeLe16Signed(SampleBytes(sample)) == Clamp16(sample)
  {
    var c := Clamp16(sample);
    WriteShortOfReversed(ToInt16(c));
    Le16RoundTrip(c);
  }

  /** A decoded PCM stream. */
  datatype Pcm = Pcm(channels: int, sampleRate: int, bitsPerSample: int, samples: seq<int>)

  /** The fields of a 44-byte canonical header `h` of a file of `total` bytes,
      as a reader of the format checks them. */
  predicate HeaderFieldsValid(h: seq<Byte>, total: int)
    requires |h| == HeaderSize
  {
    && h[0..4] == WriteBytes("RIFF")
    && DecodeLe32(h[4..8]) == total - 8
    && h[8..12] == WriteBytes("WAVE")
    && h[12..16] == WriteBytes("fmt ")
    && DecodeLe32(h[16..20]) == 16
    && DecodeLe16(h[20..22]) == 1
    && DecodeLe32(h[28..32]) == DecodeLe32(h[24..28]) * DecodeLe16(h[32..34])
    && DecodeLe16(h[32..34]) * 8 == DecodeLe16(h[22..24]) * DecodeLe16(h[34..36])
    && h[36..40] == WriteBytes("data")
    && DecodeLe32(h[40..44]) == total - HeaderSize
  }

  /** The samples of a data area, read as little-endian signed 16-bit values. */
  function DecodeSamples(b: seq<Byte>): (s: seq<int>)
    requires |b| % 2 == 0
    ensures |s| == |b| / 2
  {
    if |b| == 0 then [] else [DecodeLe16Signed(b[..2])] + DecodeSamples(b[2..])
  }

  /** The fields a reader takes from a header. */
  datatype WavHeader = WavHeader(channels: int, sampleRate: int, bitsPerSample: int, dataSize: int)

  /** Reads a 44-byte canonical header of a file of `total` bytes; `None`
      when the fields do not check out. */
  function ParseHeader(h: seq<Byte>, total: int): Option<WavHeader>
    requires |h| == HeaderSize
  {
    if !HeaderFieldsValid(h, total) then None
    else Some(WavHeader(DecodeLe16(h[22..24]), DecodeLe32(h[24..28]), DecodeLe16(h[34..36]), DecodeLe32(h[40..44])))
  }

  /** Reads a 16-bit PCM WAV file with a canonical header; `None` when the
      header does not check out. */
  function ParseWav(b: seq<Byte>): Option<Pcm> {
    if |b| < HeaderSize || (|b| - HeaderSize) % 2 != 0 then None
    else match ParseHeader(b[..HeaderSize], |b|)
      case None => None
      case Some(header) =>
        if header.bitsPerSample != BitsPerSample then None
        else Some(Pcm(header.channels, header.sampleRate, BitsPerSample, DecodeSamples(b[HeaderSize..])))
  }

  /** Decoding the sample area gives back the clamped samples. */
  lemma {:induction false} DecodeSamplesOfSamples(samples: seq<int>)
    ensures DecodeSamples(Samples(samples)) == seq(|samples|, i requires 0 <= i < |samples| => Clamp16(samples[i]))
  {
    if |samples| > 0 {
      var b := Samples(samples);
      DecodeSamplesOfSamples(samples[1..]);
      assert b[..2] == SampleBytes(samples[0]);
      assert b[2..] == Samples(samples[1..]);
      SampleBytesDecode(samples[0]);
    }
  }

  /** A reader of the format gets back a mono 16 kHz 16-bit stream of the
      clamped samples, as long as the RIFF size `36 + 2n` is below 2^32; the
      `Int` wrap-around writes the same bytes below that bound (`WrappedSizes`). */
  lemma WavRoundTrip(samples: seq<int>)
    requires 36 + 2 * |samples| < TwoTo32
    ensures ParseWav(ConvertToWav(samples))
      == Some(Pcm(Channels, SampleRate, BitsPerSample, seq(|samples|, i requires 0 <= i < |samples| => Clamp16(samples[i]))))
  {
    var header := WavLayout(samples);
    DivModUnique(2 * |samples|, 2, |samples|, 0);
    ParseWavOf(header, Samples(samples), WavHeader(Channels, SampleRate, BitsPerSample, 2 * |samples|));
    DecodeSamplesOfSamples(samples);
  }

  /** The file is a header that reads as mono, 16 kHz, 16 bits, followed by
      the sample area. */
  lemma WavLayout(samples: seq<int>) returns (header: seq<Byte>)
    requires 36 + 2 * |samples| < TwoTo32
    ensures |header| == HeaderSize
    ensures ConvertToWav(samples) == header + Samples(samples)
    ensures ParseHeader(header, HeaderSize + |Samples(samples)|)
         == Some(WavHeader(Channels, SampleRate, BitsPerSample, 2 * |samples|))
  {
    header := CanonicalHeader(|samples|);
    WavIsHeaderThenSamples(samples);
    CanonicalHeaderParses(|samples|, HeaderSize + |Samples(samples)|);
  }

  lemma WavIsHeaderThenSamples(samples: seq<int>)
    ensures ConvertToWav(samples) == CanonicalHeader(|samples|) + Samples(samples)
  {
    HeaderIsCanonical(|samples|);
  }

  /** A file whose header checks out is read as that header's stream. */
  lemma ParseWavOf(header: seq<Byte>, data: seq<Byte>, h: WavHeader)
    requires |header| == HeaderSize && |data| % 2 == 0
    requires ParseHeader(header, HeaderSize + |data|) == Some(h)
    requires h.bitsPerSample == BitsPerSample
    ensures ParseWav(header + data) == Some(Pcm(h.channels, h.sampleRate, BitsPerSample, DecodeSamples(data)))
  {
    var b := header + data;
    assert b[..HeaderSize] == header && b[HeaderSize..] == data;
  }

  /** A reader takes mono, 16 kHz, 16 bits and the data size from the
      canonical header. */
  lemma CanonicalHeaderParses(n: nat, total: int)
    requires 36 + 2 * n < TwoTo32 && total == HeaderSize + 2 * n
    ensures ParseHeader(CanonicalHeader(n), total) == Some(WavHeader(Channels, SampleRate, BitsPerSample, 2 * n))
  {
    CanonicalHeaderFields(n);
  }

  /** What a reader finds in the canonical header of a file of `n` samples. */
  lemma CanonicalHeaderFields(n: nat)
    requires 36 + 2 * n < TwoTo32
    ensures var h := CanonicalHeader(n);
      && |h| == HeaderSize
      && HeaderFieldsValid(h, HeaderSize + 2 * n)
      && DecodeLe16(h[22..24]) == Channels
      && DecodeLe32(h[24..28]) == SampleRate
      && DecodeLe16(h[34..36]) == BitsPerSample
      && DecodeLe32(h[40..44]) == 2 * n
  {
    var h := CanonicalHeader(n);
    assert h[4..8] == Le32(36 + 2 * n);
    assert h[16..20] == Le32(16);
    assert h[20..22] == Le16(1);
    assert h[22..24] == Le16(1);
    assert h[24..28] == Le32(16000);
    assert h[28..32] == Le32(32000);
    assert h[32..34] == Le16(2);
    assert h[34..36] == Le16(16);
    assert h[40..44] == Le32(2 * n);
    Le32RoundTrip(36 + 2 * n);
    Le32RoundTrip(16);
    Le32RoundTrip(16000);
    Le32RoundTrip(32000);
    Le32RoundTrip(2 * n);
    Le16RoundTrip(1);
    Le16RoundTrip(2);
    Le16RoundTrip(16);
  }

  /** The two size fields: the RIFF size is the total length less 8, the data
      size the total length less the header. */
  lemma SizeFields(samples: seq<int>)
    requires 36 + 2 * |samples| < TwoTo32
    ensures var wav := ConvertToWav(samples);
      DecodeLe32(wav[4..8]) == |wav| - 8 && DecodeLe32(wav[40..44]) == |wav| - HeaderSize
  {
    var header := WavLayout(samples);
    var wav := ConvertToWav(samples);
    assert HeaderFieldsValid(header, |wav|);
    assert wav[4..8] == header[4..8] && wav[40..44] == header[40..44];
  }
}
