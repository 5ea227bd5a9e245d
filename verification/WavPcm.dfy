/** Decoding integer PCM (src/replacement/wav_audio_loader.cpp): samples, limits, and the round trip from written
    frames to loaded audio. */
module WavPcm {
  import opened Wrappers
  import opened W = WavAudioLoader
  import R = ReplacementRenderer

  datatype LoadOptions = LoadOptions(maxFileBytes: nat, maxDecodedSamples: nat)

  datatype LoadResult = LoadResult(status: Status, info: Info, audio: R.AudioBuffer)

  const NO_AUDIO := R.AudioBuffer(48000, 1, [])

  const SIZE_MAX: int := 0xFFFF_FFFF_FFFF_FFFF

  predicate IsWidth(bits: nat) { bits == 8 || bits == 16 || bits == 24 || bits == 32 }

  /** 2^(bits - 1). */
  function Half(bits: nat): (h: int)
    requires IsWidth(bits)
    ensures h > 0
  {
    if bits == 8 then 128 else if bits == 16 then 32768 else if bits == 24 then 8388608 else 2147483648
  }

  // ---- one sample -----------------------------------------------------------------------------------------

  function Signed(n: nat, half: nat): int { if n >= half then n - 2 * half else n }

  /** The spacing of binary32 numbers (24-bit significand) of this magnitude. */
  function Ulp(m: nat): (u: nat)
    ensures u > 0
  {
    if m < 16777216 then 1 else 2 * Ulp(m / 2)
  }

  function RoundHalfEven(m: nat, u: nat): (n: int)
    requires u > 0
    ensures n >= 0
  {
    var q, r := m / u, m % u;
    if 2 * r < u || (2 * r == u && q % 2 == 0) then q * u else (q + 1) * u
  }

  /** Conversion of an integer to binary32, to nearest with ties to even (section 4.3.1 of IEEE 754-2019). */
  function ToSingle(v: int): int
  {
    if v < 0 then -RoundHalfEven(-v, Ulp(-v)) else RoundHalfEven(v, Ulp(v))
  }

  function DecodeSample(b: Bytes, o: nat, bits: nat): real
    requires IsWidth(bits) && o + bits / 8 <= |b|
  {
    match bits
    case 8 => (b[o] as int - 128) as real / 128.0
    case 16 => Signed(ReadU16(b, o), 32768) as real / 32768.0
    case 24 => Signed(b[o] as int + b[o + 1] as int * 256 + b[o + 2] as int * 65536, 8388608) as real / 8388608.0
    case _ => ToSingle(Signed(ReadU32(b, o), 2147483648)) as real / 2147483648.0
  }

  predicate InRange(v: int, bits: nat)
    requires IsWidth(bits)
  {
    -Half(bits) <= v < Half(bits)
  }

  /** The bytes of a sample value: offset binary for 8 bits, little-endian two's complement above. */
  function EncodeSample(v: int, bits: nat): (b: Bytes)
    requires IsWidth(bits) && InRange(v, bits)
    ensures |b| == bits / 8
  {
    var n := if v < 0 then v + 2 * Half(bits) else v;
    match bits
    case 8 => [v + 128]
    case 16 => Le16(n)
    case 24 => [n % 256, n / 256 % 256, n / 256 / 256]
    case _ => Le32(n)
  }

  /** What a value decodes to. */
  function Level(v: int, bits: nat): real
    requires IsWidth(bits)
  {
    (if bits == 32 then ToSingle(v) else v) as real / Half(bits) as real
  }

  lemma SampleRoundTrip(v: int, bits: nat, b: Bytes, o: nat)
    requires IsWidth(bits) && InRange(v, bits)
    requires o + bits / 8 <= |b| && b[o..o + bits / 8] == EncodeSample(v, bits)
    ensures DecodeSample(b, o, bits) == Level(v, bits)
  {
    hide ToSingle;
    var s, n := EncodeSample(v, bits), if v < 0 then v + 2 * Half(bits) else v;
    match bits
    case 8 => assert b[o] == s[0];
    case 16 => ReadsBackU16(n, b, o);
    case 24 => assert b[o] == s[0] && b[o + 1] == s[1] && b[o + 2] == s[2];
    case _ => ReadsBackU32(n, b, o);
  }

  /** 8, 16 and 24 bits decode to exactly value / 2^(bits-1), in [-1, 1). */
  lemma NarrowSamplesAreExact(v: int, bits: nat)
    requires IsWidth(bits) && bits < 32 && InRange(v, bits)
    ensures Level(v, bits) == v as real / Half(bits) as real && -1.0 <= Level(v, bits) < 1.0
  {
  }

  function Pow2(k: nat): (p: nat)
    ensures p > 0
  {
    if k == 0 then 1 else 2 * Pow2(k - 1)
  }

  lemma {:induction false} UlpOfMagnitude(m: nat, k: nat)
    requires m < 16777216 * Pow2(k) && (k == 0 || m >= 8388608 * Pow2(k))
    ensures Ulp(m) == Pow2(k)
  {
    if k > 0 {
      UlpOfMagnitude(m / 2, k - 1);
    }
  }

  /** Below 2^31 the spacing is a power of two up to 128; from 2^30 on it is 128. */
  lemma UlpBelowTwo31(m: nat)
    requires m <= 2147483648
    ensures m < 1073741824 ==> Ulp(m) <= 64
    ensures 1073741824 <= m < 2147483648 ==> Ulp(m) == 128
    ensures m == 2147483648 ==> Ulp(m) == 256
  {
    assert Pow2(1) == 2 && Pow2(2) == 4 && Pow2(3) == 8 && Pow2(4) == 16;
    assert Pow2(5) == 32 && Pow2(6) == 64 && Pow2(7) == 128 && Pow2(8) == 256;
    UlpOfMagnitude(m,
      if m < 16777216 then 0 else if m < 33554432 then 1 else if m < 67108864 then 2 else if m < 134217728 then 3
      else if m < 268435456 then 4 else if m < 536870912 then 5 else if m < 1073741824 then 6
      else if m < 2147483648 then 7 else 8);
  }

  lemma RoundingBounds(m: nat, u: nat)
    requires u > 0
    ensures m - u < RoundHalfEven(m, u) <= m + u
    ensures RoundHalfEven(m, u) == m <==> m % u == 0
  {
    var q, r := m / u, m % u;
    assert m == q * u + r;
    assert (q + 1) * u == q * u + u;
  }

  /** A 32-bit sample passes through binary32: it is exact if and only if its value fits the 24-bit significand, and
      it lies in [-1, 1) if and only if it is below 2^31 - 64; it never leaves [-1, 1]. */
  lemma WideSamplesRound(v: int)
    requires -2147483648 <= v < 2147483648
    ensures var m := if v < 0 then -v else v;
      Level(v, 32) == v as real / 2147483648.0 <==> m % Ulp(m) == 0
    ensures -1.0 <= Level(v, 32) <= 1.0
    ensures Level(v, 32) < 1.0 <==> v < 2147483648 - 64
  {
    hide Ulp, RoundHalfEven;
    var m := if v < 0 then -v else v;
    RoundingBounds(m, Ulp(m));
    UlpBelowTwo31(m);
    TopOfRange(m);
    assert Level(v, 32) == ToSingle(v) as real / 2147483648.0;
    if ToSingle(v) == v {
      assert m % Ulp(m) == 0;
    }
  }

  lemma TopOfRange(m: nat)
    requires m <= 2147483648
    ensures RoundHalfEven(m, Ulp(m)) <= 2147483648
    ensures m < 2147483648 ==> (RoundHalfEven(m, Ulp(m)) < 2147483648 <==> m < 2147483648 - 64)
  {
    hide Ulp;
    UlpBelowTwo31(m);
    if m < 1073741824 {
      RoundingBounds(m, Ulp(m));
    }
  }

  /** The largest 32-bit sample is loaded as exactly 1, outside the half-open range. */
  lemma LargestSampleReachesOne()
    ensures DecodeSample([255, 255, 255, 127], 0, 32) == 1.0
  {
    UlpBelowTwo31(2147483647);
    assert ToSingle(2147483647) == 2147483648;
  }

  // ---- loading --------------------------------------------------------------------------------------------

  function DecodeBody(body: Bytes, bits: nat): (samples: seq<real>)
    requires IsWidth(bits)
    ensures |samples| == |body| / (bits / 8)
  {
    var w := bits / 8;
    seq(|body| / w, i requires 0 <= i < |body| / w => (SampleFits(i, w, |body|); DecodeSample(body, i * w, bits)))
  }

  lemma SampleFits(i: nat, w: nat, size: nat)
    requires w > 0 && i < size / w
    ensures i * w + w <= size
  {
    assert (i + 1) * w <= (size / w) * w;
  }

  function Failed(status: Status, info: Info): LoadResult { LoadResult(status, info, NO_AUDIO) }

  predicate TooManySamples(info: Info, options: LoadOptions)
    requires info.format.channels > 0
  {
    options.maxDecodedSamples == 0 || info.frameCount > SIZE_MAX / info.format.channels ||
    info.frameCount * info.format.channels > options.maxDecodedSamples
  }

  function Load(bytes: Bytes, options: LoadOptions): LoadResult
  {
    if bytes == [] then Failed(TruncatedHeader, Info(NO_FORMAT, 0, 0, 0))
    else if options.maxFileBytes == 0 || |bytes| > options.maxFileBytes then Failed(TooLarge, Info(NO_FORMAT, 0, 0, 0))
    else
      var parsed := Parse(bytes);
      if parsed.status != Success then Failed(parsed.status, parsed.info)
      else
        AcceptedData(Contents(bytes));
        if TooManySamples(parsed.info, options) then Failed(TooLarge, parsed.info)
        else
          LoadResult(Success, parsed.info, R.AudioBuffer(parsed.info.format.sampleRate, parsed.info.format.channels,
            DecodeBody(Contents(bytes).data.value, parsed.info.format.bitsPerSample)))
  }

  lemma SampleCount(frames: nat, channels: nat, w: nat)
    requires w > 0
    ensures frames * (channels * w) / w == frames * channels
  {
    assert frames * (channels * w) == (frames * channels) * w;
    R.DivMod(frames * channels, 0, w);
  }

  /** load_wav_pcm, from the bytes of a regular local file on: every decode read stays inside the data chunk. */
  method LoadWav(bytes: Bytes, options: LoadOptions) returns (result: LoadResult)
    ensures result == Load(bytes, options)
  {
    hide Parse, Contents, DecodeSample;
    if |bytes| == 0 {
      return Failed(TruncatedHeader, Info(NO_FORMAT, 0, 0, 0));
    }
    if options.maxFileBytes == 0 || |bytes| > options.maxFileBytes {
      return Failed(TooLarge, Info(NO_FORMAT, 0, 0, 0));
    }
    var parsed := ParseWav(bytes);
    if parsed.status != Success {
      return Failed(parsed.status, parsed.info);
    }
    var f := parsed.info.format;
    Accepted(bytes);
    if TooManySamples(parsed.info, options) {
      return Failed(TooLarge, parsed.info);
    }
    var samples := DecodeAll(bytes, parsed.info);
    return LoadResult(Success, parsed.info, R.AudioBuffer(f.sampleRate, f.channels, samples));
  }

  lemma Accepted(bytes: Bytes)
    requires Parse(bytes).status == Success
    ensures var i := Parse(bytes).info;
      SupportedFormat(i.format) && ConsistentFormat(i.format) && i.dataBytes == i.frameCount * i.format.blockAlign &&
      |bytes| >= 12 && Complete(bytes) && Contents(bytes).data.Some?
  {
    hide Contents, Judge;
    AcceptedData(Contents(bytes));
  }

  method DecodeAll(bytes: Bytes, info: Info) returns (samples: seq<real>)
    requires SupportedFormat(info.format) && ConsistentFormat(info.format)
    requires info.dataBytes == info.frameCount * info.format.blockAlign && info.dataOffset + info.dataBytes <= |bytes|
    ensures samples == DecodeBody(bytes[info.dataOffset..info.dataOffset + info.dataBytes], info.format.bitsPerSample)
  {
    hide DecodeSample;
    var bits, w := info.format.bitsPerSample, info.format.bitsPerSample / 8;
    var count := info.frameCount * info.format.channels;
    SampleCount(info.frameCount, info.format.channels, w);
    ghost var body := bytes[info.dataOffset..info.dataOffset + info.dataBytes];
    var buffer := new real[count](_ => 0.0);
    for index := 0 to count
      invariant buffer[..index] == DecodeBody(body, bits)[..index]
    {
      SampleFits(index, w, |body|);
      DecodesInPlace(bytes, info.dataOffset, info.dataBytes, index * w, bits);
      buffer[index] := DecodeSample(bytes, info.dataOffset + index * w, bits);
      assert buffer[..index + 1] == buffer[..index] + [buffer[index]];
      assert DecodeBody(body, bits)[..index + 1] == DecodeBody(body, bits)[..index] + [DecodeBody(body, bits)[index]];
    }
    assert buffer[..count] == buffer[..];
    return buffer[..];
  }

  lemma DecodesInPlace(bytes: Bytes, at: nat, size: nat, o: nat, bits: nat)
    requires IsWidth(bits) && at + size <= |bytes| && o + bits / 8 <= size
    ensures DecodeSample(bytes[at..at + size], o, bits) == DecodeSample(bytes, at + o, bits)
  {
    ReadsInSlice(bytes, at, at + size, o);
  }

  // ---- the round trip -------------------------------------------------------------------------------------

  ghost predicate AllInRange(values: seq<int>, bits: nat)
    requires IsWidth(bits)
  {
    forall v :: v in values ==> InRange(v, bits)
  }

  function EncodeAll(values: seq<int>, bits: nat): (b: Bytes)
    requires IsWidth(bits) && AllInRange(values, bits)
    ensures |b| == |values| * (bits / 8)
  {
    if values == [] then []
    else
      assert values[|values| - 1] in values;
      EncodeAll(values[..|values| - 1], bits) + EncodeSample(values[|values| - 1], bits)
  }

  lemma {:induction false} EncodedSample(values: seq<int>, bits: nat, i: nat)
    requires IsWidth(bits) && AllInRange(values, bits) && i < |values|
    ensures InRange(values[i], bits)
    ensures var w := bits / 8;
      i * w + w <= |EncodeAll(values, bits)| &&
        EncodeAll(values, bits)[i * w..i * w + w] == EncodeSample(values[i], bits)
  {
    hide EncodeSample, InRange, Half;
    var w, front := bits / 8, values[..|values| - 1];
    assert values[i] in values;
    if i < |front| {
      EncodedSample(front, bits, i);
    } else {
      assert i * w == |EncodeAll(front, bits)|;
    }
  }

  lemma DecodesEncoded(values: seq<int>, bits: nat)
    requires IsWidth(bits) && AllInRange(values, bits)
    ensures |DecodeBody(EncodeAll(values, bits), bits)| == |values|
    ensures forall i :: 0 <= i < |values| ==> DecodeBody(EncodeAll(values, bits), bits)[i] == Level(values[i], bits)
  {
    hide EncodeAll, EncodeSample, DecodeSample, Level;
    var body, w := EncodeAll(values, bits), bits / 8;
    R.DivMod(|values|, 0, w);
    forall i | 0 <= i < |values|
      ensures DecodeBody(body, bits)[i] == Level(values[i], bits)
    {
      EncodedSample(values, bits, i);
      assert values[i] in values;
      SampleRoundTrip(values[i], bits, body, i * w);
    }
  }

  function PcmFormat(channels: nat, rate: nat, bits: nat): Format
  {
    Format(1, channels, rate, rate * (channels * (bits / 8)), channels * (bits / 8), bits)
  }

  function FormatBytes(f: Format): (b: Bytes)
    requires f.audioFormat < 65536 && f.channels < 65536 && f.sampleRate < LIMIT32 && f.byteRate < LIMIT32
    requires f.blockAlign < 65536 && f.bitsPerSample < 65536
    ensures |b| == 16
  {
    Le16(f.audioFormat) + Le16(f.channels) + Le32(f.sampleRate) + Le32(f.byteRate) + Le16(f.blockAlign) +
    Le16(f.bitsPerSample)
  }

  lemma FormatRoundTrip(f: Format)
    requires f.audioFormat < 65536 && f.channels < 65536 && f.sampleRate < LIMIT32 && f.byteRate < LIMIT32
    requires f.blockAlign < 65536 && f.bitsPerSample < 65536
    ensures FormatOf(FormatBytes(f)) == f
  {
    hide Le16, Le32, ReadU16, ReadU32;
    var b := FormatBytes(f);
    assert b[0..2] == Le16(f.audioFormat) && b[2..4] == Le16(f.channels) && b[4..8] == Le32(f.sampleRate);
    assert b[8..12] == Le32(f.byteRate) && b[12..14] == Le16(f.blockAlign) && b[14..16] == Le16(f.bitsPerSample);
    ReadsBackU16(f.audioFormat, b, 0);
    ReadsBackU16(f.channels, b, 2);
    ReadsBackU32(f.sampleRate, b, 4);
    ReadsBackU32(f.byteRate, b, 8);
    ReadsBackU16(f.blockAlign, b, 12);
    ReadsBackU16(f.bitsPerSample, b, 14);
  }

  // The sizes for which a file of this many sample values can be written and is accepted.
  predicate Writable(channels: nat, rate: nat, bits: nat, count: nat)
  {
    1 <= channels <= 32 && 1 <= rate <= 384000 && IsWidth(bits) && count % channels == 0 &&
    count * (bits / 8) + count * (bits / 8) % 2 + 36 < LIMIT32
  }

  function WavChunks(channels: nat, rate: nat, bits: nat, values: seq<int>): (cs: seq<Chunk>)
    requires Writable(channels, rate, bits, |values|) && AllInRange(values, bits)
    ensures AllWellFormed(cs)
  {
    FormatFits(channels, rate, bits);
    var body := EncodeAll(values, bits);
    [Chunk(FMT, FormatBytes(PcmFormat(channels, rate, bits)), []),
     Chunk(DATA, body, if |body| % 2 == 1 then [0] else [])]
  }

  lemma FormatFits(channels: nat, rate: nat, bits: nat)
    requires 1 <= channels <= 32 && 1 <= rate <= 384000 && IsWidth(bits)
    ensures var f := PcmFormat(channels, rate, bits);
      SupportedFormat(f) && ConsistentFormat(f) && f.byteRate < LIMIT32 && 0 < f.blockAlign <= 128
  {
    ProductBound(channels, 32, bits / 8, 4);
    ProductBound(rate, 384000, channels * (bits / 8), 128);
  }

  lemma ProductBound(a: nat, b: nat, c: nat, d: nat)
    requires a <= b && c <= d
    ensures a * c <= b * d && (a > 0 && c > 0 ==> a * c > 0)
  {
    assert a * c <= b * c;
    assert b * c <= b * d;
  }

  lemma WrittenSize(channels: nat, rate: nat, bits: nat, values: seq<int>)
    requires Writable(channels, rate, bits, |values|) && AllInRange(values, bits)
    ensures 4 + |Serialize(WavChunks(channels, rate, bits, values))| < LIMIT32
  {
    var cs := WavChunks(channels, rate, bits, values);
    assert cs[1..][1..] == [];
    assert Serialize(cs) == ChunkBytes(cs[0]) + (ChunkBytes(cs[1]) + Serialize([]));
  }

  function WavFile(channels: nat, rate: nat, bits: nat, values: seq<int>): Bytes
    requires Writable(channels, rate, bits, |values|) && AllInRange(values, bits)
  {
    WrittenSize(channels, rate, bits, values);
    RiffFile(WavChunks(channels, rate, bits, values), [])
  }

  /** The scan of the written chunks: the format that was written, and the encoded samples. */
  lemma WrittenScan(channels: nat, rate: nat, bits: nat, values: seq<int>)
    requires Writable(channels, rate, bits, |values|) && AllInRange(values, bits)
    ensures Fold(WavChunks(channels, rate, bits, values), 12, BLANK) ==
      if values == [] then Scan(EmptyData, Some(PcmFormat(channels, rate, bits)), 0, None)
      else Scan(Success, Some(PcmFormat(channels, rate, bits)), 44, Some(EncodeAll(values, bits)))
  {
    hide FormatOf, FormatBytes, EncodeAll;
    FormatFits(channels, rate, bits);
    FormatRoundTrip(PcmFormat(channels, rate, bits));
    var cs := WavChunks(channels, rate, bits, values);
    assert cs == [cs[0]] + ([cs[1]] + []);
    FoldCons(cs[0], [cs[1]] + [], 12, BLANK);
    FoldCons(cs[1], [], 36, Take(BLANK, cs[0], 12));
    NonEmptyBody(values, bits);
  }

  lemma NonEmptyBody(values: seq<int>, bits: nat)
    requires IsWidth(bits) && AllInRange(values, bits)
    ensures EncodeAll(values, bits) == [] <==> values == []
  {
    ProductBound(1, |values| + 1, bits / 8, bits / 8);
    assert values != [] ==> |values| * (bits / 8) >= 1 * (bits / 8);
  }

  lemma WholeFrames(count: nat, channels: nat, w: nat)
    requires channels > 0 && w > 0 && count % channels == 0
    ensures channels * w > 0 && (count * w) % (channels * w) == 0 && count * w / (channels * w) * channels == count
  {
    var frames := count / channels;
    ProductBound(1, channels, 1, w);
    assert count == frames * channels;
    assert count * w == frames * (channels * w);
    R.DivMod(frames, 0, channels * w);
  }

  /** Writing integer PCM frames and loading the file returns every sample at its level, for 8, 16, 24 and 32 bits,
      1 to 32 channels and any length within the limits; a file without samples is refused. */
  lemma LoadsWhatWasWritten(channels: nat, rate: nat, bits: nat, values: seq<int>, options: LoadOptions)
    requires Writable(channels, rate, bits, |values|) && AllInRange(values, bits)
    requires |WavFile(channels, rate, bits, values)| <= options.maxFileBytes
    ensures var loaded := Load(WavFile(channels, rate, bits, values), options);
      if values == [] then loaded.status == EmptyData && loaded.audio == NO_AUDIO
      else if |values| > options.maxDecodedSamples then loaded.status == TooLarge && loaded.audio == NO_AUDIO
      else
        loaded.status == Success && loaded.audio.sampleRate == rate && loaded.audio.channels == channels &&
        |loaded.audio.samples| == |values| &&
        forall i :: 0 <= i < |values| ==> loaded.audio.samples[i] == Level(values[i], bits)
  {
    hide WavFile, EncodeAll, Parse, Contents, ReadU32, Level, InRange, DecodeBody, Judge;
    var file := WavFile(channels, rate, bits, values);
    WrittenParse(channels, rate, bits, values);
    if values != [] {
      DecodesEncoded(values, bits);
      LimitIsSampleCount(Parse(file).info, channels, |values|, options);
    }
  }

  lemma LimitIsSampleCount(info: Info, channels: nat, count: nat, options: LoadOptions)
    requires info.format.channels == channels && 0 < channels <= 32 && 0 < count < LIMIT32
    requires info.frameCount * channels == count
    ensures TooManySamples(info, options) <==> count > options.maxDecodedSamples
  {
    ProductBound(1, channels, info.frameCount, info.frameCount);
    assert SIZE_MAX / channels >= SIZE_MAX / 32;
  }

  lemma WrittenParse(channels: nat, rate: nat, bits: nat, values: seq<int>)
    requires Writable(channels, rate, bits, |values|) && AllInRange(values, bits)
    ensures var file := WavFile(channels, rate, bits, values);
      var parsed := Parse(file);
      file != [] && |values| < LIMIT32 &&
      if values == [] then parsed.status == EmptyData
      else
        parsed.status == Success && parsed.info.format == PcmFormat(channels, rate, bits) &&
        parsed.info.frameCount * channels == |values| && |file| >= 12 && Complete(file) &&
        Contents(file).data == Some(EncodeAll(values, bits))
  {
    hide RiffFile, Serialize, WavChunks, Fold, EncodeAll, Parse, Contents, ReadU32, InRange;
    WrittenSize(channels, rate, bits, values);
    WrittenScan(channels, rate, bits, values);
    ParseRecoversChunkList(WavChunks(channels, rate, bits, values), []);
    ProductBound(|values|, |values|, 1, bits / 8);
    if values != [] {
      WrittenVerdict(channels, rate, bits, values);
    }
  }

  lemma WrittenVerdict(channels: nat, rate: nat, bits: nat, values: seq<int>)
    requires Writable(channels, rate, bits, |values|) && AllInRange(values, bits) && values != []
    ensures var f := PcmFormat(channels, rate, bits);
      var p := Judge(Scan(Success, Some(f), 44, Some(EncodeAll(values, bits))));
      p.status == Success && p.info.format == f && p.info.frameCount * channels == |values| && channels > 0
  {
    hide EncodeAll;
    FormatFits(channels, rate, bits);
    WholeFrames(|values|, channels, bits / 8);
  }

  /** A chunk of any other kind, inserted at any chunk boundary, leaves the loaded audio as it was. */
  lemma UnknownChunksKeepTheAudio(pre: seq<Chunk>, u: Chunk, post: seq<Chunk>, trailing: Bytes, options: LoadOptions)
    requires AllWellFormed(pre + [u] + post) && u.id != FMT && u.id != DATA
    requires 4 + |Serialize(pre + [u] + post)| < LIMIT32
    requires |RiffFile(pre + [u] + post, trailing)| <= options.maxFileBytes
    ensures AllWellFormed(pre + post) && 4 + |Serialize(pre + post)| < LIMIT32
    ensures
      var a := Load(RiffFile(pre + [u] + post, trailing), options);
      var b := Load(RiffFile(pre + post, trailing), options);
      a.status == b.status && a.audio == b.audio && a.info.format == b.info.format
  {
    hide Serialize, RiffFile, Contents, Parse, ReadU32, WellFormed, DecodeBody, TooManySamples;
    UnknownChunksAreIgnored(pre, u, post, trailing);
    RiffFileSize(pre + [u] + post, trailing);
    RiffFileSize(pre + post, trailing);
    SerializedSize(pre, [u] + post);
    SerializedSize([u], post);
    SerializedSize(pre, post);
    assert pre + [u] + post == pre + ([u] + post);
    if Parse(RiffFile(pre + post, trailing)).status == Success {
      Accepted(RiffFile(pre + post, trailing));
      LimitsDependOnCounts(
        Parse(RiffFile(pre + [u] + post, trailing)).info, Parse(RiffFile(pre + post, trailing)).info, options);
    }
  }

  lemma RiffFileSize(cs: seq<Chunk>, trailing: Bytes)
    requires AllWellFormed(cs) && 4 + |Serialize(cs)| < LIMIT32
    ensures |RiffFile(cs, trailing)| == 12 + |Serialize(cs)| + |trailing|
  {
  }

  lemma LimitsDependOnCounts(i: Info, j: Info, options: LoadOptions)
    requires i.format == j.format && i.frameCount == j.frameCount && i.format.channels > 0
    ensures TooManySamples(i, options) == TooManySamples(j, options)
  {
  }
}
