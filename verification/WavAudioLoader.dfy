/** The RIFF/WAVE loader (src/replacement/wav_audio_loader.cpp): chunk parsing, validation and PCM decoding. */
module WavAudioLoader {
  import opened Wrappers

  type Bytes = seq<Byte>

  datatype Status =
    Success | TooLarge | TruncatedHeader | InvalidContainer | UnsupportedFormat | InvalidHeader |
    MissingFormatChunk | MissingDataChunk | EmptyData | TruncatedData

  datatype Format = Format(
    audioFormat: nat, channels: nat, sampleRate: nat, byteRate: nat, blockAlign: nat, bitsPerSample: nat)

  datatype Info = Info(format: Format, dataOffset: nat, dataBytes: nat, frameCount: nat)

  datatype Parsed = Parsed(status: Status, info: Info)

  const NO_FORMAT := Format(0, 0, 0, 0, 0, 0)

  const RIFF: Bytes := [82, 73, 70, 70]
  const WAVE: Bytes := [87, 65, 86, 69]
  const FMT: Bytes := [102, 109, 116, 32]
  const DATA: Bytes := [100, 97, 116, 97]

  const LIMIT32: int := 0x1_0000_0000

  // ---- little-endian numbers ------------------------------------------------------------------------------

  function ReadU16(b: Bytes, o: nat): nat
    requires o + 2 <= |b|
  {
    b[o] as int + b[o + 1] as int * 256
  }

  function ReadU32(b: Bytes, o: nat): (n: nat)
    requires o + 4 <= |b|
    ensures n < LIMIT32
  {
    b[o] as int + b[o + 1] as int * 256 + b[o + 2] as int * 65536 + b[o + 3] as int * 16777216
  }

  function Le16(n: nat): (b: Bytes)
    requires n < 65536
    ensures |b| == 2
  {
    [n % 256, n / 256]
  }

  function Le32(n: nat): (b: Bytes)
    requires n < LIMIT32
    ensures |b| == 4
  {
    [n % 256, n / 256 % 256, n / 256 / 256 % 256, n / 256 / 256 / 256]
  }

  lemma ReadsBackU16(n: nat, b: Bytes, o: nat)
    requires n < 65536 && o + 2 <= |b| && b[o..o + 2] == Le16(n)
    ensures ReadU16(b, o) == n
  {
    assert b[o] == b[o..o + 2][0] && b[o + 1] == b[o..o + 2][1];
  }

  lemma ReadsBackU32(n: nat, b: Bytes, o: nat)
    requires n < LIMIT32 && o + 4 <= |b| && b[o..o + 4] == Le32(n)
    ensures ReadU32(b, o) == n
  {
    var s := b[o..o + 4];
    assert b[o] == s[0] && b[o + 1] == s[1] && b[o + 2] == s[2] && b[o + 3] == s[3];
  }

  // ---- the container as a list of chunks ------------------------------------------------------------------

  /** A chunk of the container. A body of odd length is followed by one pad byte, whatever its value. */
  datatype Chunk = Chunk(id: Bytes, body: Bytes, pad: Bytes)

  predicate WellFormed(c: Chunk)
  {
    |c.id| == 4 && |c.body| < LIMIT32 && |c.pad| == |c.body| % 2
  }

  ghost predicate AllWellFormed(cs: seq<Chunk>)
  {
    forall c :: c in cs ==> WellFormed(c)
  }

  function SizeOf(c: Chunk): nat { 8 + |c.body| + |c.pad| }

  function ChunkBytes(c: Chunk): (b: Bytes)
    requires WellFormed(c)
    ensures |b| == SizeOf(c)
  {
    c.id + Le32(|c.body|) + c.body + c.pad
  }

  function Serialize(cs: seq<Chunk>): Bytes
    requires AllWellFormed(cs)
  {
    if cs == [] then [] else ChunkBytes(cs[0]) + Serialize(cs[1..])
  }

  // The chunks that can be read from the front of a byte string, and the bytes left where no chunk fits.
  datatype Pieces = Pieces(chunks: seq<Chunk>, rest: Bytes)

  function PaddedSize(s: Bytes): (n: nat)
    requires |s| >= 8
    ensures n >= 8
  {
    8 + ReadU32(s, 4) + ReadU32(s, 4) % 2
  }

  predicate HasChunk(s: Bytes): (h: bool)
    ensures h ==> |s| >= 8 && PaddedSize(s) <= |s|
  {
    |s| >= 8 && PaddedSize(s) <= |s|
  }

  function FirstChunk(s: Bytes): (c: Chunk)
    requires HasChunk(s)
    ensures WellFormed(c) && SizeOf(c) == PaddedSize(s)
  {
    Chunk(s[..4], s[8..8 + ReadU32(s, 4)], s[8 + ReadU32(s, 4)..PaddedSize(s)])
  }

  function Split(s: Bytes): Pieces
  {
    if !HasChunk(s) then Pieces([], s)
    else
      var p := Split(s[PaddedSize(s)..]);
      Pieces([FirstChunk(s)] + p.chunks, p.rest)
  }

  lemma FirstChunkBytes(s: Bytes)
    requires HasChunk(s)
    ensures ChunkBytes(FirstChunk(s)) == s[..PaddedSize(s)]
  {
    var n := ReadU32(s, 4);
    DigitsUnique(s);
    assert Le32(n) == s[4..8];
    assert s[..4] + s[4..8] + s[8..8 + n] + s[8 + n..PaddedSize(s)] == s[..PaddedSize(s)];
  }

  lemma DigitsUnique(s: Bytes)
    requires |s| >= 8
    ensures Le32(ReadU32(s, 4)) == s[4..8]
  {
    var a: int, b: int, c: int, d: int := s[4], s[5], s[6], s[7];
    var n := ReadU32(s, 4);
    assert n / 256 == b + c * 256 + d * 65536;
    assert n / 256 / 256 == c + d * 256;
  }

  /** Splitting loses no byte, and every chunk it yields is well formed. */
  lemma {:induction false} SplitIsLossless(s: Bytes)
    ensures AllWellFormed(Split(s).chunks) && Serialize(Split(s).chunks) + Split(s).rest == s
    ensures !HasChunk(Split(s).rest)
    decreases |s|
  {
    hide ChunkBytes, FirstChunk, HasChunk, PaddedSize, Split, Serialize, AllWellFormed;
    SplitUnfolds(s);
    if HasChunk(s) {
      SplitIsLossless(s[PaddedSize(s)..]);
      FirstChunkBytes(s);
      var p := Split(s[PaddedSize(s)..]);
      SerializeCons(FirstChunk(s), p.chunks);
      Regroup(ChunkBytes(FirstChunk(s)), Serialize(p.chunks), p.rest);
      assert s == s[..PaddedSize(s)] + s[PaddedSize(s)..];
    }
  }

  lemma SplitUnfolds(s: Bytes)
    ensures HasChunk(s) ==>
      var p := Split(s[PaddedSize(s)..]);
      Split(s) == Pieces([FirstChunk(s)] + p.chunks, p.rest)
    ensures !HasChunk(s) ==> Split(s) == Pieces([], s) && AllWellFormed([]) && Serialize([]) + s == s
  {
    assert Serialize([]) == [];
  }

  lemma Regroup(a: Bytes, b: Bytes, c: Bytes)
    ensures (a + b) + c == a + (b + c)
  {
  }

  lemma SerializeCons(c: Chunk, cs: seq<Chunk>)
    requires WellFormed(c) && AllWellFormed(cs)
    ensures AllWellFormed([c] + cs) && Serialize([c] + cs) == ChunkBytes(c) + Serialize(cs)
  {
    assert ([c] + cs)[1..] == cs;
  }

  lemma ChunkInFront(c: Chunk, t: Bytes)
    requires WellFormed(c)
    ensures var s := ChunkBytes(c) + t;
      HasChunk(s) && PaddedSize(s) == SizeOf(c) && FirstChunk(s) == c && s[PaddedSize(s)..] == t
  {
    var s := ChunkBytes(c) + t;
    assert s[4..8] == Le32(|c.body|);
    ReadsBackU32(|c.body|, s, 4);
    assert s[..4] == c.id;
    assert s[8..8 + |c.body|] == c.body;
    assert s[8 + |c.body|..SizeOf(c)] == c.pad;
  }

  /** Any serialized list of well-formed chunks, pad bytes included, is recovered with nothing left over. */
  lemma {:induction false} SplitRecovers(cs: seq<Chunk>)
    requires AllWellFormed(cs)
    ensures Split(Serialize(cs)) == Pieces(cs, [])
  {
    hide ChunkBytes, HasChunk, PaddedSize, FirstChunk;
    if cs == [] {
      NoChunkInNothing();
    } else {
      SplitRecovers(cs[1..]);
      ChunkInFront(cs[0], Serialize(cs[1..]));
      assert cs == [cs[0]] + cs[1..];
    }
  }

  lemma NoChunkInNothing()
    ensures !HasChunk([])
  {
  }

  // ---- meaning of the chunk list --------------------------------------------------------------------------

  // What the chunks so far have told; `status` is Success while nothing is wrong.
  datatype Scan = Scan(status: Status, format: Option<Format>, dataOffset: nat, data: Option<Bytes>)

  const BLANK := Scan(Success, None, 0, None)

  function FormatOf(body: Bytes): Format
    requires |body| >= 16
  {
    Format(ReadU16(body, 0), ReadU16(body, 2), ReadU32(body, 4), ReadU32(body, 8), ReadU16(body, 12), ReadU16(body, 14))
  }

  /** Reading one chunk that stands at byte `pos` of the file. */
  function Take(scan: Scan, c: Chunk, pos: nat): Scan
  {
    if c.id == FMT then
      if scan.format.Some? || |c.body| < 16 then scan.(status := InvalidHeader)
      else scan.(format := Some(FormatOf(c.body)))
    else if c.id == DATA then
      if scan.data.Some? then scan.(status := InvalidHeader)
      else if c.body == [] then scan.(status := EmptyData)
      else scan.(dataOffset := pos + 8, data := Some(c.body))
    else scan
  }

  function Fold(cs: seq<Chunk>, pos: nat, scan: Scan): Scan
  {
    if cs == [] || scan.status != Success then scan else Fold(cs[1..], pos + SizeOf(cs[0]), Take(scan, cs[0], pos))
  }

  /** Bytes that do not form a chunk end a scan that was still good. */
  function Leftover(scan: Scan, rest: Bytes): Scan
  {
    if scan.status != Success || rest == [] then scan
    else scan.(status := if |rest| >= 8 && rest[..4] == DATA then TruncatedData else TruncatedHeader)
  }

  predicate SupportedFormat(f: Format)
  {
    f.audioFormat == 1 && 1 <= f.channels <= 32 && 1 <= f.sampleRate <= 384000 &&
    (f.bitsPerSample == 8 || f.bitsPerSample == 16 || f.bitsPerSample == 24 || f.bitsPerSample == 32)
  }

  predicate ConsistentFormat(f: Format)
  {
    var align := f.channels * (f.bitsPerSample / 8);
    0 < align <= 65535 && f.blockAlign == align && f.sampleRate * align < LIMIT32 && f.byteRate == f.sampleRate * align
  }

  function Judge(scan: Scan): Parsed
  {
    var f := if scan.format.Some? then scan.format.value else NO_FORMAT;
    var status :=
      if scan.status != Success then scan.status
      else if scan.format.None? then MissingFormatChunk
      else if scan.data.None? then MissingDataChunk
      else if !SupportedFormat(f) then UnsupportedFormat
      else if !ConsistentFormat(f) then InvalidHeader
      else if |scan.data.value| % f.blockAlign != 0 then TruncatedData
      else Success;
    if status != Success then Parsed(status, Info(f, 0, 0, 0))
    else Parsed(Success, Info(f, scan.dataOffset, |scan.data.value|, |scan.data.value| / f.blockAlign))
  }

  predicate Container(bytes: Bytes)
  {
    |bytes| >= 12 && bytes[..4] == RIFF && bytes[8..12] == WAVE
  }

  predicate Complete(bytes: Bytes)
    requires |bytes| >= 8
  {
    4 <= ReadU32(bytes, 4) && ReadU32(bytes, 4) + 8 <= |bytes|
  }

  function Contents(bytes: Bytes): Scan
    requires |bytes| >= 12 && Complete(bytes)
  {
    var p := Split(bytes[12..ReadU32(bytes, 4) + 8]);
    Leftover(Fold(p.chunks, 12, BLANK), p.rest)
  }

  function Refused(status: Status): Parsed
  {
    Parsed(status, Info(NO_FORMAT, 0, 0, 0))
  }

  /** Parsing is reading the chunk list of the container and judging it. */
  function Parse(bytes: Bytes): Parsed
  {
    if |bytes| < 12 then Refused(TruncatedHeader)
    else if !Container(bytes) then Refused(InvalidContainer)
    else if !Complete(bytes) then Refused(TruncatedHeader)
    else Judge(Contents(bytes))
  }

  // ---- the parse loop -------------------------------------------------------------------------------------

  /** What remains to be learned from byte `pos` on, given what is known. */
  function Ahead(bytes: Bytes, pos: nat, end: nat, scan: Scan): Scan
    requires pos <= end <= |bytes|
  {
    var p := Split(bytes[pos..end]);
    Leftover(Fold(p.chunks, pos, scan), p.rest)
  }

  lemma SliceOfSlice(b: Bytes, i: nat, e: nat, j: nat, k: nat)
    requires i <= e <= |b| && j <= k <= e - i
    ensures b[i..e][j..k] == b[i + j..i + k]
  {
    var s, t := b[i..e][j..k], b[i + j..i + k];
    forall n | 0 <= n < k - j
      ensures s[n] == t[n]
    {
    }
  }

  lemma ReadsInSlice(b: Bytes, i: nat, e: nat, o: nat)
    requires i <= e <= |b|
    ensures o + 2 <= e - i ==> ReadU16(b[i..e], o) == ReadU16(b, i + o)
    ensures o + 4 <= e - i ==> ReadU32(b[i..e], o) == ReadU32(b, i + o)
  {
  }

  lemma AheadStops(bytes: Bytes, pos: nat, end: nat, scan: Scan)
    requires pos <= end <= |bytes| && scan.status == Success
    ensures pos == end ==> Ahead(bytes, pos, end, scan) == scan
    ensures pos < end < pos + 8 ==> Ahead(bytes, pos, end, scan) == scan.(status := TruncatedHeader)
    ensures pos + 8 <= end && NextPosition(bytes, pos) > end ==>
      Ahead(bytes, pos, end, scan) ==
        scan.(status := if bytes[pos..pos + 4] == DATA then TruncatedData else TruncatedHeader)
  {
    var s := bytes[pos..end];
    if pos + 8 <= end {
      assert ReadU32(s, 4) == ReadU32(bytes, pos + 4);
      assert s[..4] == bytes[pos..pos + 4];
    }
  }

  function NextPosition(bytes: Bytes, pos: nat): (next: nat)
    requires pos + 8 <= |bytes|
    ensures next >= pos + 8
  {
    pos + 8 + ReadU32(bytes, pos + 4) + ReadU32(bytes, pos + 4) % 2
  }

  function ChunkAt(bytes: Bytes, pos: nat): Chunk
    requires pos + 8 <= |bytes| && NextPosition(bytes, pos) <= |bytes|
  {
    var size := ReadU32(bytes, pos + 4);
    Chunk(bytes[pos..pos + 4], bytes[pos + 8..pos + 8 + size], bytes[pos + 8 + size..NextPosition(bytes, pos)])
  }

  lemma FirstChunkAt(bytes: Bytes, pos: nat, end: nat)
    requires pos + 8 <= end <= |bytes| && NextPosition(bytes, pos) <= end
    ensures var s := bytes[pos..end];
      HasChunk(s) && FirstChunk(s) == ChunkAt(bytes, pos) &&
        s[PaddedSize(s)..] == bytes[NextPosition(bytes, pos)..end] &&
      SizeOf(FirstChunk(s)) == NextPosition(bytes, pos) - pos
  {
    hide ReadU32;
    var next, size := NextPosition(bytes, pos), ReadU32(bytes, pos + 4);
    ReadsInSlice(bytes, pos, end, 4);
    SliceOfSlice(bytes, pos, end, 0, 4);
    SliceOfSlice(bytes, pos, end, 8, 8 + size);
    SliceOfSlice(bytes, pos, end, 8 + size, next - pos);
    SliceOfSlice(bytes, pos, end, next - pos, end - pos);
  }

  lemma AheadSteps(bytes: Bytes, pos: nat, end: nat, scan: Scan)
    requires pos + 8 <= end <= |bytes| && NextPosition(bytes, pos) <= end && scan.status == Success
    ensures Ahead(bytes, pos, end, scan) ==
      Ahead(bytes, NextPosition(bytes, pos), end, Take(scan, ChunkAt(bytes, pos), pos))
  {
    hide HasChunk, FirstChunk, PaddedSize, NextPosition, ChunkAt, Fold, Split, Take, SizeOf;
    var s := bytes[pos..end];
    FirstChunkAt(bytes, pos, end);
    SplitUnfolds(s);
    FoldCons(FirstChunk(s), Split(s[PaddedSize(s)..]).chunks, pos, scan);
  }

  lemma FoldCons(c: Chunk, cs: seq<Chunk>, pos: nat, scan: Scan)
    requires scan.status == Success
    ensures Fold([c] + cs, pos, scan) == Fold(cs, pos + SizeOf(c), Take(scan, c, pos))
  {
    assert ([c] + cs)[1..] == cs;
  }

  /** A scan that has failed stays as it is. */
  lemma AheadKeepsFailure(bytes: Bytes, pos: nat, end: nat, scan: Scan)
    requires pos <= end <= |bytes| && scan.status != Success
    ensures Ahead(bytes, pos, end, scan) == scan
  {
  }

  lemma AcceptedData(scan: Scan)
    ensures Judge(scan).status == Success ==>
      var i := Judge(scan).info;
      scan.status == Success && scan.data.Some? && scan.format.Some? && i.format == scan.format.value &&
      i.dataOffset == scan.dataOffset && i.dataBytes == |scan.data.value| &&
      SupportedFormat(i.format) && ConsistentFormat(i.format) && i.dataBytes == i.frameCount * i.format.blockAlign
  {
  }

  /** The data body that was recorded stands in the file at the recorded offset. */
  predicate DataInPlace(bytes: Bytes, scan: Scan)
  {
    scan.data.Some? ==>
      scan.dataOffset + |scan.data.value| <= |bytes| &&
      bytes[scan.dataOffset..scan.dataOffset + |scan.data.value|] == scan.data.value
  }

  method ParseWav(bytes: Bytes) returns (result: Parsed)
    ensures result == Parse(bytes)
    ensures result.status == Success ==>
      result.info.dataOffset + result.info.dataBytes <= |bytes| && Contents(bytes).data.Some? &&
      bytes[result.info.dataOffset..result.info.dataOffset + result.info.dataBytes] == Contents(bytes).data.value
  {
    hide ReadU32, Judge, Split, Fold, Leftover;
    if |bytes| < 12 {
      return Refused(TruncatedHeader);
    }
    if bytes[0..4] != RIFF || bytes[8..12] != WAVE {
      return Refused(InvalidContainer);
    }
    var riffSize := ReadU32(bytes, 4);
    var riffEnd := riffSize + 8;
    if riffSize < 4 || riffEnd < 12 || riffEnd > |bytes| {
      return Refused(TruncatedHeader);
    }
    var scan := ScanChunks(bytes, riffEnd);
    AcceptedData(scan);
    return Judge(scan);
  }

  /** The loop over chunk_position. */
  method ScanChunks(bytes: Bytes, riffEnd: nat) returns (scan: Scan)
    requires 12 <= riffEnd <= |bytes|
    ensures scan == Ahead(bytes, 12, riffEnd, BLANK)
    ensures DataInPlace(bytes, scan)
  {
    hide Ahead, Take, DataInPlace, ReadU32;
    scan := BLANK;
    assert DataInPlace(bytes, scan) by { BlankHasNoData(bytes); }
    var position := 12;
    while position < riffEnd
      invariant position <= riffEnd
      invariant scan.status == Success && Ahead(bytes, position, riffEnd, scan) == Ahead(bytes, 12, riffEnd, BLANK)
      invariant DataInPlace(bytes, scan)
      decreases riffEnd - position
    {
      AheadStops(bytes, position, riffEnd, scan);
      StatusKeepsPlace(bytes, scan, TruncatedHeader);
      StatusKeepsPlace(bytes, scan, TruncatedData);
      if riffEnd - position < 8 {
        return scan.(status := TruncatedHeader);
      }
      var size := ReadU32(bytes, position + 4);
      var chunkData := position + 8;
      var chunkEnd := chunkData + size;
      var paddedEnd := chunkEnd + size % 2;
      if paddedEnd > riffEnd {
        return scan.(status := if bytes[position..position + 4] == DATA then TruncatedData else TruncatedHeader);
      }
      AheadSteps(bytes, position, riffEnd, scan);
      var c := Chunk(bytes[position..position + 4], bytes[chunkData..chunkEnd], bytes[chunkEnd..paddedEnd]);
      TakeKeepsPlace(bytes, scan, c, position);
      scan := TakeChunk(bytes, scan, c, position);
      if scan.status != Success {
        AheadKeepsFailure(bytes, paddedEnd, riffEnd, scan);
        return;
      }
      position := paddedEnd;
    }
    AheadStops(bytes, position, riffEnd, scan);
  }

  lemma BlankHasNoData(bytes: Bytes)
    ensures DataInPlace(bytes, BLANK)
  {
  }

  lemma TakeKeepsPlace(bytes: Bytes, scan: Scan, c: Chunk, pos: nat)
    requires DataInPlace(bytes, scan) && pos + 8 + |c.body| <= |bytes| && c.body == bytes[pos + 8..pos + 8 + |c.body|]
    ensures DataInPlace(bytes, Take(scan, c, pos))
  {
  }

  lemma StatusKeepsPlace(bytes: Bytes, scan: Scan, status: Status)
    requires DataInPlace(bytes, scan)
    ensures DataInPlace(bytes, scan.(status := status))
  {
  }

  /** The branches of the loop body, reading the file's bytes at chunk_data. */
  method TakeChunk(bytes: Bytes, scan: Scan, c: Chunk, pos: nat) returns (next: Scan)
    requires scan.status == Success && pos + 8 + |c.body| <= |bytes| && c.body == bytes[pos + 8..pos + 8 + |c.body|]
    ensures next == Take(scan, c, pos)
  {
    hide ReadU16, ReadU32;
    next := scan;
    var at := pos + 8;
    if c.id == FMT {
      if scan.format.Some? || |c.body| < 16 {
        return scan.(status := InvalidHeader);
      }
      forall o: nat ensures o + 2 <= |c.body| ==> ReadU16(c.body, o) == ReadU16(bytes, at + o)
        ensures o + 4 <= |c.body| ==> ReadU32(c.body, o) == ReadU32(bytes, at + o)
      {
        ReadsInSlice(bytes, at, at + |c.body|, o);
      }
      next := scan.(format := Some(Format(ReadU16(bytes, at), ReadU16(bytes, at + 2), ReadU32(bytes, at + 4),
                                          ReadU32(bytes, at + 8), ReadU16(bytes, at + 12), ReadU16(bytes, at + 14))));
    } else if c.id == DATA {
      if scan.data.Some? {
        return scan.(status := InvalidHeader);
      }
      if |c.body| == 0 {
        return scan.(status := EmptyData);
      }
      next := scan.(dataOffset := at, data := Some(c.body));
    }
  }

  // ---- what a container file means --------------------------------------------------------------------------

  /** A RIFF/WAVE file holding these chunks. Bytes after the container are allowed. */
  function RiffFile(cs: seq<Chunk>, trailing: Bytes): Bytes
    requires AllWellFormed(cs) && 4 + |Serialize(cs)| < LIMIT32
  {
    RIFF + Le32(4 + |Serialize(cs)|) + WAVE + Serialize(cs) + trailing
  }

  lemma RiffFileParts(cs: seq<Chunk>, trailing: Bytes)
    requires AllWellFormed(cs) && 4 + |Serialize(cs)| < LIMIT32
    ensures var b, n := RiffFile(cs, trailing), |Serialize(cs)|;
      Container(b) && ReadU32(b, 4) == 4 + n && Complete(b) && b[12..12 + n] == Serialize(cs)
  {
    var b, n := RiffFile(cs, trailing), |Serialize(cs)|;
    assert b[4..8] == Le32(4 + n);
    ReadsBackU32(4 + n, b, 4);
    assert b[..4] == RIFF;
    assert b[8..12] == WAVE;
    assert b[12..12 + n] == Serialize(cs);
  }

  /** Parsing a written container is interpreting the chunk list that was written. */
  lemma ParseRecoversChunkList(cs: seq<Chunk>, trailing: Bytes)
    requires AllWellFormed(cs) && 4 + |Serialize(cs)| < LIMIT32
    ensures Parse(RiffFile(cs, trailing)) == Judge(Fold(cs, 12, BLANK))
    ensures |RiffFile(cs, trailing)| >= 12 && Complete(RiffFile(cs, trailing))
    ensures Contents(RiffFile(cs, trailing)) == Fold(cs, 12, BLANK)
  {
    hide Judge, Fold, Serialize, Split, RiffFile, ReadU32;
    RiffFileParts(cs, trailing);
    SplitRecovers(cs);
  }

  /** Every container file is one of those written files: parsing loses nothing but the malformed tail. */
  lemma EveryContainerIsAChunkList(bytes: Bytes)
    requires Container(bytes) && Complete(bytes)
    ensures var end := ReadU32(bytes, 4) + 8;
      var p := Split(bytes[12..end]);
      AllWellFormed(p.chunks) && bytes == bytes[..12] + Serialize(p.chunks) + p.rest + bytes[end..] &&
      Parse(bytes) == Judge(Leftover(Fold(p.chunks, 12, BLANK), p.rest))
  {
    hide Judge, Fold, Serialize, Split, ReadU32, AllWellFormed;
    var end := ReadU32(bytes, 4) + 8;
    SplitIsLossless(bytes[12..end]);
    var p := Split(bytes[12..end]);
    assert bytes[12..end] + bytes[end..] == bytes[12..];
    assert bytes == bytes[..12] + (Serialize(p.chunks) + p.rest) + bytes[end..];
  }

  /** The parts of a scan that decide format and samples. */
  predicate Alike(s: Scan, t: Scan)
  {
    s.status == t.status && s.format == t.format && s.data == t.data
  }

  lemma {:induction false} FoldIgnoresPosition(cs: seq<Chunk>, p: nat, q: nat, s: Scan, t: Scan)
    requires Alike(s, t)
    ensures Alike(Fold(cs, p, s), Fold(cs, q, t))
  {
    if cs != [] && s.status == Success {
      FoldIgnoresPosition(cs[1..], p + SizeOf(cs[0]), q + SizeOf(cs[0]), Take(s, cs[0], p), Take(t, cs[0], q));
    }
  }

  lemma {:induction false} UnknownChunkChangesNothing(pre: seq<Chunk>, u: Chunk, post: seq<Chunk>, pos: nat, scan: Scan)
    requires u.id != FMT && u.id != DATA
    ensures Alike(Fold(pre + [u] + post, pos, scan), Fold(pre + post, pos, scan))
  {
    if scan.status == Success {
      if pre == [] {
        assert pre + [u] + post == [u] + post && pre + post == post;
        FoldCons(u, post, pos, scan);
        FoldIgnoresPosition(post, pos + SizeOf(u), pos, scan, scan);
      } else {
        var c, t := pre[0], pre[1..];
        assert pre + [u] + post == [c] + (t + [u] + post) && pre + post == [c] + (t + post);
        FoldCons(c, t + [u] + post, pos, scan);
        FoldCons(c, t + post, pos, scan);
        UnknownChunkChangesNothing(t, u, post, pos + SizeOf(c), Take(scan, c, pos));
      }
    }
  }

  /** Inserting a well-formed chunk of any other kind at any chunk boundary, with the RIFF size updated, changes
      neither the verdict, nor the format, nor the data read. */
  lemma UnknownChunksAreIgnored(pre: seq<Chunk>, u: Chunk, post: seq<Chunk>, trailing: Bytes)
    requires AllWellFormed(pre + [u] + post) && u.id != FMT && u.id != DATA
    requires 4 + |Serialize(pre + [u] + post)| < LIMIT32
    ensures AllWellFormed(pre + post) && 4 + |Serialize(pre + post)| < LIMIT32
    ensures var a, b := RiffFile(pre + [u] + post, trailing), RiffFile(pre + post, trailing);
      Parse(a).status == Parse(b).status && Parse(a).info.format == Parse(b).info.format &&
      Parse(a).info.dataBytes == Parse(b).info.dataBytes && Parse(a).info.frameCount == Parse(b).info.frameCount &&
      |a| >= 12 && Complete(a) && |b| >= 12 && Complete(b) && Contents(a).data == Contents(b).data
  {
    hide Serialize, RiffFile, Fold, Contents, Parse, ReadU32, WellFormed;
    SerializedSize(pre, [u] + post);
    SerializedSize([u], post);
    SerializedSize(pre, post);
    assert pre + [u] + post == pre + ([u] + post);
    ParseRecoversChunkList(pre + [u] + post, trailing);
    ParseRecoversChunkList(pre + post, trailing);
    UnknownChunkChangesNothing(pre, u, post, 12, BLANK);
  }

  lemma {:induction false} SerializedSize(a: seq<Chunk>, b: seq<Chunk>)
    requires AllWellFormed(a + b)
    ensures AllWellFormed(a) && AllWellFormed(b)
    ensures Serialize(a + b) == Serialize(a) + Serialize(b)
  {
    assert forall c :: c in a ==> c in a + b;
    assert forall c :: c in b ==> c in a + b;
    hide ChunkBytes, WellFormed;
    if a == [] {
      assert a + b == b;
    } else {
      assert (a + b)[1..] == a[1..] + b;
      SerializedSize(a[1..], b);
      Regroup(ChunkBytes(a[0]), Serialize(a[1..]), Serialize(b));
    }
  }
}
