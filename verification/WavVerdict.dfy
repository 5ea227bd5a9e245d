/** Which files the WAV parser accepts, and what it says of the others
    (src/replacement/wav_audio_loader.cpp:153-286). */
module WavVerdict {
  import opened Wrappers
  import opened WavAudioLoader

  // ---- what is asked of a chunk list ----------------------------------------------------------------------

  function Bodies(cs: seq<Chunk>, id: Bytes): seq<Bytes>
  {
    if cs == [] then []
    else (if cs[0].id == id then [cs[0].body] else []) + Bodies(cs[1..], id)
  }

  /** Nothing is wrong with the chunks one by one: at most one format chunk, of 16 bytes at least, and at most one data
      chunk, not empty. */
  ghost predicate Orderly(cs: seq<Chunk>)
  {
    |Bodies(cs, FMT)| <= 1 && (forall b :: b in Bodies(cs, FMT) ==> |b| >= 16) &&
    |Bodies(cs, DATA)| <= 1 && (forall b :: b in Bodies(cs, DATA) ==> b != [])
  }

  /** Uncompressed PCM of 1 to 32 channels, 1 to 384000 frames a second and whole bytes up to four a sample. */
  predicate Playable(f: Format)
  {
    f.audioFormat == 1 && 1 <= f.channels <= 32 && 0 < f.sampleRate <= 384_000 && f.bitsPerSample in {8, 16, 24, 32}
  }

  /** The redundant fields say what the others imply. */
  predicate Redundant(f: Format)
  {
    8 * f.blockAlign == f.channels * f.bitsPerSample && f.byteRate == f.sampleRate * f.blockAlign
  }

  /** The verdict on an orderly list. */
  ghost function Verdict(cs: seq<Chunk>): Status
    requires Orderly(cs)
  {
    var formats, datas := Bodies(cs, FMT), Bodies(cs, DATA);
    if formats == [] then MissingFormatChunk
    else if datas == [] then MissingDataChunk
    else
      assert formats[0] in formats;
      var f := FormatOf(formats[0]);
      if !Playable(f) then UnsupportedFormat
      else if !Redundant(f) then InvalidHeader
      else if f.blockAlign == 0 || |datas[0]| % f.blockAlign != 0 then TruncatedData
      else Success
  }

  // ---- the scan -------------------------------------------------------------------------------------------

  /** The body already recorded, if any, and those still to come. */
  function Formats(scan: Scan, cs: seq<Chunk>): nat
  {
    |Bodies(cs, FMT)| + if scan.format.Some? then 1 else 0
  }

  function Datas(scan: Scan, cs: seq<Chunk>): nat
  {
    |Bodies(cs, DATA)| + if scan.data.Some? then 1 else 0
  }

  ghost predicate GoesWell(scan: Scan, cs: seq<Chunk>)
  {
    Formats(scan, cs) <= 1 && (forall b :: b in Bodies(cs, FMT) ==> |b| >= 16) &&
    Datas(scan, cs) <= 1 && (forall b :: b in Bodies(cs, DATA) ==> b != [])
  }

  lemma {:induction false} ScanExactly(cs: seq<Chunk>, pos: nat, scan: Scan)
    requires scan.status == Success
    ensures var end := Fold(cs, pos, scan);
      (end.status == Success <==> GoesWell(scan, cs)) &&
      (GoesWell(scan, cs) ==>
        end.format == Found(scan.format, cs) && end.data == FoundBody(scan.data, cs))
  {
    hide FormatOf, Take, GoesWell, Bodies;
    if cs == [] {
      NothingToCome(scan);
    } else {
      var c, rest := cs[0], cs[1..];
      var next := Take(scan, c, pos);
      TakeExactly(scan, cs, pos);
      if next.status == Success {
        ScanExactly(rest, pos + SizeOf(c), next);
      } else {
        StopsAtOnce(rest, pos + SizeOf(c), next);
      }
    }
  }

  lemma NothingToCome(scan: Scan)
    ensures GoesWell(scan, []) && Bodies([], FMT) == [] && Bodies([], DATA) == []
  {
  }

  /** One chunk read: the scan goes on exactly when it may, and then has as much to come. */
  lemma TakeExactly(scan: Scan, cs: seq<Chunk>, pos: nat)
    requires scan.status == Success && cs != []
    ensures var next, rest := Take(scan, cs[0], pos), cs[1..];
      (GoesWell(scan, cs) <==> next.status == Success && GoesWell(next, rest)) &&
      (GoesWell(scan, cs) ==>
        Found(next.format, rest) == Found(scan.format, cs) &&
        FoundBody(next.data, rest) == FoundBody(scan.data, cs))
  {
    hide FormatOf;
    DistinctIds();
    BodiesUnfold(cs, FMT);
    BodiesUnfold(cs, DATA);
    var c := cs[0];
    if c.id == FMT {
      hide Bodies;
      assert |Bodies(cs, FMT)| == 1 + |Bodies(cs[1..], FMT)|;
    } else if c.id == DATA {
      hide Bodies;
      assert |Bodies(cs, DATA)| == 1 + |Bodies(cs[1..], DATA)|;
    } else {
      hide Bodies;
    }
  }

  function Found(known: Option<Format>, cs: seq<Chunk>): Option<Format>
  {
    if Bodies(cs, FMT) == [] || |Bodies(cs, FMT)[0]| < 16 then known else Some(FormatOf(Bodies(cs, FMT)[0]))
  }

  function FoundBody(known: Option<Bytes>, cs: seq<Chunk>): Option<Bytes>
  {
    if Bodies(cs, DATA) == [] then known else Some(Bodies(cs, DATA)[0])
  }

  lemma DistinctIds()
    ensures FMT != DATA
  {
    assert FMT[0] != DATA[0];
  }

  lemma BodiesUnfold(cs: seq<Chunk>, id: Bytes)
    requires cs != []
    ensures Bodies(cs, id) == (if cs[0].id == id then [cs[0].body] else []) + Bodies(cs[1..], id)
    ensures forall b :: b in Bodies(cs, id) <==> (cs[0].id == id && b == cs[0].body) || b in Bodies(cs[1..], id)
  {
  }

  lemma StopsAtOnce(cs: seq<Chunk>, pos: nat, scan: Scan)
    requires scan.status != Success
    ensures Fold(cs, pos, scan) == scan
  {
  }

  // ---- the format fields ----------------------------------------------------------------------------------

  lemma PlayableIsSupported(f: Format)
    ensures Playable(f) <==> SupportedFormat(f)
  {
    if SupportedFormat(f) {
      assert f.bitsPerSample == 8 * (f.bitsPerSample / 8);
    }
  }

  lemma RedundantIsConsistent(f: Format)
    requires SupportedFormat(f)
    ensures Redundant(f) <==> ConsistentFormat(f)
    ensures Redundant(f) ==> f.blockAlign > 0
  {
    var w := f.bitsPerSample / 8;
    assert f.channels * f.bitsPerSample == 8 * (f.channels * w) by {
      assert f.bitsPerSample == 8 * w;
    }
    Bound(f.channels, 32, w, 4);
    Bound(f.sampleRate, 384_000, f.channels * w, 128);
  }

  lemma Bound(a: nat, b: nat, c: nat, d: nat)
    requires a <= b && c <= d
    ensures a * c <= b * d && (a > 0 && c > 0 ==> a * c > 0)
  {
    assert a * c <= b * c <= b * d;
  }

  lemma JudgedAsVerdict(cs: seq<Chunk>, scan: Scan)
    requires Orderly(cs) && scan.status == Success
    requires scan.format == Found(None, cs) && scan.data == FoundBody(None, cs)
    ensures Judge(scan).status == Verdict(cs)
  {
    hide FormatOf, Playable, Redundant, SupportedFormat, ConsistentFormat;
    if scan.format.Some? {
      var f := scan.format.value;
      PlayableIsSupported(f);
      if SupportedFormat(f) {
        RedundantIsConsistent(f);
      }
    }
  }

  // ---- the verdicts ---------------------------------------------------------------------------------------

  /** A written container gets the verdict on its chunk list; one whose list is not orderly is never accepted. */
  lemma VerdictIsExact(cs: seq<Chunk>, trailing: Bytes)
    requires AllWellFormed(cs) && 4 + |Serialize(cs)| < LIMIT32
    ensures var parsed := Parse(RiffFile(cs, trailing));
      if Orderly(cs) then parsed.status == Verdict(cs)
      else parsed.status == InvalidHeader || parsed.status == EmptyData
  {
    hide Judge, Fold, Parse, Serialize, RiffFile, Verdict, FormatOf, Bodies;
    ParseRecoversChunkList(cs, trailing);
    ScanExactly(cs, 12, BLANK);
    var scan := Fold(cs, 12, BLANK);
    if Orderly(cs) {
      JudgedAsVerdict(cs, scan);
    } else {
      FailsAsHeaderOrEmpty(cs, 12, BLANK);
      JudgedAsFound(scan);
    }
  }

  lemma JudgedAsFound(scan: Scan)
    requires scan.status != Success
    ensures Judge(scan).status == scan.status
  {
  }

  lemma {:induction false} FailsAsHeaderOrEmpty(cs: seq<Chunk>, pos: nat, scan: Scan)
    requires scan.status == Success || scan.status == InvalidHeader || scan.status == EmptyData
    ensures var status := Fold(cs, pos, scan).status;
      status == Success || status == InvalidHeader || status == EmptyData
  {
    if cs != [] && scan.status == Success {
      FailsAsHeaderOrEmpty(cs[1..], pos + SizeOf(cs[0]), Take(scan, cs[0], pos));
    }
  }

  /** A chunk list that makes a playable file. */
  ghost predicate Accepts(cs: seq<Chunk>)
  {
    Orderly(cs) && Verdict(cs) == Success
  }

  ghost predicate IsRiffOf(bytes: Bytes, cs: seq<Chunk>, trailing: Bytes)
  {
    AllWellFormed(cs) && 4 + |Serialize(cs)| < LIMIT32 && bytes == RiffFile(cs, trailing)
  }

  /** The parser accepts a file if and only if it is a RIFF/WAVE container, whatever follows it, of a chunk list with
      exactly one format chunk and one data chunk that fit each other. */
  lemma AcceptedExactly(bytes: Bytes)
    ensures Parse(bytes).status == Success <==>
      exists cs, trailing :: IsRiffOf(bytes, cs, trailing) && Accepts(cs)
  {
    hide Parse, Accepts, Serialize, RiffFile, AllWellFormed;
    if cs, trailing :| IsRiffOf(bytes, cs, trailing) && Accepts(cs) {
      AcceptsIsAccepted(cs, trailing);
    }
    if Parse(bytes).status == Success {
      var cs, trailing := AcceptedIsRiff(bytes);
      AcceptedAccepts(cs, trailing);
    }
  }

  lemma AcceptsIsAccepted(cs: seq<Chunk>, trailing: Bytes)
    requires AllWellFormed(cs) && 4 + |Serialize(cs)| < LIMIT32 && Accepts(cs)
    ensures Parse(RiffFile(cs, trailing)).status == Success
  {
    hide Verdict, Parse, RiffFile, Serialize, Orderly;
    VerdictIsExact(cs, trailing);
  }

  lemma AcceptedAccepts(cs: seq<Chunk>, trailing: Bytes)
    requires AllWellFormed(cs) && 4 + |Serialize(cs)| < LIMIT32 && Parse(RiffFile(cs, trailing)).status == Success
    ensures Accepts(cs)
  {
    hide Verdict, Parse, RiffFile, Serialize, Orderly;
    VerdictIsExact(cs, trailing);
  }

  /** An accepted file has nothing left over after its chunks. */
  lemma AcceptedIsRiff(bytes: Bytes) returns (cs: seq<Chunk>, trailing: Bytes)
    requires Parse(bytes).status == Success
    ensures IsRiffOf(bytes, cs, trailing)
  {
    hide Judge, Fold, Split, ReadU32, Serialize, AllWellFormed;
    assert Container(bytes) && Complete(bytes);
    var end := ReadU32(bytes, 4) + 8;
    var p := Split(bytes[12..end]);
    EveryContainerIsAChunkList(bytes);
    NothingLeft(Fold(p.chunks, 12, BLANK), p.rest);
    SplitIsLossless(bytes[12..end]);
    assert Serialize(p.chunks) == bytes[12..end] by {
      assert Serialize(p.chunks) + [] == Serialize(p.chunks);
    }
    cs, trailing := p.chunks, bytes[end..];
    HeadIsRiff(bytes);
    assert bytes == bytes[..12] + bytes[12..end] + bytes[end..];
  }

  lemma NothingLeft(scan: Scan, rest: Bytes)
    requires Judge(Leftover(scan, rest)).status == Success
    ensures rest == []
  {
  }

  lemma HeadIsRiff(bytes: Bytes)
    requires Container(bytes) && Complete(bytes)
    ensures ReadU32(bytes, 4) < LIMIT32 && bytes[..12] == RIFF + Le32(ReadU32(bytes, 4)) + WAVE
  {
    DigitsUnique(bytes);
    hide ReadU32, Le32;
    assert bytes[..12] == bytes[..4] + bytes[4..8] + bytes[8..12];
  }

  /** What is refused has no audio: no data range, no frames. */
  lemma RefusedHasNoData(bytes: Bytes)
    ensures var i := Parse(bytes).info;
      Parse(bytes).status != Success ==> i.dataOffset == 0 && i.dataBytes == 0 && i.frameCount == 0
    ensures |bytes| < 12 ==> Parse(bytes).status == TruncatedHeader
    ensures |bytes| >= 12 && (bytes[..4] != RIFF || bytes[8..12] != WAVE) ==> Parse(bytes).status == InvalidContainer
  {
    hide Contents, SupportedFormat, ConsistentFormat;
  }
}
