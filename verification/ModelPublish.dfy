/** Publishing a model file by stage, verify and rename over a file system whose operations may fail
    (src/model/model_downloader.cpp:343-478). Only the three paths the code touches are kept: the destination,
    its backup and the temporary file. */
module ModelPublish {
  import opened Wrappers
  import S = Sha256

  type Bytes = seq<Byte>

  datatype Path = Destination | Backup | Temporary

  type Files = map<Path, Bytes>

  datatype Status = Success | Cancelled | Failed | Unsupported | VerificationFailed

  /** `restoreFailed` stands for the sentence the source adds to its message when the old file cannot be put back. */
  datatype DownloadResult = DownloadResult(status: Status, restoreFailed: bool)

  /** What the catalog says about a model; `knownSource` is false when no source URL is approved. */
  datatype Descriptor = Descriptor(knownSource: bool, sha256: string, expectedSize: Option<nat>)

  predicate IsHexDigit(c: char)
  {
    '0' <= c <= '9' || 'a' <= c <= 'f' || 'A' <= c <= 'F'
  }

  predicate ValidSha256(s: string)
  {
    |s| == 64 && forall c :: c in s ==> IsHexDigit(c)
  }

  function LowerAscii(s: string): (r: string)
    ensures |r| == |s|
    ensures forall i :: 0 <= i < |s| ==> r[i] == if 'A' <= s[i] <= 'Z' then s[i] - 'A' + 'a' else s[i]
  {
    seq(|s|, i requires 0 <= i < |s| => if 'A' <= s[i] <= 'Z' then s[i] - 'A' + 'a' else s[i])
  }

  /** The bytes are the ones the catalog describes. */
  predicate Matches(model: Descriptor, content: Bytes)
  {
    LowerAscii(S.HexDigest(content)) == LowerAscii(model.sha256) &&
    (model.expectedSize.Some? ==> model.expectedSize.value == |content|)
  }

  predicate Verified(model: Descriptor, f: Files, p: Path)
  {
    At(f, p).Some? && Matches(model, At(f, p).value)
  }

  function At(f: Files, p: Path): Option<Bytes>
  {
    if p in f then Some(f[p]) else None
  }

  /** If there was a file at the destination, its bytes are still at the destination or its backup, unless
      verified bytes have taken its place. */
  predicate Recoverable(model: Descriptor, before: Option<Bytes>, f: Files)
  {
    before.None? || At(f, Destination) == before || At(f, Backup) == before || Verified(model, f, Destination)
  }

  // ---- which checksums are accepted ----------------------------------------------------------------

  predicate IsLowerDigit(c: char)
  {
    '0' <= c <= '9' || 'a' <= c <= 'f'
  }

  function DigitValue(c: char): bv32
  {
    match c
    case '1' => 1
    case '2' => 2
    case '3' => 3
    case '4' => 4
    case '5' => 5
    case '6' => 6
    case '7' => 7
    case '8' => 8
    case '9' => 9
    case 'a' => 10
    case 'b' => 11
    case 'c' => 12
    case 'd' => 13
    case 'e' => 14
    case 'f' => 15
    case _ => 0
  }

  lemma DigitBack(c: char)
    requires IsLowerDigit(c)
    ensures DigitValue(c) < 16 && S.HexDigit(DigitValue(c)) == c
  {
  }

  function WordOf(t: string): S.Word
    requires |t| == 8
  {
    Packed(DigitValue(t[0]), DigitValue(t[1]), DigitValue(t[2]), DigitValue(t[3]), DigitValue(t[4]),
           DigitValue(t[5]), DigitValue(t[6]), DigitValue(t[7]))
  }

  function Packed(a: bv32, b: bv32, c: bv32, d: bv32, e: bv32, f: bv32, g: bv32, h: bv32): bv32
  {
    (a << 28) | (b << 24) | (c << 20) | (d << 16) | (e << 12) | (f << 8) | (g << 4) | h
  }

  lemma WordBack(t: string)
    requires |t| == 8 && forall c :: c in t ==> IsLowerDigit(c)
    ensures S.HexWord(WordOf(t)) == t
  {
    forall i | 0 <= i < 8 ensures DigitValue(t[i]) < 16 && S.HexDigit(DigitValue(t[i])) == t[i] {
      DigitBack(t[i]);
    }
    NibblesBack(DigitValue(t[0]), DigitValue(t[1]), DigitValue(t[2]), DigitValue(t[3]), DigitValue(t[4]),
                DigitValue(t[5]), DigitValue(t[6]), DigitValue(t[7]));
    hide S.Nibbles, S.HexDigit, DigitValue, Packed;
  }

  lemma NibblesBack(a: bv32, b: bv32, c: bv32, d: bv32, e: bv32, f: bv32, g: bv32, h: bv32)
    requires a < 16 && b < 16 && c < 16 && d < 16 && e < 16 && f < 16 && g < 16 && h < 16
    ensures S.Nibbles(Packed(a, b, c, d, e, f, g, h)) == [a, b, c, d, e, f, g, h]
  {
  }

  lemma WordIsDigits(w: S.Word)
    ensures |S.HexWord(w)| == 8 && forall c :: c in S.HexWord(w) ==> IsLowerDigit(c)
  {
    hide S.Nibbles;
    S.NibbleCount(w);
  }

  lemma LowerIsDigits(s: string)
    ensures ValidSha256(s) <==> |s| == 64 && forall c :: c in LowerAscii(s) ==> IsLowerDigit(c)
  {
    var t := LowerAscii(s);
    if ValidSha256(s) {
      forall c | c in t ensures IsLowerDigit(c) {
        var i :| 0 <= i < |t| && t[i] == c;
        assert s[i] in s;
      }
    }
    if forall c :: c in t ==> IsLowerDigit(c) {
      forall c | c in s ensures IsHexDigit(c) {
        var i :| 0 <= i < |s| && s[i] == c;
        assert t[i] in t;
      }
    }
  }

  /** A catalog checksum is accepted exactly when it is the hexadecimal form of some digest, in either case. */
  lemma ValidExactlyForDigests(s: string)
    ensures ValidSha256(s) <==> exists x :: LowerAscii(s) == S.Hex(x)
  {
    hide S.HexWord, S.Hex, WordOf;
    var t := LowerAscii(s);
    LowerIsDigits(s);
    hide ValidSha256;
    if x :| t == S.Hex(x) {
      HexIsDigits(x);
    }
    if ValidSha256(s) {
      DigitsAreHex(t);
    }
  }

  lemma HexIsDigits(x: S.Hash)
    ensures |S.Hex(x)| == 64 && forall c :: c in S.Hex(x) ==> IsLowerDigit(c)
  {
    hide S.HexWord, S.Hex;
    S.EightWords(x);
    WordIsDigits(x.a);
    WordIsDigits(x.b);
    WordIsDigits(x.c);
    WordIsDigits(x.d);
    WordIsDigits(x.e);
    WordIsDigits(x.f);
    WordIsDigits(x.g);
    WordIsDigits(x.h);
  }

  lemma Pieces(t: string)
    requires |t| == 64
    ensures t == t[..8] + t[8..16] + t[16..24] + t[24..32] + t[32..40] + t[40..48] + t[48..56] + t[56..]
  {
    assert t[..8] + t[8..16] == t[..16] && t[..16] + t[16..24] == t[..24] && t[..24] + t[24..32] == t[..32];
    assert t[..32] + t[32..40] == t[..40] && t[..40] + t[40..48] == t[..48] && t[..48] + t[48..56] == t[..56];
    assert t[..56] + t[56..] == t;
  }

  lemma DigitsAreHex(t: string)
    requires |t| == 64 && forall c :: c in t ==> IsLowerDigit(c)
    ensures exists x :: t == S.Hex(x)
  {
    hide S.HexWord, S.Hex, WordOf;
    var x := S.Hash(WordOf(t[..8]), WordOf(t[8..16]), WordOf(t[16..24]), WordOf(t[24..32]), WordOf(t[32..40]),
                    WordOf(t[40..48]), WordOf(t[48..56]), WordOf(t[56..]));
    WordBack(t[..8]);
    WordBack(t[8..16]);
    WordBack(t[16..24]);
    WordBack(t[24..32]);
    WordBack(t[32..40]);
    WordBack(t[40..48]);
    WordBack(t[48..56]);
    WordBack(t[56..]);
    S.EightWords(x);
    Pieces(t);
  }

  // ---- the file system: every operation may fail ---------------------------------------------------

  // How many operations have failed though they need not have: renames, removals, and looks at a file.
  datatype Faults = Faults(renames: nat, removals: nat, looks: nat)

  // What the transfer, local or by transport, comes to: it may report failure or throw, and may leave anything in the
  // temporary file, or no file.
  datatype Transfer = Transfer(ok: bool, throws: bool, left: Option<Bytes>)

  // The answer of the caller's cancellation callback.
  datatype Poll = Continue | Cancel | Throws

  // Everything else the call meets.
  datatype Circumstances = Circumstances(
    validDestination: bool, firstPoll: Poll, directoryReady: bool, hasTransport: bool, transfer: Transfer,
    laterPoll: Poll)

  class FileSystem {
    var files: Files
    ghost var history: seq<Files>
    ghost var faults: Faults

    method Remove(p: Path) returns (failed: bool)
      modifies this
      ensures history == old(history) + [files]
      ensures faults == old(faults).(removals := old(faults.removals) + if failed then 1 else 0)
      ensures forall q :: At(files, q) == if q == p && !failed then None else old(At(files, q))
    {
      failed := *;
      if !failed {
        files := files - {p};
      } else {
        faults := faults.(removals := faults.removals + 1);
      }
      history := history + [files];
    }

    method Rename(source: Path, target: Path) returns (failed: bool)
      requires source != target
      modifies this
      ensures history == old(history) + [files]
      ensures faults ==
        old(faults).(renames := old(faults.renames) + if failed && old(source in files) then 1 else 0)
      ensures old(At(files, source)) == None ==> failed
      ensures failed ==> files == old(files)
      ensures !failed ==> At(files, source) == None && At(files, target) == old(At(files, source))
      ensures forall q :: q != source && q != target ==> At(files, q) == old(At(files, q))
    {
      failed := *;
      if source !in files {
        failed := true;
      } else if failed {
        faults := faults.(renames := faults.renames + 1);
      } else {
        files := (files - {source})[target := files[source]];
      }
      history := history + [files];
    }

    method Fetch(transfer: Transfer)
      modifies this`files, this`history
      ensures history == old(history) + [files] && At(files, Temporary) == transfer.left
      ensures forall q :: q != Temporary ==> At(files, q) == old(At(files, q))
    {
      files := if transfer.left.Some? then files[Temporary := transfer.left.value] else files - {Temporary};
      history := history + [files];
    }

    /** hash_file: no digest when the file is missing, of the wrong size or, by a fault, unreadable. */
    method Hash(p: Path, expectedSize: Option<nat>) returns (digest: Option<string>)
      modifies this`faults
      ensures digest.Some? ==> p in files && digest.value == S.HexDigest(files[p]) && faults == old(faults)
      ensures digest.Some? && expectedSize.Some? ==> expectedSize.value == |files[p]|
      ensures digest.None? && p in files && (expectedSize.Some? ==> expectedSize.value == |files[p]|) ==>
        faults.looks == old(faults.looks) + 1
      ensures faults.looks >= old(faults.looks) && faults == old(faults).(looks := faults.looks)
    {
      if p !in files || (expectedSize.Some? && expectedSize.value != |files[p]|) {
        return None;
      }
      var unreadable: bool := *;
      if unreadable {
        faults := faults.(looks := faults.looks + 1);
        return None;
      }
      return Some(S.HexDigest(files[p]));
    }

    /** std::filesystem::exists: throws on an error other than absence. */
    method Exists(p: Path) returns (present: bool, throws: bool)
      modifies this`faults
      ensures present <==> p in files
      ensures faults == old(faults).(looks := old(faults.looks) + if throws then 1 else 0)
    {
      throws := *;
      present := p in files;
      if throws {
        faults := faults.(looks := faults.looks + 1);
      }
    }
  }

  /** Every state the call has passed through so far keeps the old bytes recoverable. */
  ghost predicate AllRecoverable(model: Descriptor, before: Option<Bytes>, history: seq<Files>, from: nat)
  {
    forall i :: from <= i < |history| ==> Recoverable(model, before, history[i])
  }

  /** Rename the verified temporary file over the destination, keeping the old file aside meanwhile. It succeeds exactly
      when no rename fails; then the destination holds the temporary file's bytes. Failing to remove something never
      matters to the outcome. */
  method Publish(fs: FileSystem, model: Descriptor, hadDestination: bool) returns (result: DownloadResult)
    requires Verified(model, fs.files, Temporary) && (hadDestination <==> At(fs.files, Destination).Some?)
    modifies fs
    ensures result.status == if fs.faults.renames == old(fs.faults.renames) then Success else Failed
    ensures result.restoreFailed <==> fs.faults.renames == old(fs.faults.renames) + 2
    ensures result.status.Success? ==>
      At(fs.files, Destination) == old(At(fs.files, Temporary)) && At(fs.files, Temporary) == None
    ensures result.status.Success? && fs.faults == old(fs.faults) ==>
      At(fs.files, Backup) == if hadDestination then None else old(At(fs.files, Backup))
    ensures !result.status.Success? && !result.restoreFailed ==>
      At(fs.files, Destination) == old(At(fs.files, Destination))
    ensures !result.status.Success? && result.restoreFailed ==>
      old(At(fs.files, Destination)).Some? && At(fs.files, Destination) == None &&
        At(fs.files, Backup) == old(At(fs.files, Destination))
    ensures fs.faults.removals == old(fs.faults.removals) ==> At(fs.files, Temporary) == None
    ensures fs.faults.renames >= old(fs.faults.renames) && fs.faults.looks == old(fs.faults.looks)
    ensures fs.faults.removals >= old(fs.faults.removals)
    ensures |fs.history| >= |old(fs.history)| && fs.history[..|old(fs.history)|] == old(fs.history)
    ensures AllRecoverable(model, old(At(fs.files, Destination)), fs.history, |old(fs.history)|)
  {
    hide Matches;
    var ignored: bool;
    if hadDestination {
      ignored := fs.Remove(Backup);
      var stageFailed := fs.Rename(Destination, Backup);
      if stageFailed {
        ignored := fs.Remove(Temporary);
        return DownloadResult(Failed, false);
      }
    }
    var moveFailed := fs.Rename(Temporary, Destination);
    if moveFailed {
      var restoreFailed := false;
      if hadDestination {
        restoreFailed := fs.Rename(Backup, Destination);
      }
      ignored := fs.Remove(Temporary);
      return DownloadResult(Failed, restoreFailed);
    }
    if hadDestination {
      ignored := fs.Remove(Backup);
    }
    return DownloadResult(Success, false);
  }

  /** The catch blocks: drop the temporary file, if one had been named, and report failure. */
  method Abandon(fs: FileSystem, status: Status) returns (result: DownloadResult)
    modifies fs
    ensures result == DownloadResult(status, false)
    ensures At(fs.files, Destination) == old(At(fs.files, Destination))
    ensures At(fs.files, Backup) == old(At(fs.files, Backup))
    ensures fs.faults == old(fs.faults).(removals := fs.faults.removals)
    ensures fs.faults.removals >= old(fs.faults.removals)
    ensures fs.faults == old(fs.faults) ==> At(fs.files, Temporary) == None
    ensures fs.history == old(fs.history) + [fs.files]
  {
    var ignored := fs.Remove(Temporary);
    return DownloadResult(status, false);
  }

  // ---- when each outcome is due --------------------------------------------------------------------

  predicate NoFewer(before: Faults, after: Faults)
  {
    before.renames <= after.renames && before.removals <= after.removals && before.looks <= after.looks
  }

  /** Nothing but removals has failed in between. */
  predicate OnlyRemovals(before: Faults, after: Faults)
  {
    after.renames == before.renames && after.looks == before.looks
  }

  /** The call gets as far as looking at the files. */
  predicate Begins(model: Descriptor, c: Circumstances)
  {
    model.knownSource && ValidSha256(model.sha256) && c.validDestination && c.firstPoll.Continue? && c.directoryReady
  }

  /** A call that does not begin has its reason, looked for in this order. */
  ghost predicate RefusedFor(model: Descriptor, c: Circumstances, status: Status)
  {
    if !model.knownSource then status == Unsupported
    else if !ValidSha256(model.sha256) then status == VerificationFailed
    else if !c.validDestination then status == Failed
    else status == if c.firstPoll.Cancel? then Cancelled else Failed
  }

  /** The transfer reports success and leaves the catalog's bytes. */
  predicate Delivers(model: Descriptor, transfer: Transfer)
  {
    transfer.ok && !transfer.throws && transfer.left.Some? && Matches(model, transfer.left.value)
  }

  /** What a transfer that does not deliver is reported as. */
  ghost predicate FailsAs(c: Circumstances, status: Status)
  {
    if c.transfer.throws then status == Failed
    else if !c.transfer.ok then status == if c.laterPoll.Cancel? then Cancelled else Failed
    else status == VerificationFailed
  }

  /** download(): all or nothing. Success leaves bytes of the catalog's digest at the destination. Anything else
      leaves the destination as it was, unless putting the old file back failed, and then its bytes are in the
      backup. At every point in between the old bytes are recoverable or verified new ones are in place.
      And it does what it is asked: unless a file operation other than a removal fails, each outcome comes exactly
      when it is due, and a transfer that delivers ends with its bytes at the destination. */
  method Download(fs: FileSystem, model: Descriptor, c: Circumstances) returns (result: DownloadResult)
    modifies fs
    ensures result.status.Success? ==> Verified(model, fs.files, Destination)
    ensures !result.status.Success? && !result.restoreFailed ==>
      At(fs.files, Destination) == old(At(fs.files, Destination))
    ensures !result.status.Success? && result.restoreFailed ==>
      old(At(fs.files, Destination)).Some? && At(fs.files, Backup) == old(At(fs.files, Destination))
    ensures |fs.history| >= |old(fs.history)|
    ensures AllRecoverable(model, old(At(fs.files, Destination)), fs.history, |old(fs.history)|)
    ensures NoFewer(old(fs.faults), fs.faults)
    ensures !Begins(model, c) ==> RefusedFor(model, c, result.status) && fs.files == old(fs.files)
    ensures Begins(model, c) && OnlyRemovals(old(fs.faults), fs.faults) ==>
      if old(Verified(model, fs.files, Destination)) then result.status == Success && fs.files == old(fs.files)
      else if !c.hasTransport then result.status == Unsupported
      else if !Delivers(model, c.transfer) then FailsAs(c, result.status)
      else result.status == Success && At(fs.files, Destination) == c.transfer.left
    ensures Begins(model, c) && fs.faults == old(fs.faults) && !old(Verified(model, fs.files, Destination)) ==>
      At(fs.files, Temporary) == None &&
      At(fs.files, Backup) ==
        if result.status.Success? && old(Destination in fs.files) then None else old(At(fs.files, Backup))
  {
    hide S.HexDigest, ValidSha256;
    if !model.knownSource {
      return DownloadResult(Unsupported, false);
    }
    if !ValidSha256(model.sha256) {
      return DownloadResult(VerificationFailed, false);
    }
    if !c.validDestination {
      return DownloadResult(Failed, false);
    }
    if c.firstPoll.Throws? {
      return DownloadResult(Failed, false);
    }
    if c.firstPoll.Cancel? {
      return DownloadResult(Cancelled, false);
    }
    if !c.directoryReady {
      return DownloadResult(Failed, false);
    }
    var present, threw := fs.Exists(Destination);
    if threw {
      return DownloadResult(Failed, false);
    }
    if present {
      var existing := fs.Hash(Destination, model.expectedSize);
      if existing.Some? && LowerAscii(existing.value) == LowerAscii(model.sha256) {
        return DownloadResult(Success, false);
      }
    }
    result := DownloadFresh(fs, model, c);
  }

  /** The part of download() after the destination was found missing or not the catalog's. */
  method DownloadFresh(fs: FileSystem, model: Descriptor, c: Circumstances) returns (result: DownloadResult)
    modifies fs
    ensures result.status.Success? ==> Verified(model, fs.files, Destination)
    ensures !result.status.Success? && !result.restoreFailed ==>
      At(fs.files, Destination) == old(At(fs.files, Destination))
    ensures !result.status.Success? && result.restoreFailed ==>
      old(At(fs.files, Destination)).Some? && At(fs.files, Backup) == old(At(fs.files, Destination))
    ensures |fs.history| >= |old(fs.history)|
    ensures AllRecoverable(model, old(At(fs.files, Destination)), fs.history, |old(fs.history)|)
    ensures NoFewer(old(fs.faults), fs.faults)
    ensures OnlyRemovals(old(fs.faults), fs.faults) ==>
      if !c.hasTransport then result.status == Unsupported
      else if !Delivers(model, c.transfer) then FailsAs(c, result.status)
      else result.status == Success && At(fs.files, Destination) == c.transfer.left
    ensures fs.faults == old(fs.faults) ==>
      At(fs.files, Temporary) == None &&
      At(fs.files, Backup) ==
        if result.status.Success? && old(Destination in fs.files) then None else old(At(fs.files, Backup))
  {
    hide Matches;
    var ignored := fs.Remove(Temporary);
    if !c.hasTransport {
      return DownloadResult(Unsupported, false);
    }
    fs.Fetch(c.transfer);
    if c.transfer.throws {
      result := Abandon(fs, Failed);
      return;
    }
    if !c.transfer.ok {
      result := Abandon(fs, if c.laterPoll.Cancel? then Cancelled else Failed);
      if c.laterPoll.Throws? {
        result := Abandon(fs, Failed);
      }
      return;
    }
    result := VerifyAndPublish(fs, model);
  }

  /** The part of download() after a transfer that reported success. */
  method VerifyAndPublish(fs: FileSystem, model: Descriptor) returns (result: DownloadResult)
    modifies fs
    ensures result.status.Success? ==> Verified(model, fs.files, Destination)
    ensures !result.status.Success? && !result.restoreFailed ==>
      At(fs.files, Destination) == old(At(fs.files, Destination))
    ensures !result.status.Success? && result.restoreFailed ==>
      old(At(fs.files, Destination)).Some? && At(fs.files, Backup) == old(At(fs.files, Destination))
    ensures |fs.history| >= |old(fs.history)| && fs.history[..|old(fs.history)|] == old(fs.history)
    ensures AllRecoverable(model, old(At(fs.files, Destination)), fs.history, |old(fs.history)|)
    ensures NoFewer(old(fs.faults), fs.faults)
    ensures OnlyRemovals(old(fs.faults), fs.faults) ==>
      if old(Verified(model, fs.files, Temporary))
      then result.status == Success && At(fs.files, Destination) == old(At(fs.files, Temporary))
      else result.status == VerificationFailed
    ensures fs.faults == old(fs.faults) ==>
      At(fs.files, Temporary) == None &&
      At(fs.files, Backup) ==
        if result.status.Success? && old(Destination in fs.files) then None else old(At(fs.files, Backup))
  {
    hide S.HexDigest;
    var digest := fs.Hash(Temporary, model.expectedSize);
    if digest.None? || LowerAscii(digest.value) != LowerAscii(model.sha256) {
      result := Abandon(fs, VerificationFailed);
      return;
    }
    var hadDestination, existsThrew := fs.Exists(Destination);
    if existsThrew {
      result := Abandon(fs, Failed);
      return;
    }
    result := Publish(fs, model, hadDestination);
  }
}
