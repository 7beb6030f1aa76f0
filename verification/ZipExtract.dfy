/** mzExtractRecursive of minzip/Zip.c: which entries are visited, which path each gets,
    and what the early exit and the result flag mean. What happens to one entry on disk
    is a parameter. */
module ZipExtract {
  import opened Bytes
  import opened ZipNames
  import opened ZipArchives

  const SLASH: byte := 47

  /** A directory path made to end in a slash; the empty zip path stays empty. */
  function CanonicalZipDir(zipDir: seq<byte>): seq<byte> {
    if zipDir == [] || zipDir[|zipDir|-1] == SLASH then zipDir else zipDir + [SLASH]
  }

  function CanonicalTarget(targetDir: seq<byte>): seq<byte> {
    if targetDir != [] && targetDir[|targetDir|-1] == SLASH then targetDir else targetDir + [SLASH]
  }

  // ---------------------------------------------------------------- path assembly

  /** The reused buffer: once filled, it always starts with the target directory and one
      slash, and it is regrown before a longer path is written into it. */
  class MzPathHelper {
    const targetDir: seq<byte>
    const zipDirLen: nat
    var targetDirLen: nat
    var buf: array?<byte>

    ghost predicate Valid()
      reads this, buf
    {
      if buf == null then targetDirLen == |targetDir|
      else var base := CanonicalTarget(targetDir);
        targetDirLen == |base| < buf.Length && buf[..targetDirLen] == base
    }

    constructor (targetDir: seq<byte>, zipDirLen: nat)
      ensures Valid() && buf == null
      ensures this.targetDir == targetDir && this.zipDirLen == zipDirLen
    {
      this.targetDir, this.zipDirLen := targetDir, zipDirLen;
      targetDirLen, buf := |targetDir|, null;
    }

    /** realloc: keeps the old bytes. */
    method Grow(needLen: nat)
      requires buf != null ==> Valid() && buf.Length < needLen
      modifies this`buf
      ensures buf != null && fresh(buf) && buf.Length == needLen
      ensures old(buf) != null ==> Valid()
    {
      var newBuf := new byte[needLen];
      if buf != null {
        forall k | 0 <= k < buf.Length { newBuf[k] := buf[k]; }
        assert newBuf[..targetDirLen] == buf[..targetDirLen];
      }
      buf := newBuf;
    }

    /** First use: the target directory and, unless it is there already, a slash. */
    method StoreBase()
      requires buf != null && targetDirLen == |targetDir| && targetDirLen + 1 < buf.Length
      modifies this`targetDirLen, buf
      ensures Valid() && buf == old(buf)
    {
      forall k | 0 <= k < targetDirLen { buf[k] := targetDir[k]; }
      assert buf[..targetDirLen] == targetDir;
      if targetDirLen == 0 || buf[targetDirLen - 1] != SLASH {
        buf[targetDirLen] := SLASH;
        targetDirLen := targetDirLen + 1;
      }
      assert buf[..targetDirLen] == CanonicalTarget(targetDir);
    }

    method StoreName(name: seq<byte>) returns (path: seq<byte>)
      requires Valid() && buf != null && targetDirLen + |name| < buf.Length
      modifies buf
      ensures Valid() && path == CanonicalTarget(targetDir) + name
      ensures |path| < buf.Length && buf[..|path|] == path && buf[|path|] == 0
    {
      ghost var base := buf[..targetDirLen];
      forall k | 0 <= k < |name| { buf[targetDirLen + k] := name[k]; }
      buf[targetDirLen + |name|] := 0;
      assert buf[..targetDirLen] == base;
      path := buf[..targetDirLen + |name|];
      assert path == base + name;
    }

    /** The C string left in the buffer: target directory, one slash, name remainder. */
    method TargetEntryPath(fileName: seq<byte>) returns (path: seq<byte>)
      requires Valid() && |fileName| >= zipDirLen
      modifies this, buf
      ensures Valid() && buf != null && (buf == old(buf) || fresh(buf))
      ensures path == CanonicalTarget(targetDir) + fileName[zipDirLen..]
      ensures |path| < buf.Length && buf[..|path|] == path && buf[|path|] == 0
    {
      var firstTime := buf == null;
      var needLen := targetDirLen + 1 + (|fileName| - zipDirLen) + 1;
      if buf == null || needLen > buf.Length {
        Grow(needLen * 2);
      }
      if firstTime {
        StoreBase();
      }
      path := StoreName(fileName[zipDirLen..]);
    }
  }

  // ---------------------------------------------------------------- selection

  /** Outcome of extracting one entry. The file branch keeps its own `ok`, so a failure
      there leaves the loop without reaching the result. */
  datatype Outcome = Extracted | Failed | FailedUnseen

  datatype Status = Running | Stopped(seen: bool)

  predicate Selects(p: seq<byte>, e: ZipEntry) { p <= e.fileName }

  function TargetPath(base: seq<byte>, p: seq<byte>, e: ZipEntry): seq<byte>
    requires Selects(p, e)
  {
    base + e.fileName[|p|..]
  }

  /** What is extracted from a directory of the archive, given with or without a slash at its
      end: exactly the names below it, and each goes below the target directory. */
  lemma SelectedIsBelow(zipDir: seq<byte>, targetDir: seq<byte>, e: ZipEntry)
    requires zipDir == [] || zipDir[|zipDir|-1] != 47
    requires targetDir == [] || targetDir[|targetDir|-1] != 47
    ensures CanonicalTarget(targetDir + [47]) == CanonicalTarget(targetDir) == targetDir + [47]
    ensures zipDir != [] ==> CanonicalZipDir(zipDir + [47]) == CanonicalZipDir(zipDir)
    ensures var p, base, name := CanonicalZipDir(zipDir), CanonicalTarget(targetDir), e.fileName;
      if zipDir == [] then Selects(p, e) && TargetPath(base, p, e) == targetDir + [47] + name
      else
        && (Selects(p, e) <==> |zipDir| < |name| && zipDir <= name && name[|zipDir|] == 47)
        && (Selects(p, e) ==> TargetPath(base, p, e) == targetDir + [47] + name[|zipDir| + 1..])
  {
    var p, name := CanonicalZipDir(zipDir), e.fileName;
    if zipDir != [] && |zipDir| < |name| && zipDir <= name && name[|zipDir|] == 47 {
      assert p == name[..|p|];
    }
  }

  /** The target paths of all entries under p, in archive order. */
  function SelectedPaths(es: seq<ZipEntry>, p: seq<byte>, base: seq<byte>): seq<seq<byte>> {
    if es == [] then [] else
    var n := |es| - 1;
    SelectedPaths(es[..n], p, base) + (if Selects(p, es[n]) then [TargetPath(base, p, es[n])] else [])
  }

  /** A scan without early exit that stops at the first entry it cannot extract. */
  function FullScan(es: seq<ZipEntry>, p: seq<byte>, base: seq<byte>, act: ZipEntry -> Outcome): (seq<seq<byte>>, Status) {
    if es == [] then ([], Running) else
    var n := |es| - 1;
    var (calls, status) := FullScan(es[..n], p, base, act);
    if status.Stopped? || !Selects(p, es[n]) then (calls, status)
    else match act(es[n])
      case Extracted => (calls + [TargetPath(base, p, es[n])], Running)
      case Failed => (calls, Stopped(true))
      case FailedUnseen => (calls, Stopped(false))
  }

  /** The callback was made for every selected entry exactly when the scan ran through. */
  lemma {:induction false} CompleteIffRunning(es: seq<ZipEntry>, p: seq<byte>, base: seq<byte>, act: ZipEntry -> Outcome)
    ensures var (calls, status) := FullScan(es, p, base, act);
      && calls <= SelectedPaths(es, p, base)
      && (status == Running <==> calls == SelectedPaths(es, p, base))
      && (status == Running <==> forall i | 0 <= i < |es| && Selects(p, es[i]) :: act(es[i]) == Extracted)
  {
    if es != [] {
      var n := |es| - 1;
      CompleteIffRunning(es[..n], p, base, act);
      assert forall i | 0 <= i < n :: es[..n][i] == es[i];
      assert es[n] in es;
    }
  }

  /** The first selected entry that is not extracted, if there is one. */
  function FirstTrouble(es: seq<ZipEntry>, p: seq<byte>, act: ZipEntry -> Outcome): (k: nat)
    ensures k <= |es| && (forall i | 0 <= i < k && Selects(p, es[i]) :: act(es[i]) == Extracted)
    ensures k < |es| ==> Selects(p, es[k]) && act(es[k]) != Extracted
  {
    if es == [] then 0 else
    var n := |es| - 1;
    var k := FirstTrouble(es[..n], p, act);
    if k == n && !(Selects(p, es[n]) && act(es[n]) != Extracted) then |es| else k
  }

  /** It decides what the scan comes to. */
  lemma {:induction false} TroubleDecides(es: seq<ZipEntry>, p: seq<byte>, base: seq<byte>, act: ZipEntry -> Outcome)
    ensures var k, (calls, status) := FirstTrouble(es, p, act), FullScan(es, p, base, act);
      && calls == SelectedPaths(es[..k], p, base)
      && status == if k == |es| then Running else Stopped(act(es[k]) == Failed)
    ensures var k := FirstTrouble(es, p, act);
      k < |es| ==> |SelectedPaths(es[..k], p, base)| < |SelectedPaths(es, p, base)|
  {
    if es != [] {
      var n, k := |es| - 1, FirstTrouble(es, p, act);
      TroubleDecides(es[..n], p, base, act);
      assert es[..|es|] == es && es[..n][..n] == es[..n];
      if k < n { assert es[..n][..k] == es[..k]; }
    }
  }

  lemma {:induction false} NothingSelectedAfter(es: seq<ZipEntry>, i: nat, p: seq<byte>, base: seq<byte>,
      act: ZipEntry -> Outcome)
    requires i <= |es| && forall k | i <= k < |es| :: !Selects(p, es[k])
    ensures FullScan(es, p, base, act) == FullScan(es[..i], p, base, act)
  {
    if i < |es| {
      var n := |es| - 1;
      NothingSelectedAfter(es[..n], i, p, base, act);
      assert es[..n][..i] == es[..i];
    } else {
      assert es[..i] == es;
    }
  }

  lemma {:induction false} StoppedStays(es: seq<ZipEntry>, i: nat, p: seq<byte>, base: seq<byte>, act: ZipEntry -> Outcome)
    requires i <= |es| && FullScan(es[..i], p, base, act).1.Stopped?
    ensures FullScan(es, p, base, act) == FullScan(es[..i], p, base, act)
  {
    if i < |es| {
      var n := |es| - 1;
      assert es[..n][..i] == es[..i];
      StoppedStays(es[..n], i, p, base, act);
    } else {
      assert es[..i] == es;
    }
  }

  lemma ScanStep(es: seq<ZipEntry>, i: nat, p: seq<byte>, base: seq<byte>, act: ZipEntry -> Outcome)
    requires i < |es| && FullScan(es[..i], p, base, act).1 == Running
    ensures var calls := FullScan(es[..i], p, base, act).0;
      FullScan(es[..i+1], p, base, act) ==
        if !Selects(p, es[i]) then (calls, Running)
        else match act(es[i])
          case Extracted => (calls + [TargetPath(base, p, es[i])], Running)
          case Failed => (calls, Stopped(true))
          case FailedUnseen => (calls, Stopped(false))
  {
    assert es[..i+1][..i] == es[..i];
  }

  /** In a sorted archive nothing under p follows the first entry past those under p. */
  lemma SelectionEnds(es: seq<ZipEntry>, p: seq<byte>, seen: nat, i: nat)
    requires Sorted(es) && seen < i < |es| && Selects(p, es[seen]) && !Selects(p, es[i])
    ensures forall k | i <= k < |es| :: !Selects(p, es[k])
  {
    forall k | i <= k < |es| ensures !Selects(p, es[k]) {
      if i < k && Selects(p, es[k]) {
        PrefixIsConvex(p, es[seen].fileName, es[i].fileName, es[k].fileName);
        assert false;
      }
    }
  }

  predicate ValidDirs(zipDir: seq<byte>, targetDir: seq<byte>) {
    !(zipDir != [] && zipDir[0] == SLASH) && targetDir != [] && targetDir[0] == SLASH
  }

  /** The extraction loop, leaving at the first mismatch after a match, does what the full
      scan does. A dry run consults nothing and calls back for every selected entry. */
  method ExtractRecursive(es: seq<ZipEntry>, zipDir: seq<byte>, targetDir: seq<byte>, dryRun: bool, act: ZipEntry -> Outcome)
      returns (ok: bool, calls: seq<seq<byte>>)
    requires Sorted(es)
    ensures var p, base := CanonicalZipDir(zipDir), CanonicalTarget(targetDir);
      if !ValidDirs(zipDir, targetDir) then !ok && calls == []
      else if dryRun then ok && calls == SelectedPaths(es, p, base)
      else calls == FullScan(es, p, base, act).0 && ok == !(FullScan(es, p, base, act).1 == Stopped(true))
  {
    ok, calls := false, [];
    if zipDir != [] && zipDir[0] == SLASH {
      return;
    }
    if targetDir == [] || targetDir[0] != SLASH {
      return;
    }
    var zpath := zipDir;
    if |zipDir| > 0 && zpath[|zipDir| - 1] != SLASH {
      zpath := zpath + [SLASH];
    }
    ok, calls := Scan(es, zpath, targetDir, dryRun, act);
    if dryRun { CompleteIffRunning(es, zpath, CanonicalTarget(targetDir), Doing(true, act)); }
  }

  /** What the loop does with one entry. */
  function Doing(dryRun: bool, act: ZipEntry -> Outcome): ZipEntry -> Outcome {
    if dryRun then e => Extracted else act
  }

  method Scan(es: seq<ZipEntry>, zpath: seq<byte>, targetDir: seq<byte>, dryRun: bool, act: ZipEntry -> Outcome)
      returns (ok: bool, calls: seq<seq<byte>>)
    requires Sorted(es)
    ensures calls == FullScan(es, zpath, CanonicalTarget(targetDir), Doing(dryRun, act)).0
    ensures ok == !(FullScan(es, zpath, CanonicalTarget(targetDir), Doing(dryRun, act)).1 == Stopped(true))
  {
    var helper := new MzPathHelper(targetDir, |zpath|);
    ghost var base, doing, first := CanonicalTarget(targetDir), Doing(dryRun, act), 0;
    var seenMatch, i := false, 0;
    ok, calls := true, [];
    assert FullScan(es[..0], zpath, base, doing) == ([], Running);
    hide FullScan, Sorted;
    while i < |es|
      invariant 0 <= i <= |es| && ok
      invariant helper.Valid() && fresh(helper) && (helper.buf != null ==> fresh(helper.buf))
      invariant seenMatch ==> first < i && Selects(zpath, es[first])
      invariant FullScan(es[..i], zpath, base, doing) == (calls, Running)
    {
      var pEntry := es[i];
      ScanStep(es, i, zpath, base, doing);
      if |pEntry.fileName| < |zpath| || pEntry.fileName[..|zpath|] != zpath {
        if seenMatch {
          SelectionEnds(es, zpath, first, i);
          break;
        }
        i := i + 1;
        continue;
      }
      if !seenMatch { first := i; }
      seenMatch := true;
      var targetFile := helper.TargetEntryPath(pEntry.fileName);
      if !dryRun {
        var outcome := act(pEntry);
        if outcome != Extracted {
          StoppedStays(es, i + 1, zpath, base, doing);
          ok := outcome != Failed;
          return;
        }
      }
      calls := calls + [targetFile];
      i := i + 1;
    }
    NothingSelectedAfter(es, i, zpath, base, doing);
  }

  /** cmd_copy_dir: a dry run counts the callbacks, the real run makes them, up to the first
      entry that cannot be extracted. Success is reported exactly if there is none, or if
      the first one fails inside the file branch; then files are missing all the same. */
  method CopyDir(es: seq<ZipEntry>, zipDir: seq<byte>, targetDir: seq<byte>, act: ZipEntry -> Outcome)
      returns (r: int, numDone: nat, numTotal: nat)
    requires Sorted(es)
    ensures (r == 0 || r == 1) && numDone <= numTotal
    ensures var p, base, k := CanonicalZipDir(zipDir), CanonicalTarget(targetDir), FirstTrouble(es, CanonicalZipDir(zipDir), act);
      && (r == 0 <==> ValidDirs(zipDir, targetDir) && (k < |es| ==> act(es[k]) == FailedUnseen))
      && (ValidDirs(zipDir, targetDir) ==>
            numTotal == |SelectedPaths(es, p, base)| && numDone == |SelectedPaths(es[..k], p, base)|)
      && (r == 0 ==> (numDone < numTotal <==> k < |es|))
    ensures r == 1 && numTotal > 0 ==> numDone < numTotal
  {
    hide Sorted;
    ghost var p, base := CanonicalZipDir(zipDir), CanonicalTarget(targetDir);
    var counted, counts := ExtractRecursive(es, zipDir, targetDir, true, act);
    numDone, numTotal := 0, |counts|;
    if !counted {
      return 1, 0, numTotal;
    }
    var ok, calls := ExtractRecursive(es, zipDir, targetDir, false, act);
    CompleteIffRunning(es, p, base, act);
    TroubleDecides(es, p, base, act);
    assert es[..|es|] == es;
    r, numDone := if ok then 0 else 1, |calls|;
    PrefixCount(FullScan(es, p, base, act).0, SelectedPaths(es, p, base));
  }

  /** An archive of one file that cannot be written: CopyDir reports success, with none of
      one file done. */
  lemma FileIsMissed(e: ZipEntry, zipDir: seq<byte>, base: seq<byte>)
    requires Selects(CanonicalZipDir(zipDir), e)
    ensures var es, p, act: ZipEntry -> Outcome := [e], CanonicalZipDir(zipDir), x => FailedUnseen;
      var k := FirstTrouble(es, p, act);
      && Sorted(es) && k < |es| && act(es[k]) == FailedUnseen
      && |SelectedPaths(es, p, base)| == 1 && SelectedPaths(es[..k], p, base) == []
  {
    var p, act: ZipEntry -> Outcome := CanonicalZipDir(zipDir), x => FailedUnseen;
    assert [e][..0] == [];
    assert FirstTrouble([e], p, act) == 0;
    assert SelectedPaths([e], p, base) == [] + [TargetPath(base, p, e)];
  }

  lemma PrefixCount(a: seq<seq<byte>>, b: seq<seq<byte>>)
    requires a <= b
    ensures |a| <= |b| && (|a| == |b| <==> a == b)
  {
  }
}
