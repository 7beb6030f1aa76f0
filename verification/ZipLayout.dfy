/** Writing the archives that minzip/Zip.c reads (PKWARE APPNOTE.TXT, sections 4.3.7,
    4.3.12 and 4.3.16): local headers with the data, central directory, end record.
    The parser finds in such an archive what was put into it. */
module ZipLayout {
  import opened Wrappers  // Option
  import opened Bytes
  import opened ZipNames
  import opened ZipArchives

  datatype File = File(
    name: seq<byte>, data: seq<byte>, localExtra: seq<byte>, extra: seq<byte>, comment: seq<byte>,
    uncompLen: nat, compression: nat, modTime: nat, crc32: nat, versionMadeBy: nat, attributes: nat)

  predicate Writable(f: File) {
    && ValidFilename(f.name) && |f.data| < 0x1_0000_0000
    && |f.localExtra| < 0x1_0000 && |f.extra| < 0x1_0000 && |f.comment| < 0x1_0000
    && f.uncompLen < 0x1_0000_0000 && f.compression < 0x1_0000 && f.modTime < 0x1_0000_0000
    && f.crc32 < 0x1_0000_0000 && f.attributes < 0x1_0000_0000
    && (f.versionMadeBy < 0x100 || (f.versionMadeBy / 0x100 == CENVEM_UNIX))
  }

  function Zeros(n: nat): (s: seq<byte>)
    ensures |s| == n
  {
    seq(n, _ => 0)
  }

  function LocalHeader(f: File): (s: seq<byte>)
    ensures |s| == LOCHDR
  {
    Put4(LOCSIG) + Zeros(22) + Put2(|f.name|) + Put2(|f.localExtra|)
  }

  function Local(f: File): seq<byte> { LocalHeader(f) + f.name + f.localExtra + f.data }

  function CentralHeader(f: File, at: nat): (s: seq<byte>)
    ensures |s| == CENHDR
  {
    Put4(CENSIG) + Put2(f.versionMadeBy) + Zeros(4) + Put2(f.compression) + Put4(f.modTime) + Put4(f.crc32)
      + Put4(|f.data|) + Put4(f.uncompLen) + Put2(|f.name|) + Put2(|f.extra|) + Put2(|f.comment|)
      + Zeros(4) + Put4(f.attributes) + Put4(at)
  }

  function Central(f: File, at: nat): seq<byte> { CentralHeader(f, at) + f.name + f.extra + f.comment }

  /** The local records of the first n files. */
  function Body(files: seq<File>, n: nat): seq<byte>
    requires n <= |files|
  {
    if n == 0 then [] else Body(files, n - 1) + Local(files[n - 1])
  }

  function Centrals(files: seq<File>, n: nat): seq<byte>
    requires n <= |files|
  {
    if n == 0 then [] else Centrals(files, n - 1) + Central(files[n - 1], |Body(files, n - 1)|)
  }

  function EndRecord(count: nat, cdOffset: nat): (s: seq<byte>)
    ensures |s| == ENDHDR
  {
    Put4(ENDSIG) + Zeros(4) + Put2(count) + Zeros(6) + Put4(cdOffset) + Zeros(2)
  }

  function WriteArchive(files: seq<File>): seq<byte> {
    Body(files, |files|) + Centrals(files, |files|) + EndRecord(|files|, |Body(files, |files|)|)
  }

  predicate Archivable(files: seq<File>) {
    0 < |files| < 0x1_0000 && |Body(files, |files|)| < 0x1_0000_0000 && forall i | 0 <= i < |files| :: Writable(files[i])
  }

  /** What the parser should find for a file. */
  function Found(files: seq<File>, k: nat): ZipEntry
    requires k < |files|
  {
    EntryFor(files[k], |Body(files, |files|)| + |Centrals(files, k)|, |Body(files, k)|)
  }

  // ---------------------------------------------------------------- one record

  /** m holds the bytes of s at this place. */
  ghost predicate Holds(m: seq<byte>, at: nat, s: seq<byte>) {
    at + |s| <= |m| && m[at..at + |s|] == s
  }

  lemma HoldsPart(m: seq<byte>, at: nat, a: seq<byte>, b: seq<byte>)
    requires Holds(m, at, a + b)
    ensures Holds(m, at, a) && Holds(m, at + |a|, b)
  {
    assert m[at..at + |a|] == (a + b)[..|a|];
    assert m[at + |a|..at + |a| + |b|] == (a + b)[|a|..];
  }

  lemma Held2(m: seq<byte>, at: nat, v: nat)
    requires Holds(m, at, Put2(v)) && v < 0x1_0000
    ensures Get2(m, at) == v
  {
    GetPut2(v);
    hide Put2, Get2;
    Get2OfSlice(m, at, Put2(v));
  }

  lemma Held4(m: seq<byte>, at: nat, v: nat)
    requires Holds(m, at, Put4(v)) && v < 0x1_0000_0000
    ensures Get4(m, at) == v
  {
    GetPut(v);
    hide Put4, Get4;
    Get4OfSlice(m, at, Put4(v));
  }

  lemma LocalFields(m: seq<byte>, at: nat, f: File)
    requires Holds(m, at, LocalHeader(f)) && Writable(f)
    ensures Get4(m, at) == LOCSIG && Get2(m, at + LOCNAM) == |f.name| && Get2(m, at + LOCEXT) == |f.localExtra|
  {
    hide Put2, Put4, Get2, Get4;
    var a, z, n, e := Put4(LOCSIG), Zeros(22), Put2(|f.name|), Put2(|f.localExtra|);
    HoldsPart(m, at, a + z + n, e);
    HoldsPart(m, at, a + z, n);
    HoldsPart(m, at, a, z);
    Held4(m, at, LOCSIG);
    Held2(m, at + LOCNAM, |f.name|);
    Held2(m, at + LOCEXT, |f.localExtra|);
  }

  lemma CentralFields(m: seq<byte>, at: nat, f: File, local: nat)
    requires Holds(m, at, CentralHeader(f, local)) && Writable(f) && local < 0x1_0000_0000
    ensures Get4(m, at) == CENSIG && Get2(m, at + CENVEM) == f.versionMadeBy && Get2(m, at + CENHOW) == f.compression
    ensures Get4(m, at + CENTIM) == f.modTime && Get4(m, at + CENCRC) == f.crc32
    ensures Get4(m, at + CENSIZ) == |f.data| && Get4(m, at + CENLEN) == f.uncompLen
    ensures Get2(m, at + CENNAM) == |f.name| && Get2(m, at + CENEXT) == |f.extra| && Get2(m, at + CENCOM) == |f.comment|
    ensures Get4(m, at + CENATX) == f.attributes && Get4(m, at + CENOFF) == local
  {
    assert f.versionMadeBy < 0x1_0000;
    hide Put2, Put4, Get2, Get4, Holds;
    var s4 := Put4(CENSIG) + Put2(f.versionMadeBy);
    var s10 := s4 + Zeros(4);
    var s12 := s10 + Put2(f.compression);
    var s16 := s12 + Put4(f.modTime);
    var s20 := s16 + Put4(f.crc32);
    var s24 := s20 + Put4(|f.data|);
    var s28 := s24 + Put4(f.uncompLen);
    var s30 := s28 + Put2(|f.name|);
    var s32 := s30 + Put2(|f.extra|);
    var s34 := s32 + Put2(|f.comment|);
    var s38 := s34 + Zeros(4);
    var s42 := s38 + Put4(f.attributes);
    HoldsPart(m, at, s42, Put4(local));
    HoldsPart(m, at, s38, Put4(f.attributes));
    HoldsPart(m, at, s34, Zeros(4));
    HoldsPart(m, at, s32, Put2(|f.comment|));
    HoldsPart(m, at, s30, Put2(|f.extra|));
    HoldsPart(m, at, s28, Put2(|f.name|));
    HoldsPart(m, at, s24, Put4(f.uncompLen));
    HoldsPart(m, at, s20, Put4(|f.data|));
    HoldsPart(m, at, s16, Put4(f.crc32));
    HoldsPart(m, at, s12, Put4(f.modTime));
    HoldsPart(m, at, s10, Put2(f.compression));
    HoldsPart(m, at, s4, Zeros(4));
    HoldsPart(m, at, Put4(CENSIG), Put2(f.versionMadeBy));
    Held4(m, at, CENSIG);
    Held2(m, at + CENVEM, f.versionMadeBy);
    Held2(m, at + CENHOW, f.compression);
    Held4(m, at + CENTIM, f.modTime);
    Held4(m, at + CENCRC, f.crc32);
    Held4(m, at + CENSIZ, |f.data|);
    Held4(m, at + CENLEN, f.uncompLen);
    Held2(m, at + CENNAM, |f.name|);
    Held2(m, at + CENEXT, |f.extra|);
    Held2(m, at + CENCOM, |f.comment|);
    Held4(m, at + CENATX, f.attributes);
    Held4(m, at + CENOFF, local);
  }

  lemma CentralParts(m: seq<byte>, at: nat, f: File, local: nat)
    requires Holds(m, at, Central(f, local))
    ensures Holds(m, at, CentralHeader(f, local)) && Holds(m, at + CENHDR, f.name)
    ensures |Central(f, local)| == CENHDR + |f.name| + |f.extra| + |f.comment|
  {
    hide CentralHeader, Holds;
    HoldsPart(m, at, CentralHeader(f, local) + f.name + f.extra, f.comment);
    HoldsPart(m, at, CentralHeader(f, local) + f.name, f.extra);
    HoldsPart(m, at, CentralHeader(f, local), f.name);
  }

  lemma LocalParts(m: seq<byte>, at: nat, f: File)
    requires Holds(m, at, Local(f))
    ensures Holds(m, at, LocalHeader(f)) && Holds(m, at + LOCHDR + |f.name| + |f.localExtra|, f.data)
  {
    hide LocalHeader, Holds;
    HoldsPart(m, at, LocalHeader(f) + f.name + f.localExtra, f.data);
    HoldsPart(m, at, LocalHeader(f) + f.name, f.localExtra);
    HoldsPart(m, at, LocalHeader(f), f.name);
  }

  /** The record is accepted, and its entry says what was written. */
  predicate ReadsAs(m: seq<byte>, at: nat, e: ZipEntry, next: nat) {
    RecordOk(m, at) && Entry(m, at) == e && NextRecord(m, at) == next
  }

  function EntryFor(f: File, at: nat, local: nat): ZipEntry {
    ZipEntry(f.name, at + CENHDR, local + LOCHDR + |f.name| + |f.localExtra|,
      |f.data|, f.uncompLen, f.compression, f.modTime, f.crc32, f.versionMadeBy, f.attributes)
  }

  /** Both headers have the fields of the file. */
  ghost predicate HasFields(m: seq<byte>, at: nat, f: File, local: nat)
    requires at + CENHDR <= |m| && local + LOCHDR <= |m|
  {
    && Get4(m, at) == CENSIG && Get2(m, at + CENVEM) == f.versionMadeBy && Get2(m, at + CENHOW) == f.compression
    && Get4(m, at + CENTIM) == f.modTime && Get4(m, at + CENCRC) == f.crc32
    && Get4(m, at + CENSIZ) == |f.data| && Get4(m, at + CENLEN) == f.uncompLen
    && Get2(m, at + CENNAM) == |f.name| && Get2(m, at + CENEXT) == |f.extra| && Get2(m, at + CENCOM) == |f.comment|
    && Get4(m, at + CENATX) == f.attributes && Get4(m, at + CENOFF) == local
    && Get4(m, local) == LOCSIG && Get2(m, local + LOCNAM) == |f.name| && Get2(m, local + LOCEXT) == |f.localExtra|
  }

  lemma FieldsRead(m: seq<byte>, at: nat, f: File, local: nat)
    requires Writable(f) && at + CENHDR + |f.name| <= |m| && local + LOCHDR + |f.name| + |f.localExtra| + |f.data| <= |m|
    requires HasFields(m, at, f, local) && m[at + CENHDR..at + CENHDR + |f.name|] == f.name
    ensures ReadsAs(m, at, EntryFor(f, at, local), at + CENHDR + |f.name| + |f.extra| + |f.comment|)
  {
    hide Get2, Get4, ValidFilename;
  }

  /** A record whose local header is where it says. */
  lemma RecordRead(m: seq<byte>, at: nat, f: File, local: nat)
    requires Writable(f) && local < 0x1_0000_0000
    requires Holds(m, at, Central(f, local)) && Holds(m, local, Local(f))
    ensures ReadsAs(m, at, EntryFor(f, at, local), at + |Central(f, local)|)
    ensures Holds(m, EntryFor(f, at, local).offset, f.data)
  {
    hide Central, Local, CentralHeader, LocalHeader, Get2, Get4, ReadsAs, Writable;
    CentralParts(m, at, f, local);
    CentralFields(m, at, f, local);
    LocalParts(m, local, f);
    LocalFields(m, local, f);
    FieldsRead(m, at, f, local);
  }

  // ---------------------------------------------------------------- a whole archive

  lemma HoldsWithin(m: seq<byte>, a: seq<byte>, b: seq<byte>, at: nat, s: seq<byte>)
    requires m == a + b && Holds(a, at, s)
    ensures Holds(m, at, s)
  {
    assert m[at..at + |s|] == a[at..at + |s|];
  }

  lemma HoldsAfter(m: seq<byte>, a: seq<byte>, b: seq<byte>, at: nat, s: seq<byte>)
    requires m == a + b && Holds(b, at, s)
    ensures Holds(m, |a| + at, s)
  {
    assert m[|a| + at..|a| + at + |s|] == b[at..at + |s|];
  }

  lemma HoldsLast(a: seq<byte>, b: seq<byte>)
    ensures Holds(a + b, |a|, b)
  {
  }

  lemma {:induction false} BodyHolds(files: seq<File>, k: nat, n: nat)
    requires k < n <= |files|
    ensures Holds(Body(files, n), |Body(files, k)|, Local(files[k]))
  {
    var front, last := Body(files, n - 1), Local(files[n - 1]);
    assert Body(files, n) == front + last;
    hide Holds, Local, Body;
    if k == n - 1 {
      HoldsLast(front, last);
    } else {
      BodyHolds(files, k, n - 1);
      HoldsWithin(Body(files, n), front, last, |Body(files, k)|, Local(files[k]));
    }
  }

  lemma CentralsStep(files: seq<File>, k: nat)
    requires k < |files|
    ensures Centrals(files, k + 1) == Centrals(files, k) + Central(files[k], |Body(files, k)|)
  {
    hide Body, Central;
  }

  lemma {:induction false} CentralsHold(files: seq<File>, k: nat, n: nat)
    requires k < n <= |files|
    ensures Holds(Centrals(files, n), |Centrals(files, k)|, Central(files[k], |Body(files, k)|))
  {
    hide Holds, Central, Body, Centrals;
    var front, last := Centrals(files, n - 1), Central(files[n - 1], |Body(files, n - 1)|);
    CentralsStep(files, n - 1);
    if k == n - 1 {
      HoldsLast(front, last);
    } else {
      CentralsHold(files, k, n - 1);
      HoldsWithin(Centrals(files, n), front, last, |Centrals(files, k)|, Central(files[k], |Body(files, k)|));
    }
  }

  /** The k-th file is where it should be in the archive. */
  lemma InPlace(files: seq<File>, k: nat)
    requires k < |files|
    ensures var m, cdOffset := WriteArchive(files), |Body(files, |files|)|;
      && Holds(m, |Body(files, k)|, Local(files[k])) && |Body(files, k)| <= cdOffset
      && Holds(m, cdOffset + |Centrals(files, k)|, Central(files[k], |Body(files, k)|))
  {
    hide Body, Centrals, Central, Local, EndRecord, Holds;
    var body, dir := Body(files, |files|), Centrals(files, |files|);
    var end := EndRecord(|files|, |body|);
    var m, ks, at := WriteArchive(files), |Centrals(files, k)|, |Body(files, k)|;
    BodyHolds(files, k, |files|);
    CentralsHold(files, k, |files|);
    HoldsInside(body, at, Local(files[k]));
    HoldsWithin(body + dir, body, dir, at, Local(files[k]));
    HoldsWithin(m, body + dir, end, at, Local(files[k]));
    HoldsAfter(body + dir, body, dir, ks, Central(files[k], at));
    HoldsWithin(m, body + dir, end, |body| + ks, Central(files[k], at));
  }

  lemma HoldsInside(m: seq<byte>, at: nat, s: seq<byte>)
    requires Holds(m, at, s)
    ensures at + |s| <= |m|
  {
  }

  /** The first n entries the parser should find. */
  function Entries(files: seq<File>, n: nat): (es: seq<ZipEntry>)
    requires n <= |files|
    ensures |es| == n
  {
    if n == 0 then [] else Entries(files, n - 1) + [Found(files, n - 1)]
  }

  lemma NextCentral(files: seq<File>, k: nat)
    requires k < |files|
    ensures |Centrals(files, k + 1)| == |Centrals(files, k)| + |Central(files[k], |Body(files, k)|)|
    ensures Entries(files, k + 1) == Entries(files, k) + [Found(files, k)]
  {
    hide Body, Central, Centrals, Found;
    CentralsStep(files, k);
  }

  lemma WritableFile(files: seq<File>, k: nat)
    requires Archivable(files) && k < |files|
    ensures Writable(files[k]) && |Body(files, |files|)| < 0x1_0000_0000
  {
    hide Writable, Body;
  }

  lemma OneRecordRead(files: seq<File>, k: nat)
    requires Archivable(files) && k < |files|
    ensures var m, cdOffset := WriteArchive(files), |Body(files, |files|)|;
      && ReadsAs(m, cdOffset + |Centrals(files, k)|, Found(files, k), cdOffset + |Centrals(files, k + 1)|)
      && Holds(m, Found(files, k).offset, files[k].data)
  {
    hide WriteArchive, Body, Centrals, Central, Local, Holds, ReadsAs, Writable, Archivable;
    InPlace(files, k);
    NextCentral(files, k);
    WritableFile(files, k);
    RecordRead(WriteArchive(files), |Body(files, |files|)| + |Centrals(files, k)|, files[k], |Body(files, k)|);
  }

  /** From one record read to the next. */
  lemma RecordsStep(m: seq<byte>, cdOffset: nat, k: nat, read: seq<ZipEntry>, at: nat, e: ZipEntry, next: nat)
    requires ReadRecords(m, cdOffset, k) == Some((read, at)) && ReadsAs(m, at, e, next)
    ensures ReadRecords(m, cdOffset, k + 1) == Some((read + [e], next))
  {
    hide ReadRecords, RecordOk, Entry, NextRecord;
    ReadOne(m, cdOffset, k, read, at);
  }

  lemma NoRecords(files: seq<File>, m: seq<byte>, cdOffset: nat)
    ensures Entries(files, 0) == [] && Centrals(files, 0) == [] && ReadRecords(m, cdOffset, 0) == Some(([], cdOffset))
  {
  }

  lemma {:induction false} RecordsRead(files: seq<File>, n: nat)
    requires Archivable(files) && n <= |files|
    ensures var m, cdOffset := WriteArchive(files), |Body(files, |files|)|;
      ReadRecords(m, cdOffset, n) == Some((Entries(files, n), cdOffset + |Centrals(files, n)|))
  {
    hide WriteArchive, Body, Centrals, ReadRecords, ReadsAs, Found, Entries, Archivable;
    var m, cdOffset := WriteArchive(files), |Body(files, |files|)|;
    if n == 0 {
      NoRecords(files, m, cdOffset);
    } else {
      var k := n - 1;
      RecordsRead(files, k);
      OneRecordRead(files, k);
      NextCentral(files, k);
      RecordsStep(m, cdOffset, k, Entries(files, k), cdOffset + |Centrals(files, k)|, Found(files, k), cdOffset + |Centrals(files, n)|);
    }
  }

  lemma EndFields(m: seq<byte>, at: nat, count: nat, cdOffset: nat)
    requires Holds(m, at, EndRecord(count, cdOffset)) && count < 0x1_0000 && cdOffset < 0x1_0000_0000
    ensures Get4(m, at) == ENDSIG && Get2(m, at + ENDSUB) == count && Get4(m, at + ENDOFF) == cdOffset
  {
    hide Put2, Put4, Get2, Get4, Holds;
    var s8 := Put4(ENDSIG) + Zeros(4);
    var s10 := s8 + Put2(count);
    var s16 := s10 + Zeros(6);
    HoldsPart(m, at, s16 + Put4(cdOffset), Zeros(2));
    HoldsPart(m, at, s16, Put4(cdOffset));
    HoldsPart(m, at, s10, Zeros(6));
    HoldsPart(m, at, s8, Put2(count));
    HoldsPart(m, at, Put4(ENDSIG), Zeros(4));
    Held4(m, at, ENDSIG);
    Held2(m, at + ENDSUB, count);
    Held4(m, at + ENDOFF, cdOffset);
  }

  lemma DirectoryRead(files: seq<File>)
    requires Archivable(files)
    ensures var m := WriteArchive(files);
      |m| >= ENDHDR && Directory(m) == Some((|Body(files, |files|)|, |files|))
  {
    hide Body, Centrals, Local, LocalHeader, EndRecord, Holds, Get2, Get4, Central, Writable;
    var m, body, dir := WriteArchive(files), Body(files, |files|), Centrals(files, |files|);
    var end := EndRecord(|files|, |body|);
    InPlace(files, 0);
    FirstLocal(files);
    LocalParts(m, 0, files[0]);
    LocalFields(m, 0, files[0]);
    HoldsLast(body + dir, end);
    EndFields(m, |m| - ENDHDR, |files|, |body|);
    EndFound(m);
    hide LastEnd, WriteArchive;
  }

  lemma FirstLocal(files: seq<File>)
    requires files != []
    ensures Body(files, 0) == []
  {
  }

  lemma EndFound(m: seq<byte>)
    requires |m| >= ENDHDR && Get4(m, |m| - ENDHDR) == ENDSIG
    ensures LastEnd(m, |m| - ENDHDR) == |m| - ENDHDR
  {
  }

  /** Parsing finds in an archive exactly the files it was written from, each with its name
      and the place of its data. */
  lemma ArchiveReadsBack(files: seq<File>)
    requires Archivable(files)
    ensures |WriteArchive(files)| >= ENDHDR
    ensures ArchiveRecords(WriteArchive(files)) == Some(Entries(files, |files|))
    ensures forall k | 0 <= k < |files| :: Entries(files, |files|)[k] == Found(files, k)
    ensures forall k | 0 <= k < |files| :: Holds(WriteArchive(files), Found(files, k).offset, files[k].data)
  {
    hide WriteArchive, Body, Centrals, Directory, ReadRecords, Archivable, Found, Entries, Holds;
    DirectoryRead(files);
    RecordsRead(files, |files|);
    forall k | 0 <= k < |files|
      ensures Entries(files, |files|)[k] == Found(files, k)
      ensures Holds(WriteArchive(files), Found(files, k).offset, files[k].data)
    {
      EntryOf(files, k, |files|);
      OneRecordRead(files, k);
    }
  }

  lemma {:induction false} EntryOf(files: seq<File>, k: nat, n: nat)
    requires k < n <= |files|
    ensures Entries(files, n)[k] == Found(files, k)
  {
    hide Found;
    if k < n - 1 { EntryOf(files, k, n - 1); }
  }

  lemma SameMembers(a: seq<ZipEntry>, b: seq<ZipEntry>, e: ZipEntry)
    requires multiset(a) == multiset(b) && e in a
    ensures e in b
  {
    assert e in multiset(a);
  }

  lemma FoundName(files: seq<File>, k: nat)
    requires k < |files|
    ensures Found(files, k).fileName == files[k].name
  {
    hide Body, Centrals;
  }

  /** Looking a name up among the parsed entries, in whatever order parsing left them,
      succeeds exactly when a file of that name was written. */
  lemma WrittenIsFound(files: seq<File>, es: seq<ZipEntry>, name: seq<byte>)
    requires Archivable(files) && |WriteArchive(files)| >= ENDHDR && ArchiveRecords(WriteArchive(files)).Some?
    requires multiset(es) == multiset(ArchiveRecords(WriteArchive(files)).value)
    ensures LinearFind(es, name).Some? <==> exists k | 0 <= k < |files| :: files[k].name == name
  {
    hide ArchiveRecords, WriteArchive, Archivable, Found, Entries, Holds;
    ArchiveReadsBack(files);
    LinearFindIsFirst(es, name);
    hide LinearFind;
    var written := Entries(files, |files|);
    if LinearFind(es, name).Some? {
      var e := LinearFind(es, name).value.target;
      SameMembers(es, written, e);
      var k :| 0 <= k < |written| && written[k] == e;
      FoundName(files, k);
    }
    if k :| 0 <= k < |files| && files[k].name == name {
      FoundName(files, k);
      SameMembers(written, es, written[k]);
    }
  }
}
