/** The zip index of minzip/Zip.c: reading the central directory (PKWARE APPNOTE.TXT,
    sections 4.3.7, 4.3.12 and 4.3.16), keeping the entries sorted by binary insertion,
    and finding an entry through the hash table. */
module ZipArchives {
  import opened Wrappers
  import opened Bytes
  import opened ZipNames
  import opened HashTables

  const LOCSIG := 0x04034b50
  const CENSIG := 0x02014b50
  const ENDSIG := 0x06054b50
  const LOCHDR := 30
  const CENHDR := 46
  const ENDHDR := 22
  const CENVEM := 4
  const CENHOW := 10
  const CENTIM := 12
  const CENCRC := 16
  const CENSIZ := 20
  const CENLEN := 24
  const CENNAM := 28
  const CENEXT := 30
  const CENCOM := 32
  const CENATX := 38
  const CENOFF := 42
  const LOCNAM := 26
  const LOCEXT := 28
  const ENDSUB := 8
  const ENDOFF := 16
  const CENVEM_UNIX := 3
  const PATH_MAX := 4096

  datatype ZipEntry = ZipEntry(
    fileName: seq<byte>, nameAt: nat,
    offset: nat, compLen: nat, uncompLen: nat, compression: nat,
    modTime: nat, crc32: nat, versionMadeBy: nat, externalFileAttributes: nat)

  // ---------------------------------------------------------------- decoding

  predicate ValidFilename(name: seq<byte>) {
    |name| < PATH_MAX && forall i | 0 <= i < |name| :: 32 <= name[i] < 127
  }

  /** Start of the entry's data: past its local header, the name and extra fields there. */
  function DataOffset(m: seq<byte>, localHdr: nat): nat
    requires localHdr + LOCHDR <= |m|
  {
    localHdr + LOCHDR + Get2(m, localHdr + LOCNAM) + Get2(m, localHdr + LOCEXT)
  }

  /** The source does not give up on the archive at the record at ptr. */
  predicate RecordOk(m: seq<byte>, ptr: nat) {
    && ptr + CENHDR <= |m| && Get4(m, ptr) == CENSIG
    && ptr + CENHDR + Get2(m, ptr + CENNAM) <= |m|
    && ValidFilename(m[ptr + CENHDR..ptr + CENHDR + Get2(m, ptr + CENNAM)])
    && (Get2(m, ptr + CENVEM) / 0x100 == 0 || Get2(m, ptr + CENVEM) / 0x100 == CENVEM_UNIX)
    && var localHdr := Get4(m, ptr + CENOFF);
    && localHdr + LOCHDR <= |m| && Get4(m, localHdr) == LOCSIG
    && DataOffset(m, localHdr) + Get4(m, ptr + CENSIZ) <= |m|
  }

  /** The entry of the record at ptr: its name and its data lie inside the mapping. */
  function Entry(m: seq<byte>, ptr: nat): (e: ZipEntry)
    requires RecordOk(m, ptr)
    ensures ValidFilename(e.fileName)
    ensures e.nameAt + |e.fileName| <= |m| && m[e.nameAt..e.nameAt + |e.fileName|] == e.fileName
    ensures e.offset + e.compLen <= |m|
  {
    ZipEntry(m[ptr + CENHDR..ptr + CENHDR + Get2(m, ptr + CENNAM)], ptr + CENHDR,
      DataOffset(m, Get4(m, ptr + CENOFF)),
      Get4(m, ptr + CENSIZ), Get4(m, ptr + CENLEN), Get2(m, ptr + CENHOW),
      Get4(m, ptr + CENTIM), Get4(m, ptr + CENCRC), Get2(m, ptr + CENVEM), Get4(m, ptr + CENATX))
  }

  /** The cursor after the record: header, name, extra field and comment. */
  function NextRecord(m: seq<byte>, ptr: nat): nat
    requires RecordOk(m, ptr)
  {
    ptr + CENHDR + Get2(m, ptr + CENNAM) + Get2(m, ptr + CENEXT) + Get2(m, ptr + CENCOM)
  }

  /** The first n records in file order, and the cursor after them. */
  function ReadRecords(m: seq<byte>, cdOffset: nat, n: nat): (r: Option<(seq<ZipEntry>, nat)>)
    ensures r.Some? ==> |r.value.0| == n
  {
    if n == 0 then Some(([], cdOffset)) else
    match ReadRecords(m, cdOffset, n - 1)
    case None => None
    case Some((es, ptr)) => if RecordOk(m, ptr) then Some((es + [Entry(m, ptr)], NextRecord(m, ptr))) else None
  }

  lemma ReadOne(m: seq<byte>, cdOffset: nat, i: nat, read: seq<ZipEntry>, ptr: nat)
    requires ReadRecords(m, cdOffset, i) == Some((read, ptr))
    ensures ReadRecords(m, cdOffset, i + 1) ==
      if RecordOk(m, ptr) then Some((read + [Entry(m, ptr)], NextRecord(m, ptr))) else None
  {
    hide RecordOk, Entry, NextRecord;
  }

  /** The entry's name is where it was found. */
  predicate NameInPlace(m: seq<byte>, e: ZipEntry) {
    e.nameAt + |e.fileName| <= |m| && m[e.nameAt..e.nameAt + |e.fileName|] == e.fileName
  }

  ghost predicate NamesInPlace(m: seq<byte>, es: seq<ZipEntry>) {
    forall i | 0 <= i < |es| :: NameInPlace(m, es[i])
  }

  lemma {:induction false} RecordsInPlace(m: seq<byte>, cdOffset: nat, n: nat)
    requires ReadRecords(m, cdOffset, n).Some?
    ensures NamesInPlace(m, ReadRecords(m, cdOffset, n).value.0)
  {
    hide RecordOk, NextRecord;
    if n > 0 { RecordsInPlace(m, cdOffset, n - 1); }
  }

  /** So it is for the same records in another order. */
  lemma InPlaceAnyway(m: seq<byte>, a: seq<ZipEntry>, b: seq<ZipEntry>)
    requires NamesInPlace(m, a) && multiset(a) == multiset(b)
    ensures NamesInPlace(m, b)
  {
    forall i | 0 <= i < |b| ensures NameInPlace(m, b[i]) {
      assert b[i] in multiset(b);
      assert b[i] in a;
    }
  }

  /** A bad record spoils every longer run. */
  lemma {:induction false} BadRecordStops(m: seq<byte>, cdOffset: nat, i: nat, n: nat)
    requires i <= n && ReadRecords(m, cdOffset, i).None?
    ensures ReadRecords(m, cdOffset, n).None?
  {
    if i < n { BadRecordStops(m, cdOffset, i, n - 1); }
  }

  /** The last end-of-central-directory signature at or before p. */
  function LastEnd(m: seq<byte>, p: int): (r: int)
    requires p + 4 <= |m|
    ensures -1 <= r && (r >= 0 ==> r <= p)
    decreases p + 1
  {
    if p < 0 then -1
    else if Get4(m, p) == ENDSIG then p
    else LastEnd(m, p - 1)
  }

  /** Offset and number of the records that the last end record announces. */
  function Directory(m: seq<byte>): (r: Option<(nat, nat)>)
    requires |m| >= ENDHDR
    ensures r.Some? ==> r.value.0 < |m| && 0 < r.value.1 < 0x1_0000
  {
    if Get4(m, 0) != LOCSIG then None else
    var end := LastEnd(m, |m| - ENDHDR);
    if end < 0 then None else
    var numEntries := Get2(m, end + ENDSUB);
    var cdOffset := Get4(m, end + ENDOFF);
    if numEntries == 0 || cdOffset >= |m| then None else
    Some((cdOffset, numEntries))
  }

  /** The records of an archive in file order, or None where the source rejects it. */
  function ArchiveRecords(m: seq<byte>): Option<seq<ZipEntry>>
    requires |m| >= ENDHDR
  {
    match Directory(m)
    case None => None
    case Some((cdOffset, numEntries)) =>
      match ReadRecords(m, cdOffset, numEntries)
      case None => None
      case Some((es, _)) => Some(es)
  }

  // ---------------------------------------------------------------- the format

  /** These four bytes are there. */
  predicate Magic(m: seq<byte>, at: nat, bytes: seq<byte>) {
    at + |bytes| <= |m| && m[at..at + |bytes|] == bytes
  }

  lemma MagicIff(m: seq<byte>, at: nat, a: byte, b: byte)
    requires at + 4 <= |m|
    ensures Magic(m, at, [80, 75, a, b]) <==> Get4(m, at) == 80 + 0x100 * 75 + 0x1_0000 * a as int + 0x100_0000 * b as int
  {
    var s := m[at..at + 4];
    assert s[0] == m[at] && s[1] == m[at + 1] && s[2] == m[at + 2] && s[3] == m[at + 3];
    assert s == [80, 75, a, b] <==> s[0] == 80 && s[1] == 75 && s[2] == a && s[3] == b;
    SameWord(s[0], s[1], s[2], s[3], 80, 75, a, b);
  }

  lemma SameWord(a: byte, b: byte, c: byte, d: byte, a': byte, b': byte, c': byte, d': byte)
    ensures (a as int + 0x100 * b as int + 0x1_0000 * c as int + 0x100_0000 * d as int ==
             a' as int + 0x100 * b' as int + 0x1_0000 * c' as int + 0x100_0000 * d' as int)
      <==> (a == a' && b == b' && c == c' && d == d')
  {
  }

  /** Which records are accepted: "PK\x01\x02", a printable name shorter than 4096 inside the
      archive, made on DOS or UNIX, a local header "PK\x03\x04", and data inside the archive. */
  lemma RecordOkIff(m: seq<byte>, ptr: nat)
    ensures RecordOk(m, ptr) <==>
      && ptr + 46 <= |m| && Magic(m, ptr, [80, 75, 1, 2])
      && var n, local := Get2(m, ptr + 28), Get4(m, ptr + 42);
      && ptr + 46 + n <= |m| && n < 4096 && (forall i | ptr + 46 <= i < ptr + 46 + n :: 32 <= m[i] <= 126)
      && (m[ptr + 5] == 0 || m[ptr + 5] == 3)
      && local + 30 <= |m| && Magic(m, local, [80, 75, 3, 4])
      && local + 30 + Get2(m, local + 26) + Get2(m, local + 28) + Get4(m, ptr + 20) <= |m|
  {
    if ptr + 46 <= |m| {
      var n, local := Get2(m, ptr + 28), Get4(m, ptr + 42);
      MagicIff(m, ptr, 1, 2);
      if local + 30 <= |m| { MagicIff(m, local, 3, 4); }
      HighByte(m, ptr + 4);
      hide Get2, Get4, Magic;
      if ptr + 46 + n <= |m| {
        var name := m[ptr + 46..ptr + 46 + n];
        assert forall i | ptr + 46 <= i < ptr + 46 + n :: m[i] == name[i - (ptr + 46)];
        assert forall i | 0 <= i < n :: name[i] == m[ptr + 46 + i];
      }
    }
  }

  lemma LowByte(m: seq<byte>, at: nat)
    requires at + 4 <= |m|
    ensures Get4(m, at) % 0x100 == m[at]
  {
  }

  lemma HighByte(m: seq<byte>, at: nat)
    requires at + 2 <= |m|
    ensures Get2(m, at) / 0x100 == m[at + 1]
  {
  }

  /** Where the fields of an entry are, and where the next record is. */
  lemma EntryReads(m: seq<byte>, ptr: nat)
    requires RecordOk(m, ptr)
    ensures var e, local := Entry(m, ptr), Get4(m, ptr + 42);
      && e.fileName == m[ptr + 46..ptr + 46 + Get2(m, ptr + 28)] && e.nameAt == ptr + 46
      && e.versionMadeBy == Get2(m, ptr + 4) && e.compression == Get2(m, ptr + 10) && e.modTime == Get4(m, ptr + 12)
      && e.crc32 == Get4(m, ptr + 16) && e.compLen == Get4(m, ptr + 20) && e.uncompLen == Get4(m, ptr + 24)
      && e.externalFileAttributes == Get4(m, ptr + 38)
      && local + 30 <= |m| && e.offset == local + 30 + Get2(m, local + 26) + Get2(m, local + 28)
    ensures NextRecord(m, ptr) == ptr + 46 + Get2(m, ptr + 28) + Get2(m, ptr + 30) + Get2(m, ptr + 32)
  {
  }

  /** The scan finds the last signature "PK\x05\x06" there is. */
  lemma {:induction false} LastEndIs(m: seq<byte>, p: int)
    requires p + 4 <= |m|
    ensures var r := LastEnd(m, p);
      && (r >= 0 ==> Magic(m, r, [80, 75, 5, 6]))
      && forall q | 0 <= q && r < q <= p :: !Magic(m, q, [80, 75, 5, 6])
    decreases p + 1
  {
    if p >= 0 {
      MagicIff(m, p, 5, 6);
      if Get4(m, p) != ENDSIG { LastEndIs(m, p - 1); }
    }
  }

  /** The directory of an archive that begins with "PK\x03\x04": number and offset from the
      last end record. */
  lemma DirectoryIs(m: seq<byte>)
    requires |m| >= 22
    ensures var p := LastEnd(m, |m| - 22);
      Directory(m) ==
        if Magic(m, 0, [80, 75, 3, 4]) && p >= 0 && Get2(m, p + 8) != 0 && Get4(m, p + 16) < |m|
        then Some((Get4(m, p + 16), Get2(m, p + 8))) else None
  {
    MagicIff(m, 0, 3, 4);
    hide Get2, Get4, Magic, LastEnd;
  }

  // ---------------------------------------------------------------- sorting

  ghost predicate Sorted(es: seq<ZipEntry>) {
    forall i, j | 0 <= i < j < |es| :: LexLe(es[i].fileName, es[j].fileName)
  }

  ghost predicate ValidNames(es: seq<ZipEntry>) {
    forall i | 0 <= i < |es| :: ValidFilename(es[i].fileName)
  }

  lemma InsertedIsSorted(es: seq<ZipEntry>, t: nat, e: ZipEntry)
    requires Sorted(es) && t <= |es|
    requires forall k | 0 <= k < t :: LexLe(es[k].fileName, e.fileName)
    requires forall k | t <= k < |es| :: LexLe(e.fileName, es[k].fileName)
    ensures Sorted(es[..t] + [e] + es[t..])
    ensures multiset(es[..t] + [e] + es[t..]) == multiset(es) + multiset{e}
  {
    assert es == es[..t] + es[t..];
  }

  lemma EmptyIsSorted()
    ensures Sorted([]) && ValidNames([])
  {
  }

  lemma InsertedIsValid(es: seq<ZipEntry>, t: nat, e: ZipEntry)
    requires ValidNames(es) && t <= |es| && ValidFilename(e.fileName)
    ensures ValidNames(es[..t] + [e] + es[t..])
  {
  }

  /** The binary search of the parser over the first i entries. */
  method FindTarget(a: array<ZipEntry>, i: nat, name: seq<byte>) returns (target: nat)
    requires i <= a.Length && Sorted(a[..i]) && ValidNames(a[..i]) && ValidFilename(name)
    ensures target <= i
    ensures forall k | 0 <= k < target :: LexLe(a[k].fileName, name)
    ensures forall k | target <= k < i :: LexLe(name, a[k].fileName)
  {
    var low, high := 0, i - 1;
    while low <= high
      invariant 0 <= low <= high + 1 <= i
      invariant forall k | 0 <= k < low :: LexLe(a[k].fileName, name)
      invariant forall k | high < k < i :: LexLe(name, a[k].fileName)
    {
      var mid := low + (high - low) / 2;
      assert a[..i][mid] == a[mid];
      CompareIsLex(a[mid].fileName, name);
      var diff := CompareNames(a[mid].fileName, name);
      ghost var s := a[..i];
      forall k | 0 <= k < mid && diff <= 0 ensures LexLe(a[k].fileName, name) {
        assert s[k] == a[k];
        LexLeTransitive(s[k].fileName, s[mid].fileName, name);
      }
      forall k | mid < k < i && diff >= 0 ensures LexLe(name, a[k].fileName) {
        assert s[k] == a[k];
        LexLeTransitive(name, s[mid].fileName, s[k].fileName);
      }
      if diff < 0 {
        low := mid + 1;
      } else if diff > 0 {
        high := mid - 1;
      } else {
        high := mid;
        break;
      }
    }
    target := high + 1;
  }

  /** Makes room at the target by moving the tail up one slot, then stores the entry. */
  method InsertSorted(a: array<ZipEntry>, i: nat, e: ZipEntry)
    requires i < a.Length && Sorted(a[..i]) && ValidNames(a[..i]) && ValidFilename(e.fileName)
    modifies a
    ensures Sorted(a[..i+1]) && ValidNames(a[..i+1])
    ensures multiset(a[..i+1]) == multiset(old(a[..i])) + multiset{e}
  {
    var target := FindTarget(a, i, e.fileName);
    ghost var s := a[..i];
    InsertedIsSorted(s, target, e);
    InsertedIsValid(s, target, e);
    hide Sorted, ValidNames, ValidFilename;
    if target != i {
      forall k | target < k <= i {
        a[k] := a[k - 1];
      }
    }
    a[target] := e;
    assert a[..i+1] == s[..target] + [e] + s[target..];
  }

  // ---------------------------------------------------------------- the index

  /** A pointer into pEntries. */
  datatype EntryPtr = EntryPtr(index: nat, target: ZipEntry)

  /** The lowest-index entry with the name, found the slow way. */
  function LinearFind(es: seq<ZipEntry>, name: seq<byte>): Option<EntryPtr> {
    if es == [] then None else
    var n := |es| - 1;
    match LinearFind(es[..n], name)
    case Some(p) => Some(p)
    case None => if es[n].fileName == name then Some(EntryPtr(n, es[n])) else None
  }

  lemma {:induction false} LinearFindIsFirst(es: seq<ZipEntry>, name: seq<byte>)
    ensures LinearFind(es, name).None? <==> forall i | 0 <= i < |es| :: es[i].fileName != name
    ensures LinearFind(es, name).Some? ==> var p := LinearFind(es, name).value;
      p.index < |es| && es[p.index] == p.target && p.target.fileName == name
      && forall i | 0 <= i < p.index :: es[i].fileName != name
  {
    if es != [] {
      var n := |es| - 1;
      LinearFindIsFirst(es[..n], name);
      assert forall i | 0 <= i < n :: es[..n][i] == es[i];
    }
  }

  /** The hash code of a file name, in 32-bit arithmetic. */
  function ComputeHash(name: seq<byte>): (h: nat)
    ensures h < WORD
  {
    if name == [] then 2
    else (ComputeHash(name[..|name|-1]) * 31 + name[|name|-1]) % WORD
  }

  /** 31 times the hash of the front, plus the last byte; 2 to begin with. */
  lemma HashOfTwo(a: byte, b: byte)
    ensures ComputeHash([]) == 2 && ComputeHash([a]) == 62 + a as int && ComputeHash([a, b]) == 31 * (62 + a as int) + b as int
  {
    assert [a][..0] == [] && [a, b][..1] == [a];
  }

  predicate SameName(a: seq<byte>, b: seq<byte>) {
    |a| == |b| && a == b
  }

  ghost predicate Indexes(m: map<seq<byte>, EntryPtr>, es: seq<ZipEntry>) {
    forall name: seq<byte> ::
      if LinearFind(es, name).Some? then name in m && m[name] == LinearFind(es, name).value else name !in m
  }

  lemma IndexStep(m: map<seq<byte>, EntryPtr>, es: seq<ZipEntry>, i: nat)
    requires i < |es| && Indexes(m, es[..i])
    ensures Indexes(if es[i].fileName in m then m else m[es[i].fileName := EntryPtr(i, es[i])], es[..i+1])
  {
    assert es[..i+1][..i] == es[..i];
    assert es[..i+1][i] == es[i];
  }

  /** The parsing loop: n records from cdOffset on, inserted one by one. */
  method ReadDirectory(m: seq<byte>, cdOffset: nat, n: nat) returns (ok: bool, a: array<ZipEntry>)
    ensures ok <==> ReadRecords(m, cdOffset, n).Some?
    ensures fresh(a) && a.Length == n
    ensures ok ==> Sorted(a[..]) && ValidNames(a[..])
    ensures ok ==> multiset(a[..]) == multiset(ReadRecords(m, cdOffset, n).value.0)
  {
    a := new ZipEntry[n](_ => ZipEntry([], 0, 0, 0, 0, 0, 0, 0, 0, 0));
    var ptr := cdOffset;
    ghost var read: seq<ZipEntry> := [];
    hide RecordOk, Entry, Sorted, ValidNames, ValidFilename, NextRecord;
    EmptyIsSorted();
    assert ReadRecords(m, cdOffset, 0) == Some(([], cdOffset));
    hide ReadRecords;
    for i := 0 to n
      invariant Sorted(a[..i]) && ValidNames(a[..i])
      invariant multiset(a[..i]) == multiset(read)
      invariant ReadRecords(m, cdOffset, i) == Some((read, ptr))
    {
      ReadOne(m, cdOffset, i, read, ptr);
      if !RecordOk(m, ptr) {
        BadRecordStops(m, cdOffset, i + 1, n);
        return false, a;
      }
      InsertSorted(a, i, Entry(m, ptr));
      read := read + [Entry(m, ptr)];
      ptr := NextRecord(m, ptr);
    }
    assert a[..n] == a[..];
    return true, a;
  }

  /** The table finds, under its name, the first entry with that name. */
  ghost predicate IsIndexOf(table: HashTable<seq<byte>, EntryPtr>, es: seq<ZipEntry>)
    reads table, table.slots
  {
    && table.Valid()
    && (forall p :: table.keyOf(p) == p.target.fileName)
    && (forall name :: table.hashOf(name) == ComputeHash(name))
    && Indexes(table.contents, es)
  }

  /** Adds every entry in array order; a later duplicate does not replace an earlier one.
      The table is created large enough never to grow. */
  method BuildIndex(pEntries: array<ZipEntry>) returns (table: HashTable<seq<byte>, EntryPtr>)
    requires 0 < pEntries.Length < 0x1_0000
    ensures fresh(table) && fresh(table.slots) && IsIndexOf(table, pEntries[..])
    ensures table.slots.Length == RoundUpPower2(SizeFor(pEntries.Length))
  {
    var n := pEntries.Length;
    ghost var es := pEntries[..];
    table := new HashTable(SizeFor(n), (p: EntryPtr) => p.target.fileName, ComputeHash);
    for i := 0 to n
      invariant table.Valid() && fresh(table) && fresh(table.slots)
      invariant table.numDeadEntries == 0 && table.numEntries <= i
      invariant table.slots.Length == RoundUpPower2(SizeFor(n))
      invariant Indexes(table.contents, es[..i])
    {
      IndexStep(table.contents, es, i);
      SizeForNeverGrows(n, table.numEntries + 1);
      AddEntry(table, EntryPtr(i, pEntries[i]));
    }
    assert es[..n] == es;
  }

  method AddEntry(table: HashTable<seq<byte>, EntryPtr>, pEntry: EntryPtr)
    requires table.Valid() && table.numDeadEntries == 0
    requires forall p :: table.keyOf(p) == p.target.fileName
    requires forall name :: table.hashOf(name) == ComputeHash(name)
    requires (table.numEntries + 1) * LOAD_DENOM <= table.slots.Length * LOAD_NUMER
    modifies table, table.slots
    ensures table.Valid() && table.numDeadEntries == 0 && table.slots == old(table.slots)
    ensures table.numEntries <= old(table.numEntries) + 1
    ensures var m, name := old(table.contents), pEntry.target.fileName;
      table.contents == if name in m then m else m[name := pEntry]
  {
    var name := pEntry.target.fileName;
    var found := table.LookupOrAdd(ComputeHash(name), pEntry, (p: EntryPtr) => SameName(p.target.fileName, name), name);
  }

  class ZipArchive {
    var numEntries: nat
    var pEntries: array<ZipEntry>
    var pHash: HashTable<seq<byte>, EntryPtr>

    ghost predicate Valid()
      reads this, pEntries, pHash, pHash.slots
    {
      && numEntries == pEntries.Length
      && Sorted(pEntries[..]) && ValidNames(pEntries[..])
      && IsIndexOf(pHash, pEntries[..])
    }

    constructor () {
      numEntries := 0;
      pEntries := new ZipEntry[0];
      pHash := new HashTable(1, (p: EntryPtr) => p.target.fileName, ComputeHash);
    }

    /** Accepts an archive exactly when its records can be read; then the entries are
        those records, sorted, and the index agrees with them. */
    method Parse(m: seq<byte>) returns (ok: bool)
      requires |m| >= ENDHDR
      modifies this
      ensures ok <==> ArchiveRecords(m).Some?
      ensures ok ==> Valid() && fresh(pEntries) && fresh(pHash) && fresh(pHash.slots)
      ensures ok ==> multiset(pEntries[..]) == multiset(ArchiveRecords(m).value)
      ensures ok ==> NamesInPlace(m, pEntries[..])
      ensures ok ==> 0 < numEntries < 0x1_0000 && pHash.slots.Length == RoundUpPower2(SizeFor(numEntries))
    {
      hide Directory, ReadRecords, Sorted, ValidNames, IsIndexOf, RoundUpPower2, NamesInPlace;
      var found, cdOffset, n := FindDirectory(m);
      if !found {
        return false;
      }
      var read, entries := ReadDirectory(m, cdOffset, n);
      if !read {
        return false;
      }
      RecordsInPlace(m, cdOffset, n);
      InPlaceAnyway(m, ReadRecords(m, cdOffset, n).value.0, entries[..]);
      var table := BuildIndex(entries);
      numEntries, pEntries, pHash := n, entries, table;
      return true;
    }

    /** mzFindZipEntry: the index answers like a linear search from the front. */
    method FindEntry(name: seq<byte>) returns (r: Option<EntryPtr>)
      requires Valid()
      ensures r == LinearFind(pEntries[..], name)
    {
      r := pHash.Find(ComputeHash(name), (p: EntryPtr) => SameName(p.target.fileName, name), name);
    }
  }

  /** Scans backwards for the end-of-central-directory signature. */
  method FindEnd(m: seq<byte>) returns (ptr: int)
    requires |m| >= ENDHDR
    ensures ptr == LastEnd(m, |m| - ENDHDR)
  {
    ptr := |m| - ENDHDR;
    while ptr >= 0
      invariant -1 <= ptr <= |m| - ENDHDR
      invariant LastEnd(m, |m| - ENDHDR) == LastEnd(m, ptr)
    {
      LowByte(m, ptr);
      if m[ptr] == ENDSIG % 0x100 && Get4(m, ptr) == ENDSIG {
        break;
      }
      ptr := ptr - 1;
    }
  }

  method FindDirectory(m: seq<byte>) returns (found: bool, cdOffset: nat, numEntries: nat)
    requires |m| >= ENDHDR
    ensures found <==> Directory(m).Some?
    ensures found ==> Directory(m).value == (cdOffset, numEntries)
  {
    if Get4(m, 0) != LOCSIG {
      return false, 0, 0;
    }
    var ptr := FindEnd(m);
    if ptr < 0 {
      return false, 0, 0;
    }
    numEntries := Get2(m, ptr + ENDSUB);
    cdOffset := Get4(m, ptr + ENDOFF);
    found := !(numEntries == 0 || cdOffset >= |m|);
  }
}
