/** mmcutils/mmcutils.c: reading the partition table of an eMMC device, the four entries
    of the master boot record and then the chain of extended boot records.

    A device is a sequence of sectors. The source computes byte offsets in 32 bits, so
    sector numbers wrap around at 2^23. */
module Mbr {
  import opened Wrappers  // Option
  import opened Bytes

  const SECTOR_SIZE: nat := 512
  const TABLE_ENTRY_0: nat := 0x1BE
  const TABLE_ENTRY_1: nat := 0x1CE
  const TABLE_ENTRY_SIZE: nat := 0x10
  const TABLE_SIGNATURE: nat := 0x1FE
  const OFFSET_STATUS: nat := 0
  const OFFSET_TYPE: nat := 4
  const OFFSET_FIRST_SEC: nat := 8
  const OFFSET_SIZE: nat := 12
  const MAX_PARTITIONS: nat := 64
  const EXTENDED_TYPE: nat := 5
  const BOOT_TYPE: nat := 0x48
  const RECOVERY_TYPE: nat := 0x71
  const MISC_TYPE: nat := 0x76
  const EXT3_TYPE: nat := 0x83
  const VFAT_TYPE: nat := 0x0C
  const WORD: nat := 0x1_0000_0000
  const SECTORS: nat := 0x80_0000

  type Sector = s: seq<byte> | |s| == 512 witness seq(512, _ => 0)

  // A table entry with its absolute first sector.
  datatype Raw = Raw(status: nat, dtype: nat, firstSec: nat, size: nat) {
    function Before(rest: Listing): Listing { Listing(rest.ok, [this] + rest.parts) }
  }

  /** Entries read, and whether the whole read succeeded. */
  datatype Listing = Listing(ok: bool, parts: seq<Raw>)

  function SectorAt(disk: seq<Sector>, sec: nat): Option<Sector> {
    if sec % SECTORS < |disk| then Some(disk[sec % SECTORS]) else None
  }

  predicate Signed(s: Sector) { s[TABLE_SIGNATURE] == 0x55 && s[TABLE_SIGNATURE + 1] == 0xAA }

  function EntryAt(s: Sector, at: nat, base: nat): Raw
    requires at + TABLE_ENTRY_SIZE <= SECTOR_SIZE
  {
    Raw(s[at + OFFSET_STATUS], s[at + OFFSET_TYPE], (Get4(s, at + OFFSET_FIRST_SEC) + base) % WORD, Get4(s, at + OFFSET_SIZE))
  }

  // ---------------------------------------------------------------- what is read

  /** The records from one on, `rel` sectors after the first, with room for this many. */
  function Chain(disk: seq<Sector>, first: nat, rel: nat, room: nat): (r: Listing)
    requires room > 0
    ensures |r.parts| <= room
    decreases room
  {
    match SectorAt(disk, (first + rel) % WORD)
    case None => Listing(false, [])
    case Some(s) =>
      if !Signed(s) then Listing(true, [])
      else
        var e := EntryAt(s, TABLE_ENTRY_0, (first + rel) % WORD);
        var next := Get4(s, TABLE_ENTRY_1 + OFFSET_FIRST_SEC);
        if room == 1 || next == 0 then Listing(true, [e])
        else
          e.Before(Chain(disk, first, next, room - 1))
  }

  /** One step along the chain, or its end. */
  lemma ChainStep(disk: seq<Sector>, first: nat, rel: nat, room: nat)
    requires room > 0
    ensures var read := SectorAt(disk, (first + rel) % WORD);
      && (read.None? ==> Chain(disk, first, rel, room) == Listing(false, []))
      && (read.Some? && !Signed(read.value) ==> Chain(disk, first, rel, room) == Listing(true, []))
      && (read.Some? && Signed(read.value) ==>
            var e, next := EntryAt(read.value, TABLE_ENTRY_0, (first + rel) % WORD), Get4(read.value, TABLE_ENTRY_1 + OFFSET_FIRST_SEC);
            Chain(disk, first, rel, room) ==
              if room == 1 || next == 0 then Listing(true, [e]) else e.Before(Chain(disk, first, next, room - 1)))
  {
    hide EntryAt, Signed, SectorAt, Get4;
  }

  function Primaries(s: Sector): (ps: seq<Raw>)
    ensures |ps| == 4
  {
    [EntryAt(s, TABLE_ENTRY_0, 0), EntryAt(s, TABLE_ENTRY_0 + TABLE_ENTRY_SIZE, 0),
     EntryAt(s, TABLE_ENTRY_0 + 2 * TABLE_ENTRY_SIZE, 0), EntryAt(s, TABLE_ENTRY_0 + 3 * TABLE_ENTRY_SIZE, 0)]
  }

  /** The table of any device, a cyclic chain included, has at most 64 entries. */
  function Table(disk: seq<Sector>): (r: Listing)
    ensures |r.parts| <= MAX_PARTITIONS
  {
    match SectorAt(disk, 0)
    case None => Listing(false, [])
    case Some(s) =>
      if !Signed(s) then Listing(false, [])
      else
        var ps := Primaries(s);
        if ps[3].dtype != EXTENDED_TYPE then Listing(true, ps)
        else
          var chain := Chain(disk, ps[3].firstSec, 0, MAX_PARTITIONS - 4);
          Listing(chain.ok, ps + chain.parts)
  }

  // ---------------------------------------------------------------- names

  const EXT3_NAMES: seq<string> := ["system", "userdata", "cache"]
  const VFAT_NAMES: seq<string> := ["modem"]

  function CountType(parts: seq<Raw>, dtype: nat): (n: nat)
    ensures n <= |parts|
  {
    if parts == [] then 0
    else CountType(parts[..|parts|-1], dtype) + (if parts[|parts|-1].dtype == dtype then 1 else 0)
  }

  function Nth(names: seq<string>, n: nat): Option<string> { if n < |names| then Some(names[n]) else None }

  /** The name of the k-th entry: by its type, and for file systems by how many of its type
      come before. */
  function NameOf(parts: seq<Raw>, k: nat): Option<string>
    requires k < |parts|
  {
    var dtype := parts[k].dtype;
    if dtype == BOOT_TYPE then Some("boot")
    else if dtype == RECOVERY_TYPE then Some("recovery")
    else if dtype == MISC_TYPE then Some("misc")
    else if dtype == EXT3_TYPE then Nth(EXT3_NAMES, CountType(parts[..k], EXT3_TYPE))
    else if dtype == VFAT_TYPE then Nth(VFAT_NAMES, CountType(parts[..k], VFAT_TYPE))
    else None
  }

  function FilesystemOf(dtype: nat): Option<string> {
    if dtype == EXT3_TYPE then Some("ext3") else if dtype == VFAT_TYPE then Some("vfat") else None
  }

  // ---------------------------------------------------------------- scanning

  datatype Partition = Partition(deviceIndex: Option<nat>, filesystem: Option<string>, name: Option<string>, raw: Raw)

  function Scanned(parts: seq<Raw>, k: nat): Partition
    requires k < |parts|
  {
    Partition(Some(k + 1), FilesystemOf(parts[k].dtype), NameOf(parts, k), parts[k])
  }

  class MmcState {
    var partitions: array<Partition>
    var partitionCount: int
    var ext3Count: nat
    var vfatCount: nat

    ghost predicate Valid()
      reads this
    {
      partitions.Length == MAX_PARTITIONS
    }

    constructor ()
      ensures Valid() && fresh(partitions) && partitionCount == -1
    {
      partitions := new Partition[MAX_PARTITIONS](_ => Partition(None, None, None, Raw(0, 0, 0, 0)));
      partitionCount, ext3Count, vfatCount := -1, 0, 0;
    }

    /** The first entries of the table are in place, the others have no name. */
    ghost predicate Filled(parts: seq<Raw>)
      reads this, partitions
    {
      && Valid() && |parts| <= MAX_PARTITIONS
      && (forall k | 0 <= k < |parts| :: partitions[k] == Scanned(parts, k))
      && (forall k | |parts| <= k < MAX_PARTITIONS :: partitions[k].deviceIndex.None? && partitions[k].name.None? && partitions[k].filesystem.None?)
    }

    ghost predicate Counted(parts: seq<Raw>)
      reads this
    {
      && ext3Count == (if CountType(parts, EXT3_TYPE) < |EXT3_NAMES| then CountType(parts, EXT3_TYPE) else |EXT3_NAMES|)
      && vfatCount == (if CountType(parts, VFAT_TYPE) < |VFAT_NAMES| then CountType(parts, VFAT_TYPE) else |VFAT_NAMES|)
    }

    /** Fills the next slot: mmc_partition_name and the fields around it. */
    method AddPartition(ghost parts: seq<Raw>, count: nat, raw: Raw)
      requires Filled(parts) && Counted(parts) && count == |parts| < MAX_PARTITIONS
      modifies this`ext3Count, this`vfatCount, partitions
      ensures Filled(parts + [raw]) && Counted(parts + [raw])
    {
      var name, filesystem := None, None;
      if raw.dtype == BOOT_TYPE {
        name := Some("boot");
      } else if raw.dtype == RECOVERY_TYPE {
        name := Some("recovery");
      } else if raw.dtype == MISC_TYPE {
        name := Some("misc");
      } else if raw.dtype == EXT3_TYPE {
        if ext3Count < |EXT3_NAMES| {
          name, ext3Count := Some(EXT3_NAMES[ext3Count]), ext3Count + 1;
        }
        filesystem := Some("ext3");
      } else if raw.dtype == VFAT_TYPE {
        if vfatCount < |VFAT_NAMES| {
          name, vfatCount := Some(VFAT_NAMES[vfatCount]), vfatCount + 1;
        }
        filesystem := Some("vfat");
      }
      partitions[count] := Partition(Some(count + 1), filesystem, name, raw);
      ghost var more := parts + [raw];
      assert more[..|more|-1] == parts;
      forall k | 0 <= k < |parts| ensures Scanned(more, k) == Scanned(parts, k) {
        assert more[..k] == parts[..k];
      }
    }

    /** The loop over the extended boot records. */
    method ReadChain(disk: seq<Sector>, first: nat, ghost ps: seq<Raw>) returns (ok: bool, count: nat, ghost chain: seq<Raw>)
      requires Filled(ps) && Counted(ps) && |ps| == 4 && first < WORD
      modifies this`ext3Count, this`vfatCount, partitions
      ensures Listing(ok, chain) == Chain(disk, first, 0, MAX_PARTITIONS - 4)
      ensures Filled(ps + chain) && count == |ps + chain|
    {
      hide Filled, Counted, EntryAt, Signed, SectorAt, Get4, Chain;
      var rel: nat := 0;
      count, chain := 4, [];
      assert ps + [] == ps;
      ghost var whole := Chain(disk, first, 0, MAX_PARTITIONS - 4);
      while true
        invariant 4 <= count < MAX_PARTITIONS && |chain| == count - 4 && rel < WORD
        invariant Filled(ps + chain) && Counted(ps + chain)
        invariant var rest := Chain(disk, first, rel, MAX_PARTITIONS - count);
          whole == Listing(rest.ok, chain + rest.parts)
        decreases MAX_PARTITIONS - count
      {
        ChainStep(disk, first, rel, MAX_PARTITIONS - count);
        var current := (first + rel) % WORD;
        var read := SectorAt(disk, current);
        if read.None? {
          return false, count, chain;
        }
        var buffer := read.value;
        if !Signed(buffer) {
          return true, count, chain;
        }
        var raw := EntryAt(buffer, TABLE_ENTRY_0, current);
        AddPartition(ps + chain, count, raw);
        assert ps + chain + [raw] == ps + (chain + [raw]);
        count, chain := count + 1, chain + [raw];
        rel := Get4(buffer, TABLE_ENTRY_1 + OFFSET_FIRST_SEC);
        if count == MAX_PARTITIONS || rel == 0 {
          return true, count, chain;
        }
      }
    }

    /** mmc_read_mbr */
    method ReadMbr(disk: seq<Sector>) returns (r: int, ghost parts: seq<Raw>)
      requires Filled([]) && Counted([])
      modifies this`ext3Count, this`vfatCount, partitions
      ensures Listing(r != -1, parts) == Table(disk) && (r == -1 || r == |parts|)
      ensures Filled(parts)
    {
      hide Filled, Counted;
      parts := [];
      var read := SectorAt(disk, 0);
      if read.None? || !Signed(read.value) {
        return -1, parts;
      }
      var buffer := read.value;
      var i, raw := 0, EntryAt(buffer, TABLE_ENTRY_0, 0);
      while i < 4
        invariant 0 <= i <= 4 && parts == Primaries(buffer)[..i] && (i == 4 ==> raw == Primaries(buffer)[3])
        invariant Filled(parts) && Counted(parts)
      {
        raw := EntryAt(buffer, TABLE_ENTRY_0 + i * TABLE_ENTRY_SIZE, 0);
        assert raw == Primaries(buffer)[i];
        AddPartition(parts, i, raw);
        parts, i := parts + [raw], i + 1;
      }
      assert parts == Primaries(buffer);
      if raw.dtype != EXTENDED_TYPE {
        return 4, parts;
      }
      var ok, count;
      ghost var chain;
      ok, count, chain := ReadChain(disk, raw.firstSec, parts);
      parts := parts + chain;
      r := if ok then count else -1;
    }

    /** mmc_scan_partitions: what is in the table afterwards depends on the device alone. */
    method ScanPartitions(disk: seq<Sector>) returns (r: int)
      requires Valid()
      modifies this, partitions
      ensures Filled(Table(disk).parts) && partitions == old(partitions)
      ensures r == partitionCount == if Table(disk).ok then |Table(disk).parts| else -1
    {
      partitionCount, ext3Count, vfatCount := 0, 0, 0;
      for i := 0 to MAX_PARTITIONS
        invariant partitions == old(partitions) && Valid() && ext3Count == vfatCount == 0
        invariant forall k | 0 <= k < i :: partitions[k].deviceIndex.None? && partitions[k].name.None? && partitions[k].filesystem.None?
      {
        partitions[i] := partitions[i].(deviceIndex := None, name := None, filesystem := None);
      }
      ghost var parts;
      r, parts := ReadMbr(disk);
      partitionCount := r;
    }

    /** mmc_find_partition_by_name: the first entry of the table with that name. */
    method FindByName(name: string, ghost parts: seq<Raw>) returns (r: Option<Partition>)
      requires Filled(parts)
      ensures r.None? <==> forall k | 0 <= k < |parts| :: NameOf(parts, k) != Some(name)
      ensures r.Some? ==> exists k | 0 <= k < |parts| ::
        r.value == Scanned(parts, k) && NameOf(parts, k) == Some(name) && forall j | 0 <= j < k :: NameOf(parts, j) != Some(name)
    {
      var i := 0;
      while i < MAX_PARTITIONS
        invariant 0 <= i <= MAX_PARTITIONS
        invariant forall k | 0 <= k < i && k < |parts| :: NameOf(parts, k) != Some(name)
      {
        var p := partitions[i];
        if p.deviceIndex.Some? && p.name == Some(name) {
          assert i < |parts| && p == Scanned(parts, i);
          return Some(p);
        }
        i := i + 1;
      }
      r := None;
    }

    /** mmc_find_partition_by_device_index compares the wanted index with itself: it finds
        the first named entry whatever is wanted. */
    method FindByDeviceIndex(wanted: nat, ghost parts: seq<Raw>) returns (r: Option<Partition>)
      requires Filled(parts)
      ensures (r.Some? && r.value.deviceIndex == Some(wanted)) <==> FirstNamed(parts) == wanted - 1 < |parts|
      ensures r.None? <==> FirstNamed(parts) == |parts|
    {
      var i := 0;
      while i < MAX_PARTITIONS
        invariant 0 <= i <= MAX_PARTITIONS
        invariant forall k | 0 <= k < i && k < |parts| :: NameOf(parts, k).None?
      {
        var p := partitions[i];
        if p.deviceIndex.Some? && p.name.Some? && wanted == wanted {
          FirstNamedIs(parts, i);
          return Some(p);
        }
        i := i + 1;
      }
      r := None;
      FirstNamedIs(parts, |parts|);
    }
  }

  /** The first entry with a name, or the number of entries. */
  function FirstNamed(parts: seq<Raw>): nat { FirstNamedFrom(parts, 0) }

  function FirstNamedFrom(parts: seq<Raw>, k: nat): nat
    requires k <= |parts|
    decreases |parts| - k
  {
    if k == |parts| || NameOf(parts, k).Some? then k else FirstNamedFrom(parts, k + 1)
  }

  /** A device that is there and has a name is missed behind another one. */
  lemma NamedDeviceMissed(boot: Raw, recovery: Raw)
    requires boot.dtype == BOOT_TYPE && recovery.dtype == RECOVERY_TYPE
    ensures var parts := [boot, recovery];
      && Scanned(parts, 1).deviceIndex == Some(2) && Scanned(parts, 1).name == Some("recovery")
      && FirstNamed(parts) != 2 - 1
  {
  }

  lemma {:induction false} FirstNamedFromIs(parts: seq<Raw>, k: nat, n: nat)
    requires k <= n <= |parts| && forall j | k <= j < n :: NameOf(parts, j).None?
    requires n == |parts| || NameOf(parts, n).Some?
    ensures FirstNamedFrom(parts, k) == n
    decreases n - k
  {
    if k < n { FirstNamedFromIs(parts, k + 1, n); }
  }

  lemma FirstNamedIs(parts: seq<Raw>, n: nat)
    requires n <= |parts| && forall j | 0 <= j < n :: NameOf(parts, j).None?
    requires n == |parts| || NameOf(parts, n).Some?
    ensures FirstNamed(parts) == n
  {
    FirstNamedFromIs(parts, 0, n);
  }

  /** How many entries of a type come before the k-th. */
  ghost function Earlier(parts: seq<Raw>, k: nat, dtype: nat): nat
    requires k <= |parts|
  {
    |set j | 0 <= j < k && parts[j].dtype == dtype|
  }

  lemma EarlierStep(parts: seq<Raw>, k: nat, dtype: nat)
    requires k < |parts|
    ensures Earlier(parts, 0, dtype) == 0
    ensures Earlier(parts, k + 1, dtype) == Earlier(parts, k, dtype) + if parts[k].dtype == dtype then 1 else 0
  {
    var before := set j | 0 <= j < k && parts[j].dtype == dtype;
    var now := set j | 0 <= j < k + 1 && parts[j].dtype == dtype;
    assert now == if parts[k].dtype == dtype then before + {k} else before;
  }

  lemma {:induction false} CountsEarlier(parts: seq<Raw>, k: nat, dtype: nat)
    requires k <= |parts|
    ensures CountType(parts[..k], dtype) == Earlier(parts, k, dtype)
  {
    if k > 0 {
      CountsEarlier(parts, k - 1, dtype);
      EarlierStep(parts, k - 1, dtype);
      assert parts[..k][..k - 1] == parts[..k - 1];
      hide Earlier;
    }
  }

  /** The name and the file system of every entry, by its type and its place. */
  lemma NamesByType(parts: seq<Raw>, k: nat)
    requires k < |parts|
    ensures var p := Scanned(parts, k);
      && p.deviceIndex == Some(k + 1) && p.raw == parts[k]
      && p.name == (match parts[k].dtype
        case 0x48 => Some("boot")
        case 0x71 => Some("recovery")
        case 0x76 => Some("misc")
        case 0x83 => (match Earlier(parts, k, 0x83)
          case 0 => Some("system")
          case 1 => Some("userdata")
          case 2 => Some("cache")
          case _ => None)
        case 0x0C => if Earlier(parts, k, 0x0C) == 0 then Some("modem") else None
        case _ => None)
      && p.filesystem == if parts[k].dtype == 0x83 then Some("ext3") else if parts[k].dtype == 0x0C then Some("vfat") else None
  {
    CountsEarlier(parts, k, 0x83);
    CountsEarlier(parts, k, 0x0C);
  }

  /** Where reading the table ends, by the bytes on the device: it fails without a signed
      first sector, or if an extended partition's record is not on the device; a record
      that is not signed ends the chain. */
  lemma TableEnds(disk: seq<Sector>)
    requires |disk| <= SECTORS
    ensures disk == [] || disk[0][510] != 0x55 || disk[0][511] != 0xAA ==> Table(disk) == Listing(false, [])
    ensures disk != [] && disk[0][510] == 0x55 && disk[0][511] == 0xAA ==>
      var s := disk[0];
      var first := Get4(s, 0x1F6);
      && (s[0x1F2] != 5 ==> Table(disk) == Listing(true, Primaries(s)))
      && (s[0x1F2] == 5 && |disk| <= first < SECTORS ==> Table(disk) == Listing(false, Primaries(s)))
      && (s[0x1F2] == 5 && first < |disk| && (disk[first][510] != 0x55 || disk[first][511] != 0xAA) ==>
            Table(disk) == Listing(true, Primaries(s)))
  {
    if disk != [] && Signed(disk[0]) {
      var s := disk[0];
      var first := Get4(s, 0x1F6);
      FourthEntry(s);
      hide Primaries, EntryAt, Get4, Chain;
      ChainStep(disk, first, 0, MAX_PARTITIONS - 4);
      assert Primaries(s) + [] == Primaries(s);
    }
  }

  lemma FourthEntry(s: Sector)
    ensures Primaries(s)[3].dtype == s[0x1F2] && Primaries(s)[3].firstSec == Get4(s, 0x1F6)
  {
  }

  /** The fields of a primary entry, by their bytes. */
  lemma EntryReads(s: Sector, i: nat)
    requires i < 4
    ensures var at, p := 0x1BE + 16 * i, Primaries(s)[i];
      && p.status == s[at] && p.dtype == s[at + 4]
      && p.firstSec == s[at + 8] as int + 0x100 * s[at + 9] as int + 0x1_0000 * s[at + 10] as int + 0x100_0000 * s[at + 11] as int
      && p.size == s[at + 12] as int + 0x100 * s[at + 13] as int + 0x1_0000 * s[at + 14] as int + 0x100_0000 * s[at + 15] as int
  {
    var at := 0x1BE + 16 * i;
    assert Primaries(s)[i] == EntryAt(s, at, 0);
    assert Get4(s, at + 8) % WORD == Get4(s, at + 8);
    hide Primaries;
  }

  // ---------------------------------------------------------------- laying a table out

  // A logical partition and the sector of its record.
  datatype Link = Link(at: nat, part: Raw)

  predicate Encodable(p: Raw) { p.status < 256 && p.dtype < 256 && p.firstSec < WORD && p.size < WORD }

  function PutEntry(p: Raw, base: nat): (b: seq<byte>)
    requires Encodable(p)
    ensures |b| == TABLE_ENTRY_SIZE
  {
    [p.status, 0, 0, 0, p.dtype, 0, 0, 0] + Put4(p.firstSec - base) + Put4(p.size)
  }

  function Record(a: seq<byte>, b: seq<byte>, c: seq<byte>, d: seq<byte>): Sector
    requires |a| == |b| == |c| == |d| == TABLE_ENTRY_SIZE
  {
    seq(TABLE_ENTRY_0, _ => 0) + a + b + c + d + [0x55, 0xAA]
  }

  const NO_ENTRY := Raw(0, 0, 0, 0)

  function Pointer(next: Option<nat>): (p: Raw)
    ensures Encodable(p)
  {
    if next.Some? then Raw(0, EXTENDED_TYPE, next.value % WORD, 0) else NO_ENTRY
  }

  /** An extended record: its partition relative to itself, the next record relative to the
      first. */
  function ChainRecord(link: Link, first: nat, next: Option<nat>): Sector
    requires Encodable(link.part)
  {
    Record(PutEntry(link.part, link.at), PutEntry(Pointer(next), if next.Some? then first else 0),
      PutEntry(NO_ENTRY, 0), PutEntry(NO_ENTRY, 0))
  }

  function NextOf(links: seq<Link>, i: nat): Option<nat> {
    if i + 1 < |links| then Some(links[i + 1].at) else None
  }

  predicate Plannable(links: seq<Link>, first: nat, count: nat) {
    && (forall i | 0 <= i < |links| :: Encodable(links[i].part) && first <= links[i].at < count <= SECTORS)
    && (forall i | 1 <= i < |links| :: first < links[i].at)
    && (forall i, j | 0 <= i < j < |links| :: links[i].at != links[j].at)
  }

  function WriteChain(disk: seq<Sector>, first: nat, links: seq<Link>): (r: seq<Sector>)
    requires Plannable(links, first, |disk|)
    ensures |r| == |disk|
    ensures forall s | 0 <= s < |disk| && (forall i | 0 <= i < |links| :: links[i].at != s) :: r[s] == disk[s]
  {
    if links == [] then disk
    else
      WriteChain(disk, first, links[1..])[links[0].at := ChainRecord(links[0], first, NextOf(links, 0))]
  }

  /** The first `room` partitions of a chain. */
  function Parts(links: seq<Link>, room: nat): seq<Raw> {
    if links == [] || room == 0 then [] else [links[0].part] + Parts(links[1..], room - 1)
  }

  // ---------------------------------------------------------------- reading it back

  lemma EntryOfBytes(s: Sector, at: nat, p: Raw, base: nat)
    requires at + TABLE_ENTRY_SIZE <= SECTOR_SIZE && Encodable(p)
    requires s[at..at + TABLE_ENTRY_SIZE] == PutEntry(p, base)
    ensures EntryAt(s, at, base) == p
    ensures Get4(s, at + OFFSET_FIRST_SEC) == (p.firstSec - base) % WORD
  {
    var e, f, z := PutEntry(p, base), Put4(p.firstSec - base), Put4(p.size);
    GetPut(p.firstSec - base);
    GetPut(p.size);
    Rebase(p.firstSec, base);
    EntryBytes(p, base);
    hide Put4, Get4, PutEntry;
    assert s[at] == e[0] && s[at + 4] == e[4];
    assert s[at + 8..at + 12] == e[8..12] && s[at + 12..at + 16] == e[12..16];
    Get4OfSlice(s, at + 8, f);
    Get4OfSlice(s, at + 12, z);
  }

  lemma EntryBytes(p: Raw, base: nat)
    requires Encodable(p)
    ensures var e := PutEntry(p, base);
      e[0] == p.status && e[4] == p.dtype && e[8..12] == Put4(p.firstSec - base) && e[12..16] == Put4(p.size)
  {
    hide Put4;
  }

  lemma Rebase(sec: nat, base: nat)
    requires sec < WORD
    ensures ((sec - base) % WORD + base) % WORD == sec
  {
  }

  lemma RecordParts(a: seq<byte>, b: seq<byte>, c: seq<byte>, d: seq<byte>)
    requires |a| == |b| == |c| == |d| == TABLE_ENTRY_SIZE
    ensures var s := Record(a, b, c, d);
      && s[0x1BE..0x1CE] == a && s[0x1CE..0x1DE] == b && s[0x1DE..0x1EE] == c && s[0x1EE..0x1FE] == d && Signed(s)
  {
    var z: seq<byte> := seq(TABLE_ENTRY_0, _ => 0);
    assert |z| == 0x1BE;
    hide *;
    var s := z + a + b + c + d + [0x55, 0xAA];
    assert s[0x1BE..0x1CE] == a;
    assert s[0x1CE..0x1DE] == b;
    assert s[0x1DE..0x1EE] == c;
    assert s[0x1EE..0x1FE] == d;
  }

  lemma PlannableRest(links: seq<Link>, first: nat, count: nat)
    requires Plannable(links, first, count) && links != []
    ensures Plannable(links[1..], first, count)
  {
    var rest := links[1..];
    assert forall i | 0 <= i < |rest| :: rest[i] == links[i + 1];
  }

  ghost predicate HoldsChain(disk: seq<Sector>, first: nat, links: seq<Link>)
    requires Plannable(links, first, |disk|)
  {
    forall i | 0 <= i < |links| :: disk[links[i].at] == ChainRecord(links[i], first, NextOf(links, i))
  }

  lemma {:induction false} WriteChainHolds(disk: seq<Sector>, first: nat, links: seq<Link>)
    requires Plannable(links, first, |disk|)
    ensures HoldsChain(WriteChain(disk, first, links), first, links)
  {
    if links != [] {
      var rest := links[1..];
      PlannableRest(links, first, |disk|);
      WriteChainHolds(disk, first, rest);
      hide ChainRecord;
      var r := WriteChain(disk, first, links);
      forall i | 0 <= i < |links|
        ensures r[links[i].at] == ChainRecord(links[i], first, NextOf(links, i))
      {
        if i > 0 {
          assert links[i] == rest[i - 1] && NextOf(rest, i - 1) == NextOf(links, i);
          assert WriteChain(disk, first, rest)[rest[i - 1].at] == ChainRecord(rest[i - 1], first, NextOf(rest, i - 1));
        }
      }
    }
  }

  /** What the reader finds in one record. */
  lemma ChainRecordRead(link: Link, first: nat, next: Option<nat>)
    requires Encodable(link.part) && (next.Some? ==> first < next.value < WORD)
    ensures var s := ChainRecord(link, first, next);
      && Signed(s) && EntryAt(s, TABLE_ENTRY_0, link.at) == link.part
      && Get4(s, TABLE_ENTRY_1 + OFFSET_FIRST_SEC) == if next.Some? then next.value - first else 0
  {
    var s := ChainRecord(link, first, next);
    var pointer := Pointer(next);
    var base := if next.Some? then first else 0;
    RecordParts(PutEntry(link.part, link.at), PutEntry(pointer, base), PutEntry(NO_ENTRY, 0), PutEntry(NO_ENTRY, 0));
    PointerDistance(first, next);
    hide PutEntry, Record, EntryAt, Get4, Signed, Pointer;
    EntryOfBytes(s, TABLE_ENTRY_0, link.part, link.at);
    EntryOfBytes(s, TABLE_ENTRY_1, pointer, base);
  }

  lemma PointerDistance(first: nat, next: Option<nat>)
    requires next.Some? ==> first < next.value < WORD
    ensures (Pointer(next).firstSec - (if next.Some? then first else 0)) % WORD == if next.Some? then next.value - first else 0
  {
  }

  lemma {:induction false} ChainReadsBack(disk: seq<Sector>, first: nat, links: seq<Link>, room: nat)
    requires Plannable(links, first, |disk|) && HoldsChain(disk, first, links) && links != [] && room > 0
    ensures Chain(disk, first, links[0].at - first, room) == Listing(true, Parts(links, room))
    decreases |links|
  {
    PlannableFirst(disk, first, links);
    if room > 1 && links[1..] != [] {
      PlannableRest(links, first, |disk|);
      HoldsRest(disk, first, links);
      hide HoldsChain, Plannable, Chain;
      ChainReadsBack(disk, first, links[1..], room - 1);
      assert links[1..][0] == links[1];
    }
    ChainFront(disk, first, links, room);
  }

  /** The first link is read, and then the others. */
  lemma ChainFront(disk: seq<Sector>, first: nat, links: seq<Link>, room: nat)
    requires links != [] && room > 0 && first <= links[0].at < WORD
    requires var read := SectorAt(disk, links[0].at);
      && read.Some? && Signed(read.value) && EntryAt(read.value, TABLE_ENTRY_0, links[0].at) == links[0].part
      && Get4(read.value, TABLE_ENTRY_1 + OFFSET_FIRST_SEC) == if |links| > 1 then links[1].at - first else 0
    requires |links| > 1 ==> links[1].at > first
    requires room > 1 && |links| > 1 ==>
      Chain(disk, first, links[1].at - first, room - 1) == Listing(true, Parts(links[1..], room - 1))
    ensures Chain(disk, first, links[0].at - first, room) == Listing(true, Parts(links, room))
  {
    NoWrap(first, links[0].at);
    ChainStep(disk, first, links[0].at - first, room);
    hide Chain, EntryAt, Signed, Get4, SectorAt;
  }

  lemma NoWrap(first: nat, at: nat)
    requires first <= at < WORD
    ensures (first + (at - first)) % WORD == at
  {
  }

  lemma SectorWithin(disk: seq<Sector>, at: nat)
    requires at < |disk| <= SECTORS
    ensures SectorAt(disk, at) == Some(disk[at])
  {
  }

  lemma PlannableFirst(disk: seq<Sector>, first: nat, links: seq<Link>)
    requires Plannable(links, first, |disk|) && HoldsChain(disk, first, links) && links != []
    ensures first <= links[0].at < SECTORS && Encodable(links[0].part)
    ensures var read := SectorAt(disk, links[0].at);
      && read.Some? && Signed(read.value) && EntryAt(read.value, TABLE_ENTRY_0, links[0].at) == links[0].part
      && Get4(read.value, TABLE_ENTRY_1 + OFFSET_FIRST_SEC) == if |links| > 1 then links[1].at - first else 0
    ensures |links| > 1 ==> links[1].at > first
  {
    assert disk[links[0].at] == ChainRecord(links[0], first, NextOf(links, 0));
    assert Encodable(links[0].part) && (|links| > 1 ==> first < links[1].at < |disk|);
    SectorWithin(disk, links[0].at);
    ChainRecordRead(links[0], first, NextOf(links, 0));
    hide ChainRecord, EntryAt, Signed, Get4, SectorAt, HoldsChain, Plannable;
  }

  lemma HoldsRest(disk: seq<Sector>, first: nat, links: seq<Link>)
    requires Plannable(links, first, |disk|) && HoldsChain(disk, first, links) && links != []
    requires Plannable(links[1..], first, |disk|)
    ensures HoldsChain(disk, first, links[1..])
  {
    hide ChainRecord;
    var rest := links[1..];
    forall i | 0 <= i < |rest| ensures disk[rest[i].at] == ChainRecord(rest[i], first, NextOf(rest, i)) {
      assert rest[i] == links[i + 1] && NextOf(rest, i) == NextOf(links, i + 1);
      assert disk[links[i + 1].at] == ChainRecord(links[i + 1], first, NextOf(links, i + 1));
    }
  }

  /** Four primary entries, the last of them pointing at the chain if there is one. */
  predicate PlannableTable(ps: seq<Raw>, links: seq<Link>, count: nat) {
    && |ps| == 4 && count > 0 && (forall i | 0 <= i < 4 :: Encodable(ps[i]))
    && (if links == [] then ps[3].dtype != EXTENDED_TYPE
        else ps[3].dtype == EXTENDED_TYPE && ps[3].firstSec == links[0].at > 0)
    && Plannable(links, ps[3].firstSec, count)
  }

  function WriteTable(disk: seq<Sector>, ps: seq<Raw>, links: seq<Link>): seq<Sector>
    requires PlannableTable(ps, links, |disk|)
  {
    WriteChain(disk, ps[3].firstSec, links)
      [0 := Record(PutEntry(ps[0], 0), PutEntry(ps[1], 0), PutEntry(ps[2], 0), PutEntry(ps[3], 0))]
  }

  lemma PrimariesReadBack(ps: seq<Raw>)
    requires |ps| == 4 && forall i | 0 <= i < 4 :: Encodable(ps[i])
    ensures var s := Record(PutEntry(ps[0], 0), PutEntry(ps[1], 0), PutEntry(ps[2], 0), PutEntry(ps[3], 0));
      Signed(s) && Primaries(s) == ps
  {
    var s := Record(PutEntry(ps[0], 0), PutEntry(ps[1], 0), PutEntry(ps[2], 0), PutEntry(ps[3], 0));
    RecordParts(PutEntry(ps[0], 0), PutEntry(ps[1], 0), PutEntry(ps[2], 0), PutEntry(ps[3], 0));
    hide PutEntry, Record, EntryAt;
    EntryOfBytes(s, 0x1BE, ps[0], 0);
    EntryOfBytes(s, 0x1CE, ps[1], 0);
    EntryOfBytes(s, 0x1DE, ps[2], 0);
    EntryOfBytes(s, 0x1EE, ps[3], 0);
  }

  /** Laying a table out and reading it back is the identity, up to 64 entries. */
  lemma TableReadsBack(disk: seq<Sector>, ps: seq<Raw>, links: seq<Link>)
    requires PlannableTable(ps, links, |disk|)
    ensures Table(WriteTable(disk, ps, links)) == Listing(true, ps + Parts(links, MAX_PARTITIONS - 4))
  {
    var first := ps[3].firstSec;
    var written, r := WriteChain(disk, first, links), WriteTable(disk, ps, links);
    PrimariesReadBack(ps);
    WriteChainHolds(disk, first, links);
    hide PutEntry, Record, Primaries, Signed, EntryAt, ChainRecord, WriteChain;
    if links == [] {
      assert ps + [] == ps;
    } else {
      assert HoldsChain(r, first, links) by {
        forall i | 0 <= i < |links| ensures r[links[i].at] == written[links[i].at] { }
      }
      ChainReadsBack(r, first, links, MAX_PARTITIONS - 4);
    }
  }
}
