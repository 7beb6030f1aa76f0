/** The update image of bootloader.c: its header, what a run that writes it reports for any
    failures, and the layout it promises. Positions count erase blocks, and -1 is the error
    value of the flash layer. */
module UpdateLayout {
  import opened Wrappers  // Option
  import opened Bytes
  import opened Flash
  import opened Chunks
  import opened WriterModel
  import opened MtdWriter  // OnDevice

  const UPDATE_VERSION := 0x10000
  const HEADER_BYTES: nat := 60

  /** struct update_header; the magic number is added by Encode. Offsets are in blocks. */
  datatype Header = Header(
    imageOffset: int, imageLength: nat,
    bitmapWidth: nat, bitmapHeight: nat, bitmapBpp: nat,
    busyOffset: int, busyLength: nat, failOffset: int, failLength: nat)

  /** "MSM-RADIO-UPDATE" */
  const MAGIC: seq<byte> := [77, 83, 77, 45, 82, 65, 68, 73, 79, 45, 85, 80, 68, 65, 84, 69]

  function ByteOffset(p: int, e: nat): int { if p < 0 then p else p * e }

  /** The header as it lies in memory, little-endian. */
  function Encode(h: Header, e: nat): (bytes: seq<byte>)
    ensures |bytes| == HEADER_BYTES
  {
    MAGIC + Put4(UPDATE_VERSION) + Put4(HEADER_BYTES)
      + Put4(ByteOffset(h.imageOffset, e)) + Put4(h.imageLength)
      + Put4(h.bitmapWidth) + Put4(h.bitmapHeight) + Put4(h.bitmapBpp)
      + Put4(ByteOffset(h.busyOffset, e)) + Put4(h.busyLength)
      + Put4(ByteOffset(h.failOffset, e)) + Put4(h.failLength)
  }

  // ---------------------------------------------------------------- the promised layout

  /** Accepted positions ps hold the blocks of the data, and the first is the recorded one. */
  ghost predicate SectionAt(blocks: seq<Block>, ps: seq<nat>, data: seq<byte>, e: nat, offset: int)
    requires e > 0
  {
    var bs := ImageBlocks(data, e);
    && |ps| == |bs| && Increasing(ps) && Below(ps, |blocks|)
    && (forall k | 0 <= k < |ps| :: blocks[ps[k]] == bs[k])
    && 0 <= offset && (ps != [] ==> offset == ps[0])
  }

  // ---------------------------------------------------------------- a run, for any failures

  // The position where the next section may begin or -1, and the writer.
  datatype Boundary = Boundary(next: int, w: Writer)

  /** Data, then mtd_erase_blocks(write, 0), which gives the next boundary or -1. None if
      the data is refused. */
  function Added(chip: Chip, w: Writer, data: seq<byte>): (r: Option<Boundary>)
    requires w.pos <= chip.count && |w.buffer| < chip.eraseSize
    ensures r.Some? ==> w.pos <= r.value.w.pos <= chip.count && |r.value.w.buffer| < chip.eraseSize
    ensures r.Some? ==> r.value.next == -1 || (r.value.next == r.value.w.pos && r.value.w.buffer == [])
  {
    var fed := Feed(chip, w, data);
    if fed.None? then None
    else
      var (ok, w') := Flushed(chip, fed.value);
      Some(Boundary(if ok then w'.pos else -1, w'))
  }

  /** The results of the four calls that are not checked, the header, and where the blocks
      went: those of the first pass with the number accepted before each section. */
  datatype Report = Report(
    imageStart: int, busyStart: int, failStart: int, tail: int, header: Header,
    placed: seq<nat>, n1: nat, n2: nat, n3: nat, headerAt: seq<nat>)

  datatype First = First(rep: Report, w: Writer)

  // The two bitmaps: the start of the second, the writer there, whether and how the last
  // section was completed, and the writer when it is closed.
  datatype Bitmaps = Bitmaps(failStart: int, between: Writer, tail: int, end: Writer, closed: Writer)

  /** The two bitmaps, and closing. */
  function BitmapsRun(chip: Chip, w: Writer, busy: seq<byte>, fail: seq<byte>): Option<Bitmaps>
    requires w.pos <= chip.count && |w.buffer| < chip.eraseSize
  {
    var c := Added(chip, w, busy);
    if c.None? then None else
    var d := Added(chip, c.value.w, fail);
    if d.None? then None else
    var (ok, closed) := Flushed(chip, d.value.w);
    if ok then Some(Bitmaps(c.value.next, c.value.w, d.value.next, d.value.w, closed)) else None
  }

  /** The three sections behind the header, their offsets, and closing. */
  function SectionsRun(chip: Chip, w1: Writer, h: Header, imageStart: int, update: seq<byte>, busy: seq<byte>,
      fail: seq<byte>)
      : Option<First>
    requires w1.pos <= chip.count && |w1.buffer| < chip.eraseSize
  {
    var b := Added(chip, w1, update);
    if b.None? then None else
    var Boundary(busyStart, w2) := b.value;
    var maps := BitmapsRun(chip, w2, busy, fail);
    if maps.None? then None else
    var Bitmaps(failStart, w3, tail, w4, w) := maps.value;
    var header := h.(imageOffset := WriteStart(w2.skipped, imageStart),
      busyOffset := WriteStart(w3.skipped, busyStart), failOffset := WriteStart(w4.skipped, failStart));
    Some(First(Report(imageStart, busyStart, failStart, tail, header, w.placed, |w1.placed|, |w2.placed|, |w3.placed|, []), w))
  }

  /** Everything up to closing the first writer, and that writer. */
  function FirstRun(chip: Chip, clock: nat, h: Header, update: seq<byte>, busy: seq<byte>, fail: seq<byte>)
      : Option<First>
    requires 0 < chip.eraseSize
  {
    var a := Added(chip, Opened(clock), Fill(HEADER_BYTES, 0));
    if a.None? then None else SectionsRun(chip, a.value.w, h, a.value.next, update, busy, fail)
  }

  /** The header written again, and that writer: it must end where the image starts. */
  function SecondRun(chip: Chip, clock: nat, bytes: seq<byte>, imageStart: int): Option<Writer>
    requires 0 < chip.eraseSize
  {
    var a := Added(chip, Opened(clock), bytes);
    if a.None? || a.value.next != imageStart then None
    else
      var (ok, w) := Flushed(chip, a.value.w);
      if ok then Some(w) else None
  }

  function Blank(update: seq<byte>, width: nat, height: nat, bpp: nat, busy: seq<byte>, fail: seq<byte>): Header {
    Header(0, |update|, width, height, bpp, 0, |busy|, 0, |fail|)
  }

  /** The run fills in the offsets and nothing else. */
  predicate OffsetsOnly(header: Header, h: Header) {
    header == h.(imageOffset := header.imageOffset, busyOffset := header.busyOffset, failOffset := header.failOffset)
  }

  /** What write_update_for_bootloader reports to have done; None if it returns -1. */
  function UpdateRun(chip: Chip, clock: nat, h: Header, update: seq<byte>, busy: seq<byte>, fail: seq<byte>): Option<Report>
    requires 0 < chip.eraseSize
  {
    var first := FirstRun(chip, clock, h, update, busy, fail);
    if first.None? then None else
    var First(rep, w) := first.value;
    var second := SecondRun(chip, w.clock, Encode(rep.header, chip.eraseSize), rep.imageStart);
    if second.None? then None else Some(rep.(headerAt := second.value.placed))
  }

  /** The three section starts are positions, and completing the last section worked or did
      not decide where it begins. */
  predicate AllWell(rep: Report, fail: seq<byte>, e: nat) {
    rep.imageStart != -1 && rep.busyStart != -1 && rep.failStart != -1 && (rep.tail != -1 || |fail| >= e)
  }

  // ---------------------------------------------------------------- the promised layout

  ghost predicate Sections(blocks: seq<Block>, e: nat, rep: Report, update: seq<byte>, busy: seq<byte>, fail: seq<byte>)
    requires e > 0
  {
    && rep.n1 <= rep.n2 <= rep.n3 <= |rep.placed|
    // each recorded offset is where its section begins
    && SectionAt(blocks, rep.placed[rep.n1..rep.n2], update, e, rep.header.imageOffset)
    && SectionAt(blocks, rep.placed[rep.n2..rep.n3], busy, e, rep.header.busyOffset)
    && SectionAt(blocks, rep.placed[rep.n3..], fail, e, rep.header.failOffset)
  }

  ghost predicate Layout(blocks: seq<Block>, e: nat, rep: Report, update: seq<byte>, busy: seq<byte>, fail: seq<byte>)
    requires e > 0
  {
    // the header is immediately before the image
    && rep.headerAt != [] && rep.headerAt[|rep.headerAt|-1] == rep.imageStart - 1
    && SectionAt(blocks, rep.headerAt, Encode(rep.header, e), e, rep.headerAt[0])
    && rep.header.imageLength == |update| && rep.header.busyLength == |busy| && rep.header.failLength == |fail|
    && Sections(blocks, e, rep, update, busy, fail)
  }

  // ---------------------------------------------------------------- recorded offsets

  /** The offset of a section that starts at index n of the accepted positions. */
  ghost predicate Recorded(placed: seq<nat>, n: nat, offset: int) {
    n <= |placed| && 0 <= offset && (n < |placed| ==> offset == placed[n])
  }

  /** A section was added and its offset recorded. */
  ghost predicate Step(w: Writer, w': Writer, data: seq<byte>, e: nat, offset: int)
    requires e > 0
  {
    Grew(w, w') && w'.flushed == w.flushed + ImageBlocks(data, e) && Recorded(w'.placed, |w.placed|, offset)
  }

  /** The first accepted position from the section's start on is the first one there not
      skipped, even if positions behind the file offset count as skipped. */
  lemma FirstPlaced(chip: Chip, w: Writer, w': Writer, consulted: seq<nat>, offset: int)
    requires Orderly(chip, w) && Orderly(chip, w') && Exact(w') && Grew(w, w')
    requires forall q | 0 <= q < w'.pos :: q in consulted <==> q in w'.skipped
    requires FirstNotIn(consulted, w.pos, offset)
    ensures Recorded(w'.placed, |w.placed|, offset)
  {
    var n := |w.placed|;
    if n < |w'.placed| {
      var first := w'.placed[n];
      assert first in w'.placed && first !in consulted;
      assert offset <= first;
      if offset < first {
        assert offset in w'.placed;
        var k :| 0 <= k < |w'.placed| && w'.placed[k] == offset;
        if n < k { IncreasingPairs(w'.placed, n, k); }
      }
    }
  }

  /** A section between two boundaries gets the offset of its first block. */
  lemma CleanSection(chip: Chip, w: Writer, data: seq<byte>)
    requires Orderly(chip, w) && Exact(w) && w.buffer == []
    requires Added(chip, w, data).Some? && Added(chip, w, data).value.next != -1
    ensures var Boundary(next, w') := Added(chip, w, data).value;
      && Orderly(chip, w') && Exact(w') && w'.buffer == [] && next == w'.pos
      && Step(w, w', data, chip.eraseSize, WriteStart(w'.skipped, w.pos))
  {
    var w' := Added(chip, w, data).value.w;
    assert Section(chip, w, data) == Some(w');
    SectionKeeps(chip, w, data);
    hide Added, Section, ImageBlocks;
    WriteStartIsFirst(w'.skipped, w.pos);
    FirstPlaced(chip, w, w', w'.skipped, WriteStart(w'.skipped, w.pos));
  }

  lemma RangeMembers(skipped: seq<nat>, p: nat, count: nat)
    requires p <= count
    ensures forall q | 0 <= q < p :: q in skipped + Range(p, count) <==> q in skipped
    ensures forall q: nat | p <= q < count :: q in skipped + Range(p, count)
    ensures Increasing(skipped) && Below(skipped, p) ==> Increasing(skipped + Range(p, count))
  {
    forall q: nat | p <= q < count ensures q in skipped + Range(p, count) {
      assert Range(p, count)[q - p] == q;
    }
  }

  /** The last section, its offset, and closing, whether or not completing it worked. */
  lemma TailSection(chip: Chip, w: Writer, data: seq<byte>)
    requires Orderly(chip, w) && Exact(w) && w.buffer == []
    requires Added(chip, w, data).Some?
    ensures var Boundary(tail, w4) := Added(chip, w, data).value;
      var (ok, w') := Flushed(chip, w4);
      var offset := WriteStart(w4.skipped, w.pos);
      ok ==>
        if tail != -1 || |data| >= chip.eraseSize then Step(w, w', data, chip.eraseSize, offset)
        else data != [] && offset >= chip.count
  {
    var Boundary(tail, w4) := Added(chip, w, data).value;
    if tail != -1 {
      CleanSection(chip, w, data);
    } else {
      var w1 := Feed(chip, w, data).value;
      FeedKeeps(chip, w, data);
      FlushKeeps(chip, w1);
      FlushKeeps(chip, w4);
      FailedTail(chip, w, w1, w4, data);
    }
  }

  /** Completing the last section failed, but closing did it. */
  lemma FailedTail(chip: Chip, w: Writer, w1: Writer, w4: Writer, data: seq<byte>)
    requires Orderly(chip, w) && Exact(w) && w.buffer == []
    requires Orderly(chip, w1) && Exact(w1) && Grew(w, w1) && Stream(w1) == Stream(w) + data
    requires w1.buffer == w4.buffer != [] && w4.flushed == w1.flushed && w4.placed == w1.placed
    requires Orderly(chip, w4) && w1.pos <= w4.pos && w4.skipped == w1.skipped + Range(w1.pos, chip.count)
    ensures var (ok, w') := Flushed(chip, w4);
      var offset := WriteStart(w4.skipped, w.pos);
      ok ==>
        if |data| >= chip.eraseSize then Step(w, w', data, chip.eraseSize, offset) else data != [] && offset >= chip.count
  {
    hide Flushed, ImageBlocks, Concat, Exact, WriteStart, Orderly;
    TailOffset(chip, w, w1, data);
    TailBlocks(chip, w, w1, w4, data);
  }

  /** The offset looked up when every position behind the last accepted one was recorded. */
  lemma TailOffset(chip: Chip, w: Writer, w1: Writer, data: seq<byte>)
    requires Orderly(chip, w) && Exact(w) && w.buffer == []
    requires Orderly(chip, w1) && Exact(w1) && Grew(w, w1) && Stream(w1) == Stream(w) + data
    ensures var offset := WriteStart(w1.skipped + Range(w1.pos, chip.count), w.pos);
      Recorded(w1.placed, |w.placed|, offset) && (|data| < chip.eraseSize ==> offset >= chip.count)
    ensures |data| >= chip.eraseSize ==> |w.placed| < |w1.placed|
    ensures |data| < chip.eraseSize ==> |data| == |w1.buffer|
  {
    var consulted := w1.skipped + Range(w1.pos, chip.count);
    var offset := WriteStart(consulted, w.pos);
    RangeMembers(w1.skipped, w1.pos, chip.count);
    WriteStartIsFirst(consulted, w.pos);
    NewBlocks(w, w1, data, chip.eraseSize);
    hide Concat, WriteStart, Increasing;
    FirstPlaced(chip, w, w1, consulted, offset);
  }

  /** The blocks accepted in the end are those of the data. */
  lemma TailBlocks(chip: Chip, w: Writer, w1: Writer, w4: Writer, data: seq<byte>)
    requires Orderly(chip, w) && w.buffer == []
    requires Orderly(chip, w1) && Grew(w, w1) && Stream(w1) == Stream(w) + data
    requires Orderly(chip, w4) && w1.buffer == w4.buffer && w4.flushed == w1.flushed && w4.placed == w1.placed && w1.pos <= w4.pos
    ensures var (ok, w') := Flushed(chip, w4);
      ok ==> Grew(w, w') && w1.placed <= w'.placed && w'.flushed == w.flushed + ImageBlocks(data, chip.eraseSize)
  {
    hide Flushed, Put, Increasing, Below, Concat, ImageBlocks, AllSized;
    var (ok, w') := Flushed(chip, w4);
    FlushKeeps(chip, w4);
    if ok {
      EmptyBuffer(w);
      GrewTwice(w, w1, w4);
      GrewTwice(w, w4, w');
      SectionBlocks(w.flushed, w1.flushed, w'.flushed, data, w1.buffer, ZerosFor(chip, w1), chip.eraseSize);
    }
  }

  lemma EmptyBuffer(w: Writer)
    requires w.buffer == []
    ensures Stream(w) == Concat(w.flushed)
  {
  }

  /** Less than a block of data adds no block; more does. */
  lemma NewBlocks(w: Writer, w1: Writer, data: seq<byte>, e: nat)
    requires e > 0 && w.buffer == [] && AllSized(w1.flushed, e) && |w1.buffer| < e
    requires |w.placed| == |w.flushed| && |w1.placed| == |w1.flushed| && Grew(w, w1)
    requires Stream(w1) == Stream(w) + data
    ensures if |data| < e then w1.placed == w.placed && |data| == |w1.buffer| else |w.placed| < |w1.placed|
  {
    var y := w1.flushed[|w.flushed|..];
    assert w1.flushed == w.flushed + y;
    ConcatAppend(w.flushed, y);
    if y != [] { AtLeastOneBlock(y, e); }
  }

  lemma SlicePlaced(blocks: seq<Block>, w: Writer, e: nat, n: nat, m: nat, data: seq<byte>, offset: int)
    requires e > 0 && OnDevice(blocks, w.placed, w.flushed, e, w.pos)
    requires n <= m <= |w.placed| && w.flushed[n..m] == ImageBlocks(data, e)
    requires 0 <= offset && (n < m ==> offset == w.placed[n])
    ensures SectionAt(blocks, w.placed[n..m], data, e, offset)
  {
    var ps := w.placed[n..m];
    assert forall k | 0 <= k < |ps| :: ps[k] == w.placed[n + k] && w.flushed[n..m][k] == w.flushed[n + k];
  }

  /** With every offset recorded, the sections lie as promised. */
  lemma ThreeSteps(blocks: seq<Block>, e: nat, w1: Writer, w2: Writer, w3: Writer, w: Writer, rep: Report,
      update: seq<byte>, busy: seq<byte>, fail: seq<byte>)
    requires e > 0 && OnDevice(blocks, w.placed, w.flushed, e, w.pos)
    requires |w1.placed| == |w1.flushed| && |w2.placed| == |w2.flushed| && |w3.placed| == |w3.flushed|
    requires Step(w1, w2, update, e, rep.header.imageOffset) && Step(w2, w3, busy, e, rep.header.busyOffset)
    requires Step(w3, w, fail, e, rep.header.failOffset)
    requires rep.placed == w.placed && rep.n1 == |w1.placed| && rep.n2 == |w2.placed| && rep.n3 == |w3.placed|
    ensures Sections(blocks, e, rep, update, busy, fail)
    ensures forall k | rep.n1 <= k < |rep.placed| :: w1.pos <= rep.placed[k]
  {
    hide ImageBlocks;
    GrewTwice(w1, w2, w3);
    GrewTwice(w1, w3, w);
    assert w.placed[rep.n3..|w.placed|] == w.placed[rep.n3..];
    assert |w.placed| == |w.flushed|;
    assert w.flushed[rep.n1..rep.n2] == ImageBlocks(update, e);
    assert w.flushed[rep.n2..rep.n3] == ImageBlocks(busy, e);
    assert w.flushed[rep.n3..|w.placed|] == ImageBlocks(fail, e);
    hide OnDevice, SectionAt, Grew;
    SlicePlaced(blocks, w, e, rep.n1, rep.n2, update, rep.header.imageOffset);
    SlicePlaced(blocks, w, e, rep.n2, rep.n3, busy, rep.header.busyOffset);
    SlicePlaced(blocks, w, e, rep.n3, |w.placed|, fail, rep.header.failOffset);
  }

  lemma OpenedIsOrderly(chip: Chip, clock: nat)
    requires 0 < chip.eraseSize
    ensures Orderly(chip, Opened(clock)) && Exact(Opened(clock))
  {
  }

  /** What the first pass leaves: the sections behind the header where they were recorded,
      or an offset that no section can have. */
  lemma FirstRunSections(chip: Chip, clock: nat, h: Header, update: seq<byte>, busy: seq<byte>, fail: seq<byte>,
      blocks: seq<Block>)
    requires 0 < chip.eraseSize && FirstRun(chip, clock, h, update, busy, fail).Some? && |blocks| == chip.count
    requires var First(rep, w) := FirstRun(chip, clock, h, update, busy, fail).value;
      OnDevice(blocks, w.placed, w.flushed, chip.eraseSize, w.pos)
    ensures var First(rep, w) := FirstRun(chip, clock, h, update, busy, fail).value;
      if AllWell(rep, fail, chip.eraseSize) then
        && 0 <= rep.imageStart && Sections(blocks, chip.eraseSize, rep, update, busy, fail)
        && forall k | rep.n1 <= k < |rep.placed| :: rep.imageStart <= rep.placed[k]
      else
        || rep.header.imageOffset < 0 || rep.header.busyOffset < 0 || rep.header.failOffset < 0
        || (fail != [] && rep.header.failOffset >= |blocks|)
  {
    var First(rep, w) := FirstRun(chip, clock, h, update, busy, fail).value;
    var w0 := Opened(clock);
    var Boundary(imageStart, w1) := Added(chip, w0, Fill(HEADER_BYTES, 0)).value;
    var Boundary(busyStart, w2) := Added(chip, w1, update).value;
    var Boundary(failStart, w3) := Added(chip, w2, busy).value;
    OpenedIsOrderly(chip, clock);
    hide Added, Flushed, OnDevice, Step, Sections, Orderly, Exact;
    if imageStart != -1 && busyStart != -1 && failStart != -1 {
      CleanSection(chip, w0, Fill(HEADER_BYTES, 0));
      CleanSection(chip, w1, update);
      CleanSection(chip, w2, busy);
      TailSection(chip, w3, fail);
      if AllWell(rep, fail, chip.eraseSize) {
        SameLengths(chip, w1);
        SameLengths(chip, w2);
        SameLengths(chip, w3);
        ThreeSteps(blocks, chip.eraseSize, w1, w2, w3, w, rep, update, busy, fail);
      }
    }
  }

  lemma SameLengths(chip: Chip, w: Writer)
    requires Orderly(chip, w)
    ensures |w.placed| == |w.flushed|
  {
  }

  lemma SomeBlocks(data: seq<byte>, e: nat)
    requires e > 0 && data != []
    ensures ImageBlocks(data, e) != []
  {
    if |data| >= e { BlocksFront(data, e); }
  }

  /** How many blocks data takes depends on its length alone. */
  lemma {:induction false} SameSize(a: seq<byte>, b: seq<byte>, e: nat)
    requires e > 0 && |a| == |b|
    ensures |ImageBlocks(a, e)| == |ImageBlocks(b, e)|
    decreases |a|
  {
    if |a| >= e {
      BlocksFront(a, e);
      BlocksFront(b, e);
      SameSize(a[e..], b[e..], e);
    } else {
      ShortStream(a, e);
      ShortStream(b, e);
    }
  }

  lemma ShortStream(s: seq<byte>, e: nat)
    requires |s| < e
    ensures |ImageBlocks(s, e)| == if s == [] then 0 else 1
  {
    if s != [] {
      assert Concat([]) + s == s;
      CutOfPadded([], s, e);
    }
  }

  /** An accepted second header ends where the image starts. */
  lemma HeaderPlaced(chip: Chip, clock: nat, bytes: seq<byte>, imageStart: int, blocks: seq<Block>)
    requires 0 < chip.eraseSize && bytes != [] && imageStart != -1
    requires SecondRun(chip, clock, bytes, imageStart).Some?
    requires var w := SecondRun(chip, clock, bytes, imageStart).value;
      OnDevice(blocks, w.placed, w.flushed, chip.eraseSize, w.pos)
    ensures var ps := SecondRun(chip, clock, bytes, imageStart).value.placed;
      ps != [] && ps[|ps|-1] == imageStart - 1 && SectionAt(blocks, ps, bytes, chip.eraseSize, ps[0])
  {
    var w := SecondRun(chip, clock, bytes, imageStart).value;
    OpenedIsOrderly(chip, clock);
    CleanSection(chip, Opened(clock), bytes);
    assert w.flushed == [] + ImageBlocks(bytes, chip.eraseSize);
    assert w.pos == imageStart && Exact(w);
    hide *;
    OnlySection(blocks, w, bytes, chip.eraseSize);
  }

  lemma OnlySection(blocks: seq<Block>, w: Writer, data: seq<byte>, e: nat)
    requires 0 < e && data != [] && OnDevice(blocks, w.placed, w.flushed, e, w.pos) && Exact(w)
    requires w.flushed == [] + ImageBlocks(data, e)
    ensures w.placed != [] && w.placed[|w.placed|-1] == w.pos - 1 && SectionAt(blocks, w.placed, data, e, w.placed[0])
  {
    hide ImageBlocks, Increasing, Partition, AllSized, Below;
    SomeBlocks(data, e);
    assert w.flushed == ImageBlocks(data, e);
    assert w.pos == AfterLast(w.placed);
    BelowMore(w.placed, w.pos, |blocks|);
  }

  lemma BelowMore(s: seq<nat>, p: nat, q: nat)
    requires Below(s, p) && p <= q
    ensures Below(s, q)
  {
  }

  /** Sections stay in place while only earlier blocks change. */
  lemma SectionStays(blocks: seq<Block>, blocks': seq<Block>, ps: seq<nat>, data: seq<byte>, e: nat, offset: int)
    requires e > 0 && SectionAt(blocks, ps, data, e, offset)
    requires |blocks'| == |blocks| && forall k | 0 <= k < |ps| :: blocks'[ps[k]] == blocks[ps[k]]
    ensures SectionAt(blocks', ps, data, e, offset)
  {
  }

  lemma SectionsStay(blocks: seq<Block>, blocks': seq<Block>, e: nat, rep: Report, update: seq<byte>,
      busy: seq<byte>, fail: seq<byte>)
    requires e > 0 && Sections(blocks, e, rep, update, busy, fail) && 0 <= rep.imageStart
    requires SameFrom(blocks, blocks', rep.imageStart)
    requires forall k | rep.n1 <= k < |rep.placed| :: rep.imageStart <= rep.placed[k]
    ensures Sections(blocks', e, rep, update, busy, fail)
  {
    hide ImageBlocks;
    SectionStays(blocks, blocks', rep.placed[rep.n1..rep.n2], update, e, rep.header.imageOffset);
    SectionStays(blocks, blocks', rep.placed[rep.n2..rep.n3], busy, e, rep.header.busyOffset);
    SectionStays(blocks, blocks', rep.placed[rep.n3..], fail, e, rep.header.failOffset);
  }

  lemma SectionsOf(blocks: seq<Block>, e: nat, rep: Report, headerAt: seq<nat>, update: seq<byte>, busy: seq<byte>,
      fail: seq<byte>)
    requires e > 0 && Sections(blocks, e, rep, update, busy, fail)
    ensures Sections(blocks, e, rep.(headerAt := headerAt), update, busy, fail)
  {
  }

  lemma WrongOffset(blocks: seq<Block>, e: nat, rep: Report, update: seq<byte>, busy: seq<byte>, fail: seq<byte>)
    requires e > 0
    requires rep.header.imageOffset < 0 || rep.header.busyOffset < 0 || rep.header.failOffset < 0
      || (fail != [] && rep.header.failOffset >= |blocks|)
    ensures !Layout(blocks, e, rep, update, busy, fail)
  {
    if fail != [] { SomeBlocks(fail, e); }
  }

  /** With the contents both passes leave, the layout is there exactly if all went well. */
  lemma LayoutDecided(chip: Chip, clock: nat, h: Header, update: seq<byte>, busy: seq<byte>, fail: seq<byte>,
      blocks: seq<Block>, blocks': seq<Block>)
    requires 0 < chip.eraseSize && UpdateRun(chip, clock, h, update, busy, fail).Some?
    requires |blocks| == |blocks'| == chip.count
    requires h.imageLength == |update| && h.busyLength == |busy| && h.failLength == |fail|
    requires var First(rep, w) := FirstRun(chip, clock, h, update, busy, fail).value;
      && OnDevice(blocks, w.placed, w.flushed, chip.eraseSize, w.pos)
      && (0 <= rep.imageStart ==> SameFrom(blocks, blocks', rep.imageStart))
    requires var rep := FirstRun(chip, clock, h, update, busy, fail).value.rep;
      var w := SecondRun(chip, FirstRun(chip, clock, h, update, busy, fail).value.w.clock,
        Encode(rep.header, chip.eraseSize), rep.imageStart).value;
      OnDevice(blocks', w.placed, w.flushed, chip.eraseSize, w.pos)
    ensures var rep := UpdateRun(chip, clock, h, update, busy, fail).value;
      Layout(blocks', chip.eraseSize, rep, update, busy, fail) <==> AllWell(rep, fail, chip.eraseSize)
  {
    var First(rep, w) := FirstRun(chip, clock, h, update, busy, fail).value;
    var run := UpdateRun(chip, clock, h, update, busy, fail).value;
    FirstRunSections(chip, clock, h, update, busy, fail, blocks);
    LengthsKept(chip, clock, h, update, busy, fail);
    hide FirstRun, SecondRun, OnDevice, Encode, Sections;
    if AllWell(rep, fail, chip.eraseSize) {
      HeaderPlaced(chip, w.clock, Encode(rep.header, chip.eraseSize), rep.imageStart, blocks');
      SectionsStay(blocks, blocks', chip.eraseSize, rep, update, busy, fail);
      SectionsOf(blocks', chip.eraseSize, rep, run.headerAt, update, busy, fail);
    } else {
      WrongOffset(blocks', chip.eraseSize, run, update, busy, fail);
    }
  }

  lemma LengthsKept(chip: Chip, clock: nat, h: Header, update: seq<byte>, busy: seq<byte>, fail: seq<byte>)
    requires 0 < chip.eraseSize && FirstRun(chip, clock, h, update, busy, fail).Some?
    ensures OffsetsOnly(FirstRun(chip, clock, h, update, busy, fail).value.rep.header, h)
  {
    hide Added, Flushed, WriteStart;
  }

  // ---------------------------------------------------------------- a run that only seems to succeed

  /** One good block, whose three operations fail, work, fail and work in turn. */
  const FLAKY: Chip := Chip(64, 1, {}, [
    Fails([]), Fails([]), Fails([]), Works, Works, Works, Fails([]), Fails([]), Fails([]), Works, Works, Works])

  lemma FlakyPut(w: Writer, data: Block)
    requires w.pos == 0 && |data| == 64 && w.clock in {0, 3, 6, 9}
    ensures Put(FLAKY, w, data) ==
      if w.clock in {0, 6} then (false, w.(clock := w.clock + 3, skipped := w.skipped + Range(0, 1)))
      else (true, w.(clock := w.clock + 3, pos := 1, placed := w.placed + [0], flushed := w.flushed + [data]))
  {
    assert w.skipped + Range(0, 0) == w.skipped;
    assert Landing(FLAKY, w.clock + 3, 1, 0, data) == Landed(None, 0, w.clock + 3);
  }

  /** An empty update on that device: the first header is refused and then accepted in place
      of the image, the second is refused likewise, so that its end agrees with the start
      of the image; success is reported, and the header names no place for the image. */
  lemma MisplacedUpdate(blocks: seq<Block>)
    ensures var run := UpdateRun(FLAKY, 0, Blank([], 0, 0, 0, [], []), [], [], []);
      && run.Some? && run.value.imageStart == run.value.header.imageOffset == -1
      && !AllWell(run.value, [], 64) && !Layout(blocks, 64, run.value, [], [], [])
  {
    var h := Blank([], 0, 0, 0, [], []);
    FlakyFirst(h);
    var rep := FirstRun(FLAKY, 0, h, [], [], []).value.rep;
    FlakySecond(Encode(rep.header, 64));
    hide FirstRun, SecondRun, Encode, FLAKY;
    WrongOffset(blocks, 64, UpdateRun(FLAKY, 0, h, [], [], []).value, [], [], []);
  }

  lemma FlakyFirst(h: Header)
    ensures var first := FirstRun(FLAKY, 0, h, [], [], []);
      && first.Some? && first.value.w.clock == 6
      && first.value.rep.imageStart == first.value.rep.header.imageOffset == -1
  {
    var zeros := Fill(HEADER_BYTES, 0);
    var w1 := Writer(3, 0, zeros, [] + Range(0, 1), [], []);
    var w2 := Writer(6, 1, [], w1.skipped, [] + [0], [] + [zeros + Fill(4, 0)]);
    FlakySection(0, zeros);
    assert zeros + [] == zeros && Feed(FLAKY, w1, []) == Some(w1);
    FlakyPut(w1, zeros + Fill(4, 0));
    assert Added(FLAKY, w1, []) == Some(Boundary(1, w2));
    FeedNothing(FLAKY, w2);
    assert Added(FLAKY, w2, []) == Some(Boundary(1, w2)) && Flushed(FLAKY, w2) == (true, w2);
    hide *;
    FlakyRun(h, w1, w2, zeros);
  }

  lemma FlakyRun(h: Header, w1: Writer, w2: Writer, zeros: seq<byte>)
    requires zeros == Fill(HEADER_BYTES, 0) && Added(FLAKY, Opened(0), zeros) == Some(Boundary(-1, w1))
    requires w1.pos <= FLAKY.count && |w1.buffer| < FLAKY.eraseSize && Added(FLAKY, w1, []) == Some(Boundary(1, w2))
    requires w2.pos <= FLAKY.count && w2.buffer == [] && Added(FLAKY, w2, []) == Some(Boundary(1, w2))
    requires Flushed(FLAKY, w2) == (true, w2) && w2.clock == 6
    ensures var first := FirstRun(FLAKY, 0, h, [], [], []);
      && first.Some? && first.value.w.clock == 6
      && first.value.rep.imageStart == first.value.rep.header.imageOffset == -1
  {
    hide Added, Flushed, Fill;
  }

  lemma FlakySecond(bytes: seq<byte>)
    requires |bytes| == HEADER_BYTES
    ensures SecondRun(FLAKY, 6, bytes, -1).Some?
  {
    FlakySection(6, bytes);
    FlakyPut(Writer(9, 0, bytes, [] + Range(0, 1), [], []), bytes + Fill(4, 0));
    hide Added, Put;
  }

  lemma FlakySection(clock: nat, bytes: seq<byte>)
    requires clock in {0, 6} && |bytes| == HEADER_BYTES
    ensures Added(FLAKY, Opened(clock), bytes) == Some(Boundary(-1, Writer(clock + 3, 0, bytes, [] + Range(0, 1), [], [])))
  {
    assert [] + bytes == bytes;
    FlakyPut(Opened(clock).(buffer := bytes), bytes + Fill(4, 0));
  }
}
