/** Runs that write an update image on a device where nothing but the power fails. */
module UpdatePower {
  import opened Wrappers  // Option
  import opened Bytes
  import opened Flash
  import opened Chunks
  import opened WriterModel
  import opened UpdateLayout

  /** Data is buffered that nothing can be done with any more. */
  ghost predicate Clogged(chip: Chip, w: Writer) {
    && w.pos <= chip.count && 0 < |w.buffer| < chip.eraseSize
    && (NextGood(chip.bad, chip.count, w.pos) == chip.count || |chip.fates| <= w.clock)
  }

  lemma {:induction false} NoneLater(bad: set<nat>, count: nat, p: nat, q: nat)
    requires p <= q <= count && NextGood(bad, count, p) == count
    ensures NextGood(bad, count, q) == count
    decreases q - p
  {
    if p < q { NoneLater(bad, count, p + 1, q); }
  }

  lemma PutRefused(chip: Chip, w: Writer, data: Block)
    requires PowerCutsOnly(chip) && Clogged(chip, w)
    ensures var (ok, w') := Put(chip, w, data); !ok && Clogged(chip, w')
  {
    LandingWorks(chip, w.clock, w.pos, w.pos, data);
    PutFails(chip, w, data);
  }

  lemma AddedToClogged(chip: Chip, w: Writer, data: seq<byte>)
    requires PowerCutsOnly(chip) && Clogged(chip, w)
    ensures var r := Added(chip, w, data); r.Some? ==> r.value.next == -1 && Clogged(chip, r.value.w)
  {
    if |w.buffer| + |data| < chip.eraseSize {
      var w1 := w.(buffer := w.buffer + data);
      PutRefused(chip, w1, w1.buffer + ZerosFor(chip, w1));
    } else {
      PutRefused(chip, w, w.buffer + data[..chip.eraseSize - |w.buffer|]);
    }
  }

  /** A writer between two sections, on the good blocks in order. */
  ghost predicate Between(chip: Chip, w: Writer) {
    Orderly(chip, w) && Planned(chip, w) && w.buffer == []
  }

  /** The section is finished if there is enough for it; otherwise it is refused or clogs
      the writer. */
  lemma AddedWorks(chip: Chip, w: Writer, data: seq<byte>)
    requires PowerCutsOnly(chip) && Between(chip, w)
    ensures Wrote(chip, w, Section(chip, w, data), |ImageBlocks(data, chip.eraseSize)|)
    ensures var a, done := Added(chip, w, data), Section(chip, w, data);
      if done.Some? then a == Some(Boundary(done.value.pos, done.value)) && Between(chip, done.value)
      else a.Some? ==> a.value.next == -1 && Clogged(chip, a.value.w)
  {
    SectionWorks(chip, w, data);
    SectionKeeps(chip, w, data);
    var fed := Feed(chip, w, data);
    if fed.Some? && Section(chip, w, data).None? {
      PutFails(chip, fed.value, fed.value.buffer + ZerosFor(chip, fed.value));
    }
  }

  lemma PutFails(chip: Chip, w: Writer, data: Block)
    requires PowerCutsOnly(chip) && w.pos <= chip.count && 0 < |w.buffer| < chip.eraseSize && !Put(chip, w, data).0
    ensures Clogged(chip, Put(chip, w, data).1)
  {
    LandingWorks(chip, w.clock, w.pos, w.pos, data);
    var w' := Put(chip, w, data).1;
    if NextGood(chip.bad, chip.count, w.pos) == chip.count { NoneLater(chip.bad, chip.count, w.pos, w'.pos); }
  }

  lemma CloggedBitmaps(chip: Chip, w: Writer, busy: seq<byte>, fail: seq<byte>)
    requires PowerCutsOnly(chip) && Clogged(chip, w)
    ensures BitmapsRun(chip, w, busy, fail).None?
  {
    AddedToClogged(chip, w, busy);
    var c := Added(chip, w, busy);
    if c.Some? { CloggedLast(chip, c.value.w, fail); }
  }

  lemma CloggedLast(chip: Chip, w: Writer, fail: seq<byte>)
    requires PowerCutsOnly(chip) && Clogged(chip, w)
    ensures var d := Added(chip, w, fail); d.Some? ==> !Flushed(chip, d.value.w).0
  {
    AddedToClogged(chip, w, fail);
    var d := Added(chip, w, fail);
    if d.Some? { FlushRefused(chip, d.value.w); }
  }

  lemma FlushRefused(chip: Chip, w: Writer)
    requires PowerCutsOnly(chip) && Clogged(chip, w)
    ensures !Flushed(chip, w).0
  {
    PutRefused(chip, w, w.buffer + ZerosFor(chip, w));
  }

  function HeaderBlocks(e: nat): nat
    requires e > 0
  {
    |ImageBlocks(Fill(HEADER_BYTES, 0), e)|
  }

  function DataBlocks(update: seq<byte>, busy: seq<byte>, fail: seq<byte>, e: nat): nat
    requires e > 0
  {
    |ImageBlocks(update, e)| + (|ImageBlocks(busy, e)| + |ImageBlocks(fail, e)|)
  }

  /** There are good blocks for the header and the sections, and operations to write them
      and then the header again. */
  ghost predicate EnoughForUpdate(chip: Chip, clock: nat, update: seq<byte>, busy: seq<byte>, fail: seq<byte>)
    requires chip.eraseSize > 0
  {
    var k := HeaderBlocks(chip.eraseSize);
    var n := k + DataBlocks(update, busy, fail, chip.eraseSize);
    Enough(chip, 0, clock, n) && Enough(chip, 0, clock + 3 * n, k)
  }

  function Closed(r: Option<Bitmaps>): (w: Option<Writer>)
    ensures w.Some? <==> r.Some?
  {
    if r.Some? then Some(r.value.closed) else None
  }

  function Ended(r: Option<First>): (w: Option<Writer>)
    ensures w.Some? <==> r.Some?
  {
    if r.Some? then Some(r.value.w) else None
  }

  /** One section after another. */
  lemma BitmapsWork(chip: Chip, w: Writer, busy: seq<byte>, fail: seq<byte>)
    requires PowerCutsOnly(chip) && Between(chip, w)
    ensures var r := BitmapsRun(chip, w, busy, fail);
      && Wrote(chip, w, Closed(r), |ImageBlocks(busy, chip.eraseSize)| + |ImageBlocks(fail, chip.eraseSize)|)
      && (r.Some? ==> r.value.failStart != -1 && r.value.tail != -1)
  {
    var r, c, done := BitmapsRun(chip, w, busy, fail), Added(chip, w, busy), Section(chip, w, busy);
    var nb, nf := |ImageBlocks(busy, chip.eraseSize)|, |ImageBlocks(fail, chip.eraseSize)|;
    AddedWorks(chip, w, busy);
    if done.Some? {
      var d := Added(chip, done.value, fail);
      assert r.Some? <==> d.Some? && Flushed(chip, d.value.w).0;
      assert r.Some? ==> r.value.failStart == done.value.pos && r.value.tail == d.value.next;
      assert r.Some? ==> r.value.closed == Flushed(chip, d.value.w).1;
      hide *;
      LastWorks(chip, done.value, fail);
      WroteTwice(chip, w, done, Closed(r), nb, nf);
    } else {
      if c.Some? { CloggedLast(chip, c.value.w, fail); }
      assert r.None?;
      hide *;
      WroteTwice(chip, w, done, Closed(r), nb, nf);
    }
  }

  lemma LastWorks(chip: Chip, w: Writer, fail: seq<byte>)
    requires PowerCutsOnly(chip) && Between(chip, w)
    ensures var d := Added(chip, w, fail);
      var closed := if d.Some? && Flushed(chip, d.value.w).0 then Some(Flushed(chip, d.value.w).1) else None;
      Wrote(chip, w, closed, |ImageBlocks(fail, chip.eraseSize)|) && (closed.Some? ==> d.value.next != -1)
  {
    var d := Added(chip, w, fail);
    AddedWorks(chip, w, fail);
    if d.Some? && d.value.next == -1 { FlushRefused(chip, d.value.w); }
    hide Clogged, ImageBlocks, Put, Wrote, Feed;
  }

  lemma SectionsWork(chip: Chip, w: Writer, h: Header, imageStart: int, update: seq<byte>, busy: seq<byte>, fail: seq<byte>)
    requires PowerCutsOnly(chip) && Between(chip, w)
    ensures var r := SectionsRun(chip, w, h, imageStart, update, busy, fail);
      && Wrote(chip, w, Ended(r), DataBlocks(update, busy, fail, chip.eraseSize))
      && (r.Some? ==> r.value.rep.imageStart == imageStart && AllWell(r.value.rep.(imageStart := 0), fail, chip.eraseSize))
  {
    var b, done := Added(chip, w, update), Section(chip, w, update);
    AddedWorks(chip, w, update);
    assert w.pos <= chip.count && |w.buffer| < chip.eraseSize;
    hide *;
    if done.Some? {
      SectionsGoOn(chip, w, done.value, h, imageStart, update, busy, fail);
    } else {
      if b.Some? { CloggedBitmaps(chip, b.value.w, busy, fail); }
      SectionsStop(chip, w, h, imageStart, update, busy, fail);
    }
  }

  lemma SectionsGoOn(chip: Chip, w: Writer, w2: Writer, h: Header, imageStart: int, update: seq<byte>,
      busy: seq<byte>, fail: seq<byte>)
    requires PowerCutsOnly(chip) && w.pos <= chip.count && |w.buffer| < chip.eraseSize && Between(chip, w2)
    requires Added(chip, w, update) == Some(Boundary(w2.pos, w2)) && Wrote(chip, w, Some(w2), |ImageBlocks(update, chip.eraseSize)|)
    ensures var r := SectionsRun(chip, w, h, imageStart, update, busy, fail);
      && Wrote(chip, w, Ended(r), DataBlocks(update, busy, fail, chip.eraseSize))
      && (r.Some? ==> r.value.rep.imageStart == imageStart && AllWell(r.value.rep.(imageStart := 0), fail, chip.eraseSize))
  {
    SectionsThen(chip, w, w2, h, imageStart, update, busy, fail);
    BitmapsWork(chip, w2, busy, fail);
    WroteSections(chip, w, w2, Closed(BitmapsRun(chip, w2, busy, fail)), update, busy, fail);
    hide *;
  }

  lemma WroteSections(chip: Chip, w: Writer, w2: Writer, end: Option<Writer>, update: seq<byte>, busy: seq<byte>,
      fail: seq<byte>)
    requires chip.eraseSize > 0
    requires Wrote(chip, w, Some(w2), |ImageBlocks(update, chip.eraseSize)|)
    requires Wrote(chip, w2, end, |ImageBlocks(busy, chip.eraseSize)| + |ImageBlocks(fail, chip.eraseSize)|)
    ensures Wrote(chip, w, end, DataBlocks(update, busy, fail, chip.eraseSize))
  {
    hide Wrote, ImageBlocks;
    WroteTwice(chip, w, Some(w2), end, |ImageBlocks(update, chip.eraseSize)|,
      |ImageBlocks(busy, chip.eraseSize)| + |ImageBlocks(fail, chip.eraseSize)|);
  }

  lemma SectionsStop(chip: Chip, w: Writer, h: Header, imageStart: int, update: seq<byte>, busy: seq<byte>, fail: seq<byte>)
    requires w.pos <= chip.count && |w.buffer| < chip.eraseSize && 0 < chip.eraseSize
    requires Wrote(chip, w, None, |ImageBlocks(update, chip.eraseSize)|)
    requires var b := Added(chip, w, update); b.Some? ==> BitmapsRun(chip, b.value.w, busy, fail).None?
    ensures SectionsRun(chip, w, h, imageStart, update, busy, fail).None?
    ensures Wrote(chip, w, None, DataBlocks(update, busy, fail, chip.eraseSize))
  {
    NoneWrote(chip, w, |ImageBlocks(update, chip.eraseSize)|, DataBlocks(update, busy, fail, chip.eraseSize));
  }

  /** What the run of the sections takes from its parts when the first is finished. */
  lemma SectionsThen(chip: Chip, w: Writer, w2: Writer, h: Header, imageStart: int, update: seq<byte>,
      busy: seq<byte>, fail: seq<byte>)
    requires w.pos <= chip.count && |w.buffer| < chip.eraseSize
    requires Added(chip, w, update) == Some(Boundary(w2.pos, w2))
    ensures var r, maps := SectionsRun(chip, w, h, imageStart, update, busy, fail), BitmapsRun(chip, w2, busy, fail);
      && Ended(r) == Closed(maps) && (r.Some? <==> maps.Some?)
      && (r.Some? && maps.value.failStart != -1 && maps.value.tail != -1 ==>
            r.value.rep.imageStart == imageStart && AllWell(r.value.rep.(imageStart := 0), fail, chip.eraseSize))
  {
    hide Added, BitmapsRun, WriteStart;
  }

  lemma CloggedSections(chip: Chip, w: Writer, h: Header, imageStart: int, update: seq<byte>, busy: seq<byte>,
      fail: seq<byte>)
    requires PowerCutsOnly(chip) && Clogged(chip, w)
    ensures SectionsRun(chip, w, h, imageStart, update, busy, fail).None?
  {
    AddedToClogged(chip, w, update);
    var b := Added(chip, w, update);
    if b.Some? { CloggedBitmaps(chip, b.value.w, busy, fail); }
  }

  lemma SamePosition(chip: Chip, w: Writer, w': Writer)
    requires Between(chip, w) && Between(chip, w') && |w.placed| == |w'.placed|
    ensures w.pos == w'.pos
  {
    hide Good, OnGoodBlocks, OnlyBad, Increasing;
    if w.placed != [] { LastPlaced(chip, w); LastPlaced(chip, w'); }
  }

  lemma LastPlaced(chip: Chip, w: Writer)
    requires OnGoodBlocks(chip, w) && w.placed != []
    ensures w.placed[|w.placed|-1] == Good(chip.bad, chip.count, |w.placed| - 1)
  {
    hide Good;
  }

  lemma FirstRunWorks(chip: Chip, clock: nat, h: Header, update: seq<byte>, busy: seq<byte>, fail: seq<byte>)
    requires PowerCutsOnly(chip) && 0 < chip.eraseSize
    ensures var first, k := FirstRun(chip, clock, h, update, busy, fail), HeaderBlocks(chip.eraseSize);
      && Wrote(chip, Opened(clock), Ended(first), k + DataBlocks(update, busy, fail, chip.eraseSize))
      && (first.Some? ==>
            var rep, header := first.value.rep, Section(chip, Opened(clock), Fill(HEADER_BYTES, 0));
            && header.Some? && Between(chip, header.value) && |header.value.placed| == k
            && rep.imageStart == header.value.pos && AllWell(rep, fail, chip.eraseSize))
  {
    var w0, zeros := Opened(clock), Fill(HEADER_BYTES, 0);
    var first, a, done := FirstRun(chip, clock, h, update, busy, fail), Added(chip, w0, zeros), Section(chip, w0, zeros);
    assert Between(chip, w0);
    AddedWorks(chip, w0, zeros);
    hide Added, Section, SectionsRun, Between, Clogged, ImageBlocks, DataBlocks, Fill, Planned;
    if done.Some? {
      SectionsWork(chip, done.value, h, done.value.pos, update, busy, fail);
    } else if a.Some? {
      CloggedSections(chip, a.value.w, h, a.value.next, update, busy, fail);
    }
    WroteTwice(chip, w0, done, Ended(first), HeaderBlocks(chip.eraseSize), DataBlocks(update, busy, fail, chip.eraseSize));
  }

  lemma HeaderWorks(chip: Chip, clock: nat, bytes: seq<byte>, w1: Writer)
    requires PowerCutsOnly(chip) && 0 < chip.eraseSize && |bytes| == HEADER_BYTES
    requires Between(chip, w1) && |w1.placed| == HeaderBlocks(chip.eraseSize)
    ensures SecondRun(chip, clock, bytes, w1.pos).Some? <==> Enough(chip, 0, clock, HeaderBlocks(chip.eraseSize))
  {
    SameSize(bytes, Fill(HEADER_BYTES, 0), chip.eraseSize);
    var done := Section(chip, Opened(clock), bytes);
    assert Between(chip, Opened(clock));
    AddedWorks(chip, Opened(clock), bytes);
    if done.Some? { SamePosition(chip, done.value, w1); }
    hide Added, Section, ImageBlocks, Enough, Planned, Clogged, Put, Fill;
  }

  /** While only the power can fail, success is reported exactly if there is enough of
      everything, and then the layout is there. */
  lemma UpdateWorks(chip: Chip, clock: nat, h: Header, update: seq<byte>, busy: seq<byte>, fail: seq<byte>)
    requires PowerCutsOnly(chip) && 0 < chip.eraseSize
    ensures var r := UpdateRun(chip, clock, h, update, busy, fail);
      && (r.Some? <==> EnoughForUpdate(chip, clock, update, busy, fail))
      && (r.Some? ==> AllWell(r.value, fail, chip.eraseSize))
  {
    var first := FirstRun(chip, clock, h, update, busy, fail);
    FirstRunWorks(chip, clock, h, update, busy, fail);
    hide FirstRun, Section, SecondRun, Between, Encode, Enough, HeaderBlocks, DataBlocks, Fill, Planned;
    if first.Some? {
      var header := Section(chip, Opened(clock), Fill(HEADER_BYTES, 0)).value;
      HeaderWorks(chip, first.value.w.clock, Encode(first.value.rep.header, chip.eraseSize), header);
    }
  }
}
