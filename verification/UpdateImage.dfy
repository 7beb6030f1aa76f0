/** write_update_for_bootloader of bootloader.c: a blank header, three block-aligned
    sections, and then the real header written over the blank one. Positions count erase
    blocks, and -1 is the error value of the flash layer.

    The source ignores -1 from the calls that complete a section. What these calls return
    is a function of what happens to the operations of the run, and so is the result of
    the run; the theorem says exactly when a run that reports success has produced the
    layout it promises. */
module UpdateImage {
  import opened Wrappers  // Option
  import opened Bytes
  import opened Flash
  import opened Chunks
  import opened WriterModel
  import opened MtdWriter
  import opened UpdateLayout
  import opened UpdatePower
  import opened UpdateHeader

  /** The writer has gone past p, and blocks before p are as they were. */
  ghost predicate Above(out: MtdWriteContext, blocks: seq<Block>, p: nat)
    reads out, out.dev
  {
    p <= out.pos && SameBelow(blocks, out.dev.blocks, p)
  }

  method AddData(out: MtdWriteContext, data: seq<byte>, ghost blocks: seq<Block>, ghost p: nat) returns (ok: bool)
    requires out.Valid() && out.stored < out.dev.eraseSize && Above(out, blocks, p)
    modifies out, out.buffer, out.dev
    ensures out.Valid() && out.dev.Idle() && Above(out, blocks, p)
    ensures Feed(out.dev.Hardware(), old(out.View()), data) == if ok then Some(out.View()) else None
    ensures old(out.pos) <= out.pos && SameBelow(old(out.dev.blocks), out.dev.blocks, old(out.pos))
    ensures ok ==> SameFrom(old(out.dev.blocks), out.dev.blocks, out.pos)
    ensures old(out.OnPlan()) ==>
      if ok then out.OnPlan() else out.CutShort(Cut(old(out.given) + data, out.dev.eraseSize))
  {
    ghost var blocks0, p0 := out.dev.blocks, out.pos;
    var wrote := out.WriteData(data);
    assert p0 <= out.pos && SameBelow(blocks0, out.dev.blocks, p0);
    SameTwice(blocks, blocks0, out.dev.blocks, p, p0, out.pos);
    ok := wrote == |data|;
  }

  /** mtd_erase_blocks(write, 0) */
  method EndSection(out: MtdWriteContext) returns (next: int)
    requires out.Valid() && out.stored < out.dev.eraseSize
    modifies out, out.buffer, out.dev
    ensures out.Valid() && out.dev.Idle() && out.stored < out.dev.eraseSize
    ensures old(out.pos) <= out.pos && SameBelow(old(out.dev.blocks), out.dev.blocks, old(out.pos))
    ensures next != -1 ==> next == out.pos && out.stored == 0 && SameFrom(old(out.dev.blocks), out.dev.blocks, out.pos)
    ensures (next != -1, out.View()) == Flushed(out.dev.Hardware(), old(out.View()))
    ensures old(out.OnPlan()) ==>
      if next == -1 then out.CutShort(out.flushed + [out.buffer[..out.stored] + out.Padding()]) else out.OnPlan()
  {
    ghost var kept, padding := out.buffer[..out.stored], out.Padding();
    next := out.EraseBlocks(0);
    if next == -1 { assert out.buffer[..out.stored] == kept && out.Padding() == padding; }
  }

  /** One section: its data, and mtd_erase_blocks(write, 0) to complete its last block. */
  method AddSection(out: MtdWriteContext, data: seq<byte>, ghost blocks: seq<Block>, ghost p: nat) returns (ok: bool,
      next: int)
    requires out.Valid() && out.stored < out.dev.eraseSize && Above(out, blocks, p)
    modifies out, out.buffer, out.dev
    ensures out.Valid() && out.dev.Idle() && Above(out, blocks, p)
    ensures ok ==> out.stored < out.dev.eraseSize
    ensures ok && next != -1 ==>
      next == out.pos && out.stored == 0 && SameFrom(old(out.dev.blocks), out.dev.blocks, out.pos)
    ensures Added(out.dev.Hardware(), old(out.View()), data) == if ok then Some(Boundary(next, out.View())) else None
    ensures old(out.OnPlan()) ==>
      if !ok then out.CutShort(Cut(old(out.given) + data, out.dev.eraseSize))
      else if next == -1 then out.CutShort(out.flushed + [out.buffer[..out.stored] + out.Padding()])
      else out.OnPlan()
  {
    next := -1;
    ghost var blocks0, p0 := out.dev.blocks, out.pos;
    hide Feed, Flushed, Cut, SameBelow, SameFrom, Extends, MtdWriteContext.Settled, MtdWriteContext.OnPlan,
      MtdWriteContext.CutShort;
    ok := AddData(out, data, blocks, p);
    if !ok {
      return;
    }
    ghost var blocks1, p1 := out.dev.blocks, out.pos;
    next := EndSection(out);
    SameTwice(blocks, blocks1, out.dev.blocks, p, p1, out.pos);
    SameTwice(blocks0, blocks1, out.dev.blocks, p0, p1, out.pos);
  }

  // ---------------------------------------------------------------- the header, when the power fails

  ghost function FirstGood(dev: Device): nat { Good(dev.bad, dev.count, 0) }

  /** Nothing but the power fails, there is a good block, and the header fits into it. */
  ghost predicate Plain(dev: Device) {
    dev.OnlyPowerCuts() && FirstGood(dev) < dev.count && HEADER_BYTES <= dev.eraseSize
  }

  /** The block does not begin with the magic number. */
  predicate Dark(b: Block) { b != [] && b[0] != MAGIC[0] }

  /** The one block of a header. */
  function HeaderBlock(bytes: seq<byte>, e: nat): (b: Block)
    requires |bytes| <= e
    ensures |b| == e && bytes <= b
  {
    bytes + Fill(e - |bytes|, 0)
  }

  /** At most one block changed: it was erased, and then perhaps written. */
  ghost predicate OneBlock(blocks: seq<Block>, blocks': seq<Block>, g: nat, e: nat, b: Block) {
    g < |blocks| && (blocks' == blocks || blocks' == blocks[g := Fill(e, ERASED)] || blocks' == blocks[g := b])
  }

  lemma OneBlockChanged(dev: Device, blocks: seq<Block>, log: seq<Change>, b: Block, alive: bool)
    requires dev.Valid() && |blocks| == dev.count && Replays(dev.start, log, blocks)
    requires WithinPlan(dev, log, dev.log, [b], alive) && Good(dev.bad, dev.count, 0) < dev.count
    ensures OneBlock(blocks, dev.blocks, Good(dev.bad, dev.count, 0), dev.eraseSize, b) && !alive
  {
    var g, done := Good(dev.bad, dev.count, 0), dev.log[|log|..];
    LogApplied(dev.start, log, blocks, dev.log, dev.blocks);
    PlanOne(dev.bad, dev.count, dev.eraseSize, b);
    hide Good, Plan;
    ApplyTwo(blocks, done, Change(g, Fill(dev.eraseSize, ERASED)), Change(g, b));
  }

  lemma ApplyTwo(blocks: seq<Block>, done: seq<Change>, x: Change, y: Change)
    requires done <= [x, y] && x.at == y.at < |blocks|
    ensures Apply(blocks, done) ==
      if |done| == 0 then blocks else if |done| == 1 then blocks[x.at := x.content] else blocks[x.at := y.content]
  {
    assert Apply(blocks, []) == blocks;
    ApplyPush(blocks, [], x);
    ApplyPush(blocks, [x], y);
    assert [] + [x] == [x] && [x] + [y] == [x, y];
    assert done == [x, y][..|done|];
    if |done| == 0 {
      assert done == [];
    } else if |done| == 1 {
      assert done == [x];
    } else {
      assert done == [x, y];
      assert blocks[x.at := x.content][y.at := y.content] == blocks[x.at := y.content];
    }
  }

  /** The writer fell short of its first block. */
  lemma HeaderCut(out: MtdWriteContext, blocks: seq<Block>, b: Block)
    requires out.dev.Valid() && |blocks| == out.dev.count && Replays(out.dev.start, out.startLog, blocks)
    requires out.dev.OnlyPowerCuts() && out.CutShort([b]) && Good(out.dev.bad, out.dev.count, 0) < out.dev.count
    ensures OneBlock(blocks, out.dev.blocks, Good(out.dev.bad, out.dev.count, 0), out.dev.eraseSize, b) && !out.dev.Alive()
  {
    hide Good, WithinPlan, Replays, WellSized, OneBlock;
    OneBlockChanged(out.dev, blocks, out.startLog, b, out.dev.Alive());
  }

  /** The writer accepted its first block. */
  lemma HeaderWritten(out: MtdWriteContext, blocks: seq<Block>, b: Block)
    requires out.Valid() && |blocks| == out.dev.count && Replays(out.dev.start, out.startLog, blocks)
    requires out.dev.OnlyPowerCuts() && out.OnPlan() && out.flushed == [b]
    ensures var g := Good(out.dev.bad, out.dev.count, 0);
      g < out.dev.count && out.dev.blocks == blocks[g := b] && out.pos == g + 1
  {
    var dev, g := out.dev, Good(out.dev.bad, out.dev.count, 0);
    assert out.placed[0] == g < out.pos == g + 1;
    PlanOne(dev.bad, dev.count, dev.eraseSize, b);
    LogApplied(dev.start, out.startLog, blocks, dev.log, dev.blocks);
    var changes := [Change(g, Fill(dev.eraseSize, ERASED)), Change(g, b)];
    assert dev.log[|out.startLog|..] == changes;
    hide Good, Plan, Concat;
    ApplyTwo(blocks, changes, changes[0], changes[1]);
  }

  /** How far a header of at most one block gets. */
  lemma AddedHeader(chip: Chip, clock: nat, bytes: seq<byte>)
    requires 0 < |bytes| <= chip.eraseSize
    ensures var a, b := Added(chip, Opened(clock), bytes), HeaderBlock(bytes, chip.eraseSize);
      if a.None? then Cut([] + bytes, chip.eraseSize) == [b]
      else if a.value.next == -1 then
        a.value.w.flushed == [] && a.value.w.buffer != [] && a.value.w.buffer + ZerosFor(chip, a.value.w) == b
      else a.value.w.flushed == [b]
  {
    if |bytes| == chip.eraseSize { AddedWhole(chip, clock, bytes); } else { AddedPart(chip, clock, bytes); }
  }

  lemma AddedWhole(chip: Chip, clock: nat, bytes: seq<byte>)
    requires 0 < |bytes| == chip.eraseSize
    ensures var a, b := Added(chip, Opened(clock), bytes), HeaderBlock(bytes, chip.eraseSize);
      if a.None? then Cut([] + bytes, chip.eraseSize) == [b] else a.value.next != -1 && a.value.w.flushed == [b]
  {
    var b := HeaderBlock(bytes, chip.eraseSize);
    assert [] + bytes == bytes && [] + [b] == [b];
    assert bytes[..|bytes|] == bytes && bytes[|bytes|..] == [] && bytes + [] == bytes == b;
    FeedBlock(chip, Opened(clock), bytes, []);
    PutAccepts(chip, Opened(clock), bytes);
    var (ok, w) := Put(chip, Opened(clock), bytes);
    FeedNothing(chip, w);
    hide Feed, Put;
  }

  lemma AddedPart(chip: Chip, clock: nat, bytes: seq<byte>)
    requires 0 < |bytes| < chip.eraseSize
    ensures var a, b := Added(chip, Opened(clock), bytes), HeaderBlock(bytes, chip.eraseSize);
      && a.Some?
      && if a.value.next == -1 then
           a.value.w.flushed == [] && a.value.w.buffer != [] && a.value.w.buffer + ZerosFor(chip, a.value.w) == b
         else a.value.w.flushed == [b]
  {
    var b, w1 := HeaderBlock(bytes, chip.eraseSize), Opened(clock).(buffer := bytes);
    assert [] + bytes == bytes && [] + [b] == [b];
    assert Feed(chip, Opened(clock), bytes) == Some(w1);
    PutAccepts(chip, w1, b);
    hide Feed, Put;
  }

  /** The first section of a fresh writer, in one block: without block failures it is
      written, or the power fails before or after its erase or its write. */
  method HeaderSection(out: MtdWriteContext, bytes: seq<byte>) returns (ok: bool, next: int)
    requires out.Valid() && out.OnPlan() && out.startLog == out.dev.log && out.View() == Opened(out.dev.clock)
    requires |bytes| == HEADER_BYTES
    modifies out, out.buffer, out.dev
    ensures out.Valid() && out.dev.Idle()
    ensures ok ==> out.stored < out.dev.eraseSize
    ensures ok && next != -1 ==>
      next == out.pos && out.stored == 0 && SameFrom(old(out.dev.blocks), out.dev.blocks, out.pos)
    ensures Added(out.dev.Hardware(), old(out.View()), bytes) == if ok then Some(Boundary(next, out.View())) else None
    ensures Plain(out.dev) ==>
      var g, b := FirstGood(out.dev), HeaderBlock(bytes, out.dev.eraseSize);
      if ok && next != -1 then out.dev.blocks == old(out.dev.blocks)[g := b] && out.pos == g + 1
      else OneBlock(old(out.dev.blocks), out.dev.blocks, g, out.dev.eraseSize, b) && !out.dev.Alive()
  {
    ghost var blocks := out.dev.blocks;
    if HEADER_BYTES <= out.dev.eraseSize { AddedHeader(out.dev.Hardware(), out.dev.clock, bytes); }
    out.NothingBuffered();
    assert Above(out, blocks, out.pos);
    assert out.given == [] && Replays(out.dev.start, out.startLog, blocks) && |blocks| == out.dev.count;
    hide *;
    ok, next := AddSection(out, bytes, blocks, out.pos);
    if Plain(out.dev) { HeaderOutcome(out, blocks, bytes, ok, next); }
  }

  lemma HeaderOutcome(out: MtdWriteContext, blocks: seq<Block>, bytes: seq<byte>, ok: bool, next: int)
    requires out.Valid() && |blocks| == out.dev.count && Replays(out.dev.start, out.startLog, blocks)
    requires 0 < |bytes| <= out.dev.eraseSize && Plain(out.dev)
    requires var b := HeaderBlock(bytes, out.dev.eraseSize);
      if !ok then out.CutShort([b])
      else if next == -1 then
        out.CutShort(out.flushed + [out.buffer[..out.stored] + out.Padding()])
        && out.flushed == [] && out.buffer[..out.stored] + out.Padding() == b
      else out.OnPlan() && out.flushed == [b]
    ensures var g, b := FirstGood(out.dev), HeaderBlock(bytes, out.dev.eraseSize);
      if ok && next != -1 then out.dev.blocks == blocks[g := b] && out.pos == g + 1
      else OneBlock(blocks, out.dev.blocks, g, out.dev.eraseSize, b) && !out.dev.Alive()
  {
    hide Good, WithinPlan, OneBlock, MtdWriteContext.OnPlan, MtdWriteContext.CutShort;
    var b := HeaderBlock(bytes, out.dev.eraseSize);
    if ok && next != -1 {
      HeaderWritten(out, blocks, b);
    } else {
      assert [] + [b] == [b];
      HeaderCut(out, blocks, b);
    }
  }

  // ---------------------------------------------------------------- the program

  method CloseWriter(out: MtdWriteContext, ghost blocks: seq<Block>, ghost p: nat) returns (ok: bool)
    requires out.Valid() && Above(out, blocks, p)
    modifies out, out.buffer, out.dev
    ensures out.Valid() && out.dev.Idle() && Above(out, blocks, p)
    ensures old(out.stored) == 0 ==> ok && out.dev.log == old(out.dev.log) && out.dev.blocks == old(out.dev.blocks)
    ensures (ok, out.View()) == Flushed(out.dev.Hardware(), old(out.View()))
  {
    ghost var blocks0, p0 := out.dev.blocks, out.pos;
    hide Flushed, SameBelow, SameFrom, MtdWriteContext.Settled, MtdWriteContext.OnPlan, MtdWriteContext.CutShort;
    var r := out.Close();
    ok := r == 0;
    SameTwice(blocks, blocks0, out.dev.blocks, p, p0, out.pos);
  }

  /** The three sections and their offsets, up to closing the writer. */
  method ThreeSections(out: MtdWriteContext, h: Header, imageStart: int, update: seq<byte>, busy: seq<byte>, fail: seq<byte>,
      ghost blocks: seq<Block>, ghost p: nat) returns (ok: bool, header: Header)
    requires out.Valid() && out.stored < out.dev.eraseSize && Above(out, blocks, p)
    modifies out, out.buffer, out.dev
    ensures out.Valid() && out.dev.Idle() && Above(out, blocks, p)
    ensures var r := SectionsRun(out.dev.Hardware(), old(out.View()), h, imageStart, update, busy, fail);
      if ok then r.Some? && r.value.rep.imageStart == imageStart && r.value.rep.header == header && r.value.w == out.View()
      else r.None?
  {
    hide Added, Flushed, WriteStart, OnDevice, SameFrom, Above, MtdWriteContext.Settled, MtdWriteContext.OnPlan,
      MtdWriteContext.CutShort;
    header := h;
    var busyStart, failStart, tail;
    ok, busyStart := AddSection(out, update, blocks, p);
    if !ok {
      var _ := CloseWriter(out, blocks, p);
      return;
    }
    var imageOffset := out.FindWriteStart(imageStart);
    ok, failStart := AddSection(out, busy, blocks, p);
    if !ok {
      var _ := CloseWriter(out, blocks, p);
      return;
    }
    var busyOffset := out.FindWriteStart(busyStart);
    ok, tail := AddSection(out, fail, blocks, p);
    if !ok {
      var _ := CloseWriter(out, blocks, p);
      return;
    }
    var failOffset := out.FindWriteStart(failStart);
    header := header.(imageOffset := imageOffset, busyOffset := busyOffset, failOffset := failOffset);
    ok := CloseWriter(out, blocks, p);
  }

  /** Everything up to closing the first writer. */
  method FirstPass(dev: Device, h: Header, update: seq<byte>, busy: seq<byte>, fail: seq<byte>)
      returns (ok: bool, imageStart: int, header: Header)
    requires dev.Valid()
    modifies dev
    ensures dev.Valid()
    ensures var first := FirstRun(dev.Hardware(), old(dev.clock), h, update, busy, fail);
      && (ok <==> first.Some?)
      && (ok ==>
            var First(rep, w) := first.value;
            && imageStart == rep.imageStart && header == rep.header && dev.clock == w.clock
            && OnDevice(dev.blocks, w.placed, w.flushed, dev.eraseSize, w.pos))
    ensures Plain(dev) ==> (dev.blocks == old(dev.blocks) && !ok) || Dark(dev.blocks[FirstGood(dev)])
  {
    header := h;
    ghost var chip, clock := dev.Hardware(), dev.clock;
    var out := new MtdWriteContext(dev);
    hide Added, SectionsRun, OnDevice, OneBlock, Good, Replays, HeaderBlock, SameFrom, Above,
      MtdWriteContext.Valid, MtdWriteContext.OnPlan, MtdWriteContext.CutShort;
    ok, imageStart := HeaderSection(out, Fill(HEADER_BYTES, 0));
    ghost var blocks, log, p, done := dev.blocks, dev.log, out.pos, ok && imageStart != -1;
    AboveNow(out);
    AcceptedAreStored(out);
    if !ok {
      var _ := CloseWriter(out, blocks, p);
    } else {
      ok, header := ThreeSections(out, header, imageStart, update, busy, fail, blocks, p);
    }
    AcceptedAreStored(out);
    if Plain(dev) {
      if ok { HeaderEnd(chip, clock, h, update, busy, fail); }
      StillDark(out, old(dev.blocks), blocks, log, p, done);
    }
  }

  lemma AboveNow(out: MtdWriteContext)
    ensures Above(out, out.dev.blocks, out.pos)
  {
  }

  lemma AcceptedAreStored(out: MtdWriteContext)
    requires out.Valid()
    ensures OnDevice(out.dev.blocks, out.placed, out.flushed, out.dev.eraseSize, out.pos)
    ensures out.dev.Valid() && |out.dev.blocks| == out.dev.count && Replays(out.dev.start, out.dev.log, out.dev.blocks)
  {
    hide OnDevice, Replays;
  }

  /** Once the first block was touched it shows no magic number until the second pass. */
  lemma StillDark(out: MtdWriteContext, before: seq<Block>, blocks: seq<Block>, log: seq<Change>, p: nat, done: bool)
    requires out.Valid() && Plain(out.dev) && Above(out, blocks, p)
    requires |before| == |blocks| == out.dev.count && Replays(out.dev.start, log, blocks)
    requires var dev, g, b := out.dev, FirstGood(out.dev), HeaderBlock(Fill(HEADER_BYTES, 0), out.dev.eraseSize);
      if done then blocks == before[g := b] && p == g + 1
      else OneBlock(before, blocks, g, dev.eraseSize, b) && dev.log == log
    ensures (out.dev.blocks == before && !done) || Dark(out.dev.blocks[FirstGood(out.dev)])
  {
    if !done { LogApplied(out.dev.start, log, blocks, out.dev.log, out.dev.blocks); }
    hide Good;
  }

  /** The header again, over its placeholder: accepted only if it ends where the image starts. */
  method SecondPass(dev: Device, bytes: seq<byte>, imageStart: int) returns (ok: bool)
    requires dev.Valid() && |bytes| == HEADER_BYTES
    modifies dev
    ensures dev.Valid()
    ensures var second := SecondRun(dev.Hardware(), old(dev.clock), bytes, imageStart);
      && (ok <==> second.Some?)
      && (ok ==> OnDevice(dev.blocks, second.value.placed, second.value.flushed, dev.eraseSize, second.value.pos))
    ensures ok && imageStart != -1 ==> 0 <= imageStart && SameFrom(old(dev.blocks), dev.blocks, imageStart)
    ensures Plain(dev) ==>
      OneBlock(old(dev.blocks), dev.blocks, FirstGood(dev), dev.eraseSize, HeaderBlock(bytes, dev.eraseSize))
  {
    var out := new MtdWriteContext(dev);
    hide Added, Flushed, OnDevice, OneBlock, Good, Replays, HeaderBlock, SameFrom, Above,
      MtdWriteContext.Valid, MtdWriteContext.OnPlan, MtdWriteContext.CutShort;
    var end;
    ok, end := HeaderSection(out, bytes);
    ghost var blocks, log, done := dev.blocks, dev.log, ok && end != -1;
    AboveNow(out);
    AcceptedAreStored(out);
    if !ok || end != imageStart {
      var _ := CloseWriter(out, blocks, out.pos);
      AcceptedAreStored(out);
      if Plain(dev) { SecondOutcome(dev, old(dev.blocks), blocks, log, bytes, done); }
      return false;
    }
    ok := CloseWriter(out, blocks, out.pos);
    AcceptedAreStored(out);
    if Plain(dev) { SecondOutcome(dev, old(dev.blocks), blocks, log, bytes, done); }
  }

  /** Closing changes nothing after the header was written, or after the power failed. */
  lemma SecondOutcome(dev: Device, before: seq<Block>, blocks: seq<Block>, log: seq<Change>, bytes: seq<byte>, done: bool)
    requires dev.Valid() && Plain(dev) && |bytes| == HEADER_BYTES
    requires |before| == |blocks| == dev.count && Replays(dev.start, log, blocks)
    requires if done then blocks == dev.blocks == before[FirstGood(dev) := HeaderBlock(bytes, dev.eraseSize)]
      else OneBlock(before, blocks, FirstGood(dev), dev.eraseSize, HeaderBlock(bytes, dev.eraseSize)) && dev.log == log
    ensures OneBlock(before, dev.blocks, FirstGood(dev), dev.eraseSize, HeaderBlock(bytes, dev.eraseSize))
  {
    hide Good;
    if !done { LogApplied(dev.start, log, blocks, dev.log, dev.blocks); }
  }

  /** A header of at most one block has one block. */
  lemma OneHeaderBlock(bytes: seq<byte>, e: nat)
    requires 0 < |bytes| <= e
    ensures ImageBlocks(bytes, e) == [HeaderBlock(bytes, e)]
  {
    if |bytes| == e {
      BlocksFront(bytes, e);
      assert bytes[..e] == bytes == HeaderBlock(bytes, e) && bytes[e..] == [];
    } else {
      CutOfPadded([], bytes, e);
      assert Concat([]) + bytes == bytes && [] + [HeaderBlock(bytes, e)] == [HeaderBlock(bytes, e)];
    }
  }

  lemma HeaderAtFirst(blocks: seq<Block>, g: nat, bytes: seq<byte>, e: nat)
    requires 0 < |bytes| <= e && g < |blocks| && blocks[g] == HeaderBlock(bytes, e)
    ensures SectionAt(blocks, [g], bytes, e, g)
  {
    OneHeaderBlock(bytes, e);
  }

  /** A visible magic number is that of the second header, and what it refers to is there. */
  lemma VisibleLayout(chip: Chip, clock: nat, h: Header, update: seq<byte>, busy: seq<byte>, fail: seq<byte>,
      blocks: seq<Block>, blocks': seq<Block>, g: nat)
    requires PowerCutsOnly(chip) && HEADER_BYTES <= chip.eraseSize && |blocks| == chip.count
    requires g == Good(chip.bad, chip.count, 0) < chip.count && Dark(blocks[g])
    requires h.imageLength == |update| && h.busyLength == |busy| && h.failLength == |fail|
    requires FirstRun(chip, clock, h, update, busy, fail).Some?
    requires var First(rep, w) := FirstRun(chip, clock, h, update, busy, fail).value;
      && OnDevice(blocks, w.placed, w.flushed, chip.eraseSize, w.pos)
      && OneBlock(blocks, blocks', g, chip.eraseSize, HeaderBlock(Encode(rep.header, chip.eraseSize), chip.eraseSize))
    requires MAGIC <= blocks'[g]
    ensures Layout(blocks', chip.eraseSize, FirstRun(chip, clock, h, update, busy, fail).value.rep.(headerAt := [g]), update, busy, fail)
  {
    var rep := FirstRun(chip, clock, h, update, busy, fail).value.rep;
    assert blocks' == blocks[g := HeaderBlock(Encode(rep.header, chip.eraseSize), chip.eraseSize)];
    HeaderEnd(chip, clock, h, update, busy, fail);
    FirstRunSections(chip, clock, h, update, busy, fail, blocks);
    LengthsKept(chip, clock, h, update, busy, fail);
    hide FirstRun, OnDevice, Encode, Sections, SectionAt, Good, OneBlock, Dark, HeaderBlock;
    HeaderAtFirst(blocks', g, Encode(rep.header, chip.eraseSize), chip.eraseSize);
    SectionsStay(blocks, blocks', chip.eraseSize, rep, update, busy, fail);
    SectionsOf(blocks', chip.eraseSize, rep, [g], update, busy, fail);
  }

  /** When the header fits into a block, the image starts behind the first good one. */
  lemma HeaderEnd(chip: Chip, clock: nat, h: Header, update: seq<byte>, busy: seq<byte>, fail: seq<byte>)
    requires PowerCutsOnly(chip) && HEADER_BYTES <= chip.eraseSize && FirstRun(chip, clock, h, update, busy, fail).Some?
    ensures var rep := FirstRun(chip, clock, h, update, busy, fail).value.rep;
      AllWell(rep, fail, chip.eraseSize) && rep.imageStart == Good(chip.bad, chip.count, 0) + 1
  {
    FirstRunWorks(chip, clock, h, update, busy, fail);
    OneHeaderBlock(Fill(HEADER_BYTES, 0), chip.eraseSize);
    var header := Section(chip, Opened(clock), Fill(HEADER_BYTES, 0)).value;
    assert |header.placed| == 1 by { hide FirstRun, Section, ImageBlocks; }
    hide FirstRun, Section, Good, ImageBlocks, Fill;
    LastPlaced(chip, header);
  }

  /** What is on the device afterwards, by its result: the promised layout exactly if all
      went well, and a visible magic number only with the layout. */
  ghost predicate Leaves(dev: Device, clock: nat, before: seq<Block>, h: Header, update: seq<byte>, busy: seq<byte>,
      fail: seq<byte>, r: int)
    requires dev.eraseSize > 0 && dev.Valid()
    reads dev
  {
    var chip := dev.Hardware();
    var first, run := FirstRun(chip, clock, h, update, busy, fail), UpdateRun(chip, clock, h, update, busy, fail);
    && r == (if run.Some? then 0 else -1)
    && (r == 0 ==>
          && OffsetsOnly(run.value.header, h)
          && (Layout(dev.blocks, dev.eraseSize, run.value, update, busy, fail) <==> AllWell(run.value, fail, dev.eraseSize)))
    && (Plain(dev) && MAGIC <= dev.blocks[FirstGood(dev)] && dev.blocks != before ==>
          && first.Some?
          && Layout(dev.blocks, dev.eraseSize, first.value.rep.(headerAt := [FirstGood(dev)]), update, busy, fail))
  }

  /** write_update_for_bootloader: 0 on success, -1 otherwise. When it reports success, the
      promised layout is on the device if and only if the three section starts are
      positions and completing the last section either worked or did not decide where it
      begins. Then, and whenever a magic number shows up, a reader finds the header's words
      at their places and each section where the header says. */
  method WriteUpdateForBootloader(dev: Device, update: seq<byte>, width: nat, height: nat, bpp: nat, busy: seq<byte>,
      fail: seq<byte>)
      returns (r: int)
    requires dev.Valid() && |busy| == |fail| == (bpp + 7) / 8 * width * height
    modifies dev
    ensures dev.Valid()
    ensures Leaves(dev, old(dev.clock), old(dev.blocks), Blank(update, width, height, bpp, busy, fail), update, busy, fail, r)
    ensures var run := UpdateRun(dev.Hardware(), old(dev.clock), Blank(update, width, height, bpp, busy, fail), update, busy, fail);
      r == 0 && AllWell(run.value, fail, dev.eraseSize) ==>
        ReportFound(dev.blocks, dev.eraseSize, run.value, update, width, height, bpp, busy, fail)
    ensures var first := FirstRun(dev.Hardware(), old(dev.clock), Blank(update, width, height, bpp, busy, fail), update, busy, fail);
      Plain(dev) && MAGIC <= dev.blocks[FirstGood(dev)] && dev.blocks != old(dev.blocks) ==>
        first.Some? &&
        ReportFound(dev.blocks, dev.eraseSize, first.value.rep.(headerAt := [FirstGood(dev)]), update, width, height, bpp, busy, fail)
    ensures dev.OnlyPowerCuts() ==>
      && (r == 0 <==> EnoughForUpdate(dev.Hardware(), old(dev.clock), update, busy, fail))
      && (r == 0 ==>
            var run := UpdateRun(dev.Hardware(), old(dev.clock), Blank(update, width, height, bpp, busy, fail), update, busy, fail);
            AllWell(run.value, fail, dev.eraseSize))
  {
    var header := Blank(update, width, height, bpp, busy, fail);
    ghost var h, chip, clock, before := header, dev.Hardware(), dev.clock, dev.blocks;
    if dev.OnlyPowerCuts() { UpdateWorks(chip, clock, h, update, busy, fail); }
    r := TwoPasses(dev, header, update, busy, fail);
    LeavesFound(dev, clock, before, h, update, busy, fail, r);
  }

  lemma LeavesFound(dev: Device, clock: nat, before: seq<Block>, h: Header, update: seq<byte>, busy: seq<byte>,
      fail: seq<byte>, r: int)
    requires dev.eraseSize > 0 && dev.Valid() && Leaves(dev, clock, before, h, update, busy, fail, r)
    ensures var run := UpdateRun(dev.Hardware(), clock, h, update, busy, fail);
      r == 0 && AllWell(run.value, fail, dev.eraseSize) ==>
        ReportFound(dev.blocks, dev.eraseSize, run.value, update, h.bitmapWidth, h.bitmapHeight, h.bitmapBpp, busy, fail)
    ensures var first := FirstRun(dev.Hardware(), clock, h, update, busy, fail);
      Plain(dev) && MAGIC <= dev.blocks[FirstGood(dev)] && dev.blocks != before ==>
        first.Some? &&
        ReportFound(dev.blocks, dev.eraseSize, first.value.rep.(headerAt := [FirstGood(dev)]), update,
          h.bitmapWidth, h.bitmapHeight, h.bitmapBpp, busy, fail)
  {
    var run := UpdateRun(dev.Hardware(), clock, h, update, busy, fail);
    var first := FirstRun(dev.Hardware(), clock, h, update, busy, fail);
    hide UpdateRun, FirstRun, Layout, ReportFound, OffsetsOnly, Good, AllWell;
    if r == 0 && AllWell(run.value, fail, dev.eraseSize) {
      LayoutIsFound(dev.blocks, dev.eraseSize, run.value, h, update, busy, fail);
    }
    if first.Some? && Layout(dev.blocks, dev.eraseSize, first.value.rep.(headerAt := [FirstGood(dev)]), update, busy, fail) {
      LengthsKept(dev.Hardware(), clock, h, update, busy, fail);
      LayoutIsFound(dev.blocks, dev.eraseSize, first.value.rep.(headerAt := [FirstGood(dev)]), h, update, busy, fail);
    }
  }

  method TwoPasses(dev: Device, h: Header, update: seq<byte>, busy: seq<byte>, fail: seq<byte>) returns (r: int)
    requires dev.Valid() && h.imageLength == |update| && h.busyLength == |busy| && h.failLength == |fail|
    modifies dev
    ensures dev.Valid() && Leaves(dev, old(dev.clock), old(dev.blocks), h, update, busy, fail, r)
  {
    hide Added, Flushed, OnDevice, Encode, FirstRun, SecondRun, Layout, AllWell, OneBlock, Good, HeaderBlock, SameFrom;
    ghost var chip, clock := dev.Hardware(), dev.clock;
    var ok, imageStart, header;
    ok, imageStart, header := FirstPass(dev, h, update, busy, fail);
    if !ok {
      NoMagic(dev);
      return -1;
    }
    ghost var blocks := dev.blocks;
    ok := SecondPass(dev, Encode(header, dev.eraseSize), imageStart);
    r := if ok then 0 else -1;
    if ok {
      LengthsKept(chip, clock, h, update, busy, fail);
      LayoutDecided(chip, clock, h, update, busy, fail, blocks, dev.blocks);
    }
    if Plain(dev) && MAGIC <= dev.blocks[FirstGood(dev)] {
      VisibleLayout(chip, clock, h, update, busy, fail, blocks, dev.blocks, FirstGood(dev));
    }
  }

  lemma NoMagic(dev: Device)
    requires dev.Valid()
    ensures Plain(dev) && Dark(dev.blocks[FirstGood(dev)]) ==> !(MAGIC <= dev.blocks[FirstGood(dev)])
  {
  }
}
