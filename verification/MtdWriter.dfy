/** The write side of mtdutils/mtdutils.c: a block buffer over a partition, with skipping
    of factory-bad blocks, one retry, read-back verification, and the list of skipped
    positions. */
module MtdWriter {
  import opened Wrappers  // Option
  import opened Bytes
  import opened Flash
  import opened Chunks
  import opened WriterModel

  /** The blocks were stored in this order, at increasing positions before p. */
  ghost predicate OnDevice(blocks: seq<Block>, placed: seq<nat>, flushed: seq<Block>, e: nat, p: nat) {
    && p <= |blocks| && |placed| == |flushed| && AllSized(flushed, e)
    && Increasing(placed) && Below(placed, p)
    && (forall i | 0 <= i < |placed| :: blocks[placed[i]] == flushed[i])
  }

  lemma OnDeviceKeeps(blocks: seq<Block>, blocks': seq<Block>, placed: seq<nat>, flushed: seq<Block>, e: nat, p: nat,
      p': nat)
    requires OnDevice(blocks, placed, flushed, e, p) && |blocks'| == |blocks| && p <= p' <= |blocks|
    requires forall i | 0 <= i < p :: blocks'[i] == blocks[i]
    ensures OnDevice(blocks', placed, flushed, e, p')
  {
  }

  lemma OnDeviceGrows(blocks: seq<Block>, placed: seq<nat>, flushed: seq<Block>, e: nat, p: nat, q: nat, data: Block)
    requires OnDevice(blocks, placed, flushed, e, p) && p < q <= |blocks| && |data| == e
    requires blocks[q - 1] == data
    ensures OnDevice(blocks, placed + [q - 1], flushed + [data], e, q)
  {
  }

  /** What the search for a block did between positions p and p': it changed nothing
      outside, and stored the data last unless it failed. */
  ghost predicate Passed(blocks: seq<Block>, blocks': seq<Block>, p: nat, p': nat, data: Block, r: int) {
    && p <= p' <= |blocks| == |blocks'|
    && (forall i | 0 <= i < p :: blocks'[i] == blocks[i])
    && if r == 0
       then p < p' && blocks'[p' - 1] == data && forall i | p' <= i < |blocks| :: blocks'[i] == blocks[i]
       else r == -1
  }

  /** The same when nothing but the power fails. */
  ghost predicate Stepped(dev: Device, log: seq<Change>, log': seq<Change>, p: nat, p': nat, data: Block, r: int,
      alive: bool)
    requires p <= dev.count
  {
    var q := NextGood(dev.bad, dev.count, p);
    && log <= log' && log'[|log|..] <= Steps(dev, q, data)
    && (r == 0 ==> q < dev.count && p' == q + 1 && log' == log + Steps(dev, q, data))
    && (r == -1 && alive ==> q == dev.count)
  }

  /** How many blocks of this range are not factory-bad. */
  function GoodBetween(bad: set<nat>, first: nat, end: nat): nat
    requires first <= end
  {
    if first == end then 0 else GoodBetween(bad, first, end - 1) + if end - 1 in bad then 0 else 1
  }

  function AfterErase(block: Block, chip: Chip, n: nat, first: nat, i: nat): Block
    requires first <= i
  {
    if i in chip.bad then block
    else StoredAt(chip.fates, n + GoodBetween(chip.bad, first, i), Fill(chip.eraseSize, 0xFF), block, chip.eraseSize)
  }

  /** Each good block of the range met one erase, in order, from the n-th operation on, and
      is erased if that worked; nothing else from `first` on has changed. */
  ghost predicate EraseTried(blocks: seq<Block>, blocks': seq<Block>, chip: Chip, n: nat, first: nat, end: nat)
    requires first <= end
  {
    && first <= end <= |blocks| == |blocks'|
    && forall i | first <= i < |blocks| ::
      blocks'[i] == if i < end then AfterErase(blocks[i], chip, n, first, i) else blocks[i]
  }

  lemma EraseStep(blocks: seq<Block>, before: seq<Block>, after: seq<Block>, chip: Chip, n: nat, clock: nat, first: nat, p: nat)
    requires first <= p < |blocks| == |after| && EraseTried(blocks, before, chip, n, first, p)
    requires clock == n + GoodBetween(chip.bad, first, p)
    requires forall i | 0 <= i < |blocks| && i != p :: after[i] == before[i]
    requires after[p] == AfterErase(before[p], chip, n, first, p)
    ensures EraseTried(blocks, after, chip, n, first, p + 1)
  {
    hide AfterErase;
  }

  /** A good block whose erase worked is erased, and nothing else behind has changed. */
  lemma ErasedIfWorking(blocks: seq<Block>, blocks': seq<Block>, chip: Chip, n: nat, first: nat, end: nat, i: nat)
    requires first <= end && EraseTried(blocks, blocks', chip, n, first, end) && first <= i < |blocks|
    ensures i < end && i !in chip.bad && WorksAt(chip.fates, n + GoodBetween(chip.bad, first, i)) ==>
      blocks'[i] == Fill(chip.eraseSize, 0xFF)
    ensures end <= i || i in chip.bad ==> blocks'[i] == blocks[i]
  {
  }

  /** The blocks of a range that are not factory-bad, counted. */
  lemma {:induction false} GoodBetweenCounts(bad: set<nat>, first: nat, end: nat)
    requires first <= end
    ensures GoodBetween(bad, first, end) == |set i | first <= i < end && i !in bad|
  {
    var now := set i | first <= i < end && i !in bad;
    if first == end {
      assert now == {};
    } else {
      GoodBetweenCounts(bad, first, end - 1);
      var before := set i | first <= i < end - 1 && i !in bad;
      assert now == if end - 1 in bad then before else before + {end - 1};
    }
  }

  ghost predicate SameBelow(blocks: seq<Block>, blocks': seq<Block>, p: nat) {
    |blocks| == |blocks'| && forall i | 0 <= i < p && i < |blocks| :: blocks'[i] == blocks[i]
  }

  ghost predicate SameFrom(blocks: seq<Block>, blocks': seq<Block>, p: nat) {
    |blocks| == |blocks'| && forall i | p <= i < |blocks| :: blocks'[i] == blocks[i]
  }

  lemma SameTwice(blocks: seq<Block>, blocks1: seq<Block>, blocks2: seq<Block>, p: nat, p1: nat, p2: nat)
    requires SameBelow(blocks, blocks1, p) && SameBelow(blocks1, blocks2, p1) && p <= p1
    ensures SameBelow(blocks, blocks2, p)
    ensures p1 <= p2 && SameFrom(blocks, blocks1, p1) && SameFrom(blocks1, blocks2, p2) ==> SameFrom(blocks, blocks2, p2)
  {
  }

  class MtdWriteContext {
    const dev: Device
    const buffer: array<byte>
    var stored: nat
    var pos: nat                   // file offset, in erase blocks
    var badBlocks: seq<nat>        // bad_block_offsets
    ghost var placed: seq<nat>     // where the accepted blocks went
    ghost var flushed: seq<Block>  // the accepted blocks
    ghost var given: seq<byte>     // every byte accepted from the caller, and padding
    ghost const startLog: seq<Change>

    /** What was accepted is on the device, in order. */
    ghost predicate Settled()
      reads this`placed, this`pos, this`flushed, dev
    {
      dev.Valid() && pos <= dev.count && OnDevice(dev.blocks, placed, flushed, dev.eraseSize, pos)
    }

    /** Holds between calls whether or not one has failed: the accepted blocks together
        with the buffer are all that was given. */
    ghost predicate Valid()
      reads this, dev, buffer
    {
      && Settled() && buffer.Length == dev.eraseSize && stored <= dev.eraseSize
      && given == Concat(flushed) + buffer[..stored]
    }

    /** Without block failures the accepted blocks sit on the good blocks in order, and the
        device changed exactly as planned. */
    ghost predicate OnPlan()
      reads this`placed, this`pos, this`flushed, dev
    {
      dev.OnlyPowerCuts() ==> FollowsPlan(dev, startLog, dev.log, placed, pos, flushed)
    }

    /** What a failed call leaves behind when nothing but the power fails. */
    ghost predicate CutShort(blocks: seq<Block>)
      reads dev
    {
      dev.OnlyPowerCuts() ==> WithinPlan(dev, startLog, dev.log, blocks, dev.Alive())
    }

    /** The writer's own state. */
    ghost function View(): (w: Writer)
      requires stored <= buffer.Length
      reads this, buffer, dev`clock
    {
      Writer(dev.clock, pos, buffer[..stored], badBlocks, placed, flushed)
    }

    constructor (dev: Device)
      requires dev.Valid()
      ensures this.dev == dev && fresh(buffer)
      ensures Valid() && OnPlan() && startLog == dev.log
      ensures View() == Opened(dev.clock) && given == []
    {
      this.dev := dev;
      buffer := new byte[dev.eraseSize];
      stored, pos, badBlocks := 0, 0, [];
      placed, flushed, given, startLog := [], [], [], dev.log;
      new;
      assert buffer[..0] == [];
    }

    /** One attempt at one block: erase, write, read back, compare. */
    method TryBlock(at: nat, data: Block) returns (ok: bool)
      requires dev.Valid() && at < dev.count && |data| == dev.eraseSize
      modifies this`pos, dev
      ensures dev.Advanced() && (pos == old(pos) || at <= pos <= at + 1)
      ensures forall i | 0 <= i < dev.count && i != at :: dev.blocks[i] == old(dev.blocks[i])
      ensures ok ==> dev.blocks[at] == data && pos == at + 1
      ensures Tried(ok, pos, dev.clock) == Attempt(dev.fates, old(dev.clock), at, old(pos), data)
      ensures dev.OnlyPowerCuts() ==>
        && dev.log[|old(dev.log)|..] <= Steps(dev, at, data)
        && (ok ==> dev.log == old(dev.log) + Steps(dev, at, data))
        && (ok || !dev.Alive())
    {
      var erased := dev.Erase(at);
      if !erased {
        return false;
      }
      dev.Program(at, data);
      var readOk, verify := dev.Read(at);
      pos := if readOk then at + 1 else at;
      ok := readOk && verify == data;
    }

    /** Two attempts; a block that takes neither is erased once more and given up. */
    method RetryBlock(at: nat, data: Block) returns (ok: bool)
      requires dev.Valid() && at < dev.count && |data| == dev.eraseSize
      modifies this`pos, dev
      ensures dev.Advanced() && (pos == old(pos) || at <= pos <= at + 1)
      ensures forall i | 0 <= i < dev.count && i != at :: dev.blocks[i] == old(dev.blocks[i])
      ensures ok ==> dev.blocks[at] == data && pos == at + 1
      ensures dev.OnlyPowerCuts() ==>
        && dev.log[|old(dev.log)|..] <= Steps(dev, at, data)
        && (ok ==> dev.log == old(dev.log) + Steps(dev, at, data))
        && (ok || !dev.Alive())
      ensures Tried(ok, pos, dev.clock) == TwoAttempts(dev.fates, old(dev.clock), at, old(pos), data)
    {
      hide Attempt;
      ghost var first := Attempt(dev.fates, old(dev.clock), at, old(pos), data);
      for retry := 0 to 2
        invariant retry == 0 ==> dev.clock == old(dev.clock) && pos == old(pos)
        invariant retry > 0 ==> !first.ok
        invariant retry == 1 ==> Tried(false, pos, dev.clock) == first
        invariant retry == 2 ==> Tried(false, pos, dev.clock) == Attempt(dev.fates, first.next, at, first.off, data)
        invariant dev.Advanced() && (pos == old(pos) || at <= pos <= at + 1)
        invariant forall i | 0 <= i < dev.count && i != at :: dev.blocks[i] == old(dev.blocks[i])
        invariant dev.OnlyPowerCuts() ==>
          && dev.log[|old(dev.log)|..] <= Steps(dev, at, data)
          && (if retry == 0 then dev.log == old(dev.log) else !dev.Alive())
      {
        ok := TryBlock(at, data);
        if ok {
          return;
        }
      }
      var _ := dev.Erase(at);
      ok := false;
    }

    /** The loop over the positions. */
    method FindBlock(data: Block) returns (r: int)
      requires dev.Valid() && pos <= dev.count && |data| == dev.eraseSize
      modifies this`pos, this`badBlocks, dev
      ensures dev.Valid() && dev.Idle()
      ensures Passed(old(dev.blocks), dev.blocks, old(pos), pos, data, r)
      ensures dev.OnlyPowerCuts() ==> Stepped(dev, old(dev.log), dev.log, old(pos), pos, data, r, dev.Alive())
      ensures var l := Landing(dev.Hardware(), old(dev.clock), old(pos), old(pos), data);
        && l == Landed(if r == 0 then Some(pos - 1) else None, pos, dev.clock)
        && badBlocks == old(badBlocks) + Range(old(pos), if r == 0 then pos - 1 else dev.count)
    {
      hide TwoAttempts;
      var p := pos;
      ghost var q := NextGood(dev.bad, dev.count, old(pos));
      while p < dev.count
        invariant old(pos) <= p <= dev.count && old(pos) <= pos <= p
        invariant dev.Advanced()
        invariant badBlocks == old(badBlocks) + Range(old(pos), p)
        invariant forall i | 0 <= i < dev.count && !(old(pos) <= i < p) :: dev.blocks[i] == old(dev.blocks[i])
        invariant Unharmed(dev, old(dev.log), q, data, p)
        invariant Landing(dev.Hardware(), old(dev.clock), old(pos), old(pos), data) ==
          Landing(dev.Hardware(), dev.clock, p, pos, data)
      {
        if p in dev.bad {
          badBlocks := badBlocks + [p];
          p := p + 1;
          continue;
        }
        var done := RetryBlock(p, data);
        if done {
          return 0;
        }
        badBlocks := badBlocks + [p];
        p := p + 1;
      }
      r := -1;
    }

    /** write_block: the search for a block that takes the data. Every position passed over
        is recorded, a failed block after one more erase. */
    method PutBlock(data: Block) returns (r: int)
      requires dev.Valid() && pos <= dev.count && |data| == dev.eraseSize && stored <= buffer.Length
      modifies this`pos, this`badBlocks, this`placed, this`flushed, dev
      ensures dev.Valid() && dev.Idle()
      ensures Passed(old(dev.blocks), dev.blocks, old(pos), pos, data, r)
      ensures dev.OnlyPowerCuts() ==> Stepped(dev, old(dev.log), dev.log, old(pos), pos, data, r, dev.Alive())
      ensures (r == 0, View()) == Put(dev.Hardware(), old(View()), data)
    {
      r := FindBlock(data);
      if r == 0 {
        ghost var at: nat := pos - 1;
        placed, flushed := placed + [at], flushed + [data];
      }
    }

    twostate predicate Kept()
      requires old(Settled())
      reads this`pos, this`placed, this`flushed, dev
    {
      && Settled() && dev.Idle()
      && Extends(old(placed), placed, old(flushed), flushed, old(pos), pos)
      && SameBelow(old(dev.blocks), dev.blocks, old(pos))
    }

    /** The search, with the ghost record of what was accepted. */
    method AcceptBlock(data: Block) returns (r: int)
      requires Settled() && |data| == dev.eraseSize && stored <= buffer.Length
      modifies this`pos, this`badBlocks, this`placed, this`flushed, dev
      ensures Kept() && (r == 0 || r == -1)
      ensures r == 0 ==> SameFrom(old(dev.blocks), dev.blocks, pos)
      ensures r == 0 ==> old(pos) < pos && placed == old(placed) + [pos - 1] && flushed == old(flushed) + [data]
      ensures r == -1 ==> flushed == old(flushed)
      ensures dev.OnlyPowerCuts() ==> Stepped(dev, old(dev.log), dev.log, old(pos), pos, data, r, dev.Alive())
      ensures (r == 0, View()) == Put(dev.Hardware(), old(View()), data)
    {
      ghost var blocks, placed0, flushed0, p := dev.blocks, placed, flushed, pos;
      hide *;
      r := PutBlock(data);
      Accept(blocks, dev.blocks, placed0, flushed0, dev.eraseSize, p, pos, data, r);
    }

    twostate predicate KeptAll()
      requires old(Settled())
      reads this`pos, this`placed, this`flushed, dev
    {
      && Kept()
      && SameFrom(old(dev.blocks), dev.blocks, pos)
      && (old(OnPlan()) ==> OnPlan())
    }

    /** write_block, and what is left of the plan. */
    method WriteBlock(data: Block) returns (r: int)
      requires Settled() && |data| == dev.eraseSize && stored <= buffer.Length
      modifies this`pos, this`badBlocks, this`placed, this`flushed, dev
      ensures Settled() && Kept() && (r == 0 || r == -1)
      ensures r == 0 ==> KeptAll()
      ensures r == -1 && old(OnPlan()) ==> CutShort(flushed + [data])
      ensures (r == 0, View()) == Put(dev.Hardware(), old(View()), data)
    {
      assert |placed| == |flushed| && pos <= dev.count;
      ghost var log, placed0, flushed0, p := dev.log, placed, flushed, pos;
      ghost var planned := dev.OnlyPowerCuts() && OnPlan();
      hide *;
      r := AcceptBlock(data);
      if planned {
        PlanCut(dev, startLog, log, dev.log, placed0, p, flushed0, data, pos, r, dev.Alive());
      }
    }

    // ---------------------------------------------------------------- the stream

    /** What every call keeps: accepted blocks stay where they are. */
    twostate predicate Progress()
      requires old(Valid())
      reads this, dev, buffer
    {
      Valid() && Kept()
    }

    /** Until something fails, the skipped list stays exact and the device on plan, and
        blocks not yet reached are untouched. */
    twostate predicate Success()
      requires old(Valid())
      reads this, dev, buffer
    {
      Valid() && KeptAll()
    }

    /** Copies as much as fits into the block buffer. */
    method Store(data: seq<byte>) returns (copied: nat)
      requires Valid()
      modifies this`stored, this`given, buffer
      ensures Valid() && copied <= |data| && given == old(given) + data[..copied]
      ensures stored == old(stored) + copied && (copied == |data| || stored == dev.eraseSize)
      ensures buffer[..stored] == old(buffer[..stored]) + data[..copied]
    {
      var avail := dev.eraseSize - stored;
      copied := if |data| < avail then |data| else avail;
      ghost var kept := buffer[..stored];
      forall k | 0 <= k < copied { buffer[stored + k] := data[k]; }
      stored, given := stored + copied, given + data[..copied];
      assert buffer[..stored] == kept + data[..copied];
    }

    /** The effect of a block write on the stream: nothing more than the ghost account. */
    method Emit(data: Block) returns (r: int)
      requires Settled() && |data| == dev.eraseSize && stored <= buffer.Length
      modifies this`pos, this`badBlocks, this`placed, this`flushed, dev
      ensures Settled() && Kept() && (r == 0 || r == -1)
      ensures r == 0 ==> KeptAll() && Concat(flushed) == old(Concat(flushed)) + data
      ensures r == -1 ==> flushed == old(flushed)
      ensures r == -1 && old(OnPlan()) ==> CutShort(flushed + [data])
      ensures (r == 0, View()) == Put(dev.Hardware(), old(View()), data)
    {
      ConcatPush(flushed, data);
      PutAccepts(dev.Hardware(), View(), data);
      hide *;
      r := WriteBlock(data);
    }

    /** Writes the full block buffer. */
    method EmitBuffer() returns (r: int)
      requires Valid() && stored == dev.eraseSize
      modifies this, dev
      ensures Progress() && (r == 0 || r == -1)
      ensures r == 0 ==> Success() && given == old(given)
      ensures r == -1 ==> given == old(given) && stored == old(stored) && flushed == old(flushed)
      ensures r == -1 && old(OnPlan()) ==> CutShort(flushed + [buffer[..]])
      ensures var (ok, w) := Put(dev.Hardware(), old(View()), old(buffer[..]));
        ok == (r == 0) && (ok ==> View() == w.(buffer := []))
    {
      hide Settled, OnPlan, CutShort, Kept, KeptAll, Concat, Put;
      assert buffer[..] == buffer[..stored];
      r := Emit(buffer[..]);
      if r == 0 {
        stored := 0;
        assert buffer[..0] == [];
      }
    }

    /** Writes one block of the caller's data past the empty buffer. */
    method EmitDirect(data: Block) returns (r: int)
      requires Valid() && stored == 0 && |data| == dev.eraseSize
      modifies this, dev
      ensures Progress() && (r == 0 || r == -1)
      ensures r == 0 ==> Success() && stored == 0 && given == old(given) + data
      ensures r == -1 ==> given == old(given) && flushed == old(flushed)
      ensures r == -1 && old(OnPlan()) ==> CutShort(flushed + [data])
      ensures (r == 0, View()) == Put(dev.Hardware(), old(View()), data)
    {
      hide Settled, OnPlan, CutShort, Kept, KeptAll, Concat, Put;
      r := Emit(data);
      if r == 0 {
        given := given + data;
        assert buffer[..0] == [];
      }
    }

    lemma NothingBuffered()
      requires Valid()
      ensures stored == 0 ==> given == Concat(flushed)
    {
      hide Concat;
      assert buffer[..0] == [];
    }

    /** Falling short of the next block is falling short of any longer stream. */
    lemma ShortOf(data: Block, rest: seq<byte>)
      requires Valid() && |data| == dev.eraseSize
      ensures CutShort(flushed + [data]) ==> CutShort(Cut(Concat(flushed) + data + rest, dev.eraseSize))
    {
      if dev.OnlyPowerCuts() && CutShort(flushed + [data]) {
        WithinLonger(dev, startLog, dev.log, flushed, data, rest, dev.Alive());
      }
    }

    /** Feeding the writer `before` this data is feeding it now the rest. */
    ghost predicate Fed(before: Writer, data: seq<byte>, rest: seq<byte>)
      requires Valid() && before.pos <= dev.count && |before.buffer| < dev.eraseSize
      reads this, buffer, dev
    {
      stored < dev.eraseSize && Feed(dev.Hardware(), before, data) == Feed(dev.Hardware(), View(), rest)
    }

    /** The inner loop: whole blocks straight from the caller's data. */
    method WriteWhole(data: seq<byte>) returns (r: int, wrote: nat)
      requires Valid() && stored < dev.eraseSize
      modifies this, dev
      ensures Progress() && (r == 0 || r == -1) && wrote <= |data|
      ensures r == 0 ==> Success() && given == old(given) + data[..wrote]
      ensures r == 0 && old(stored) == 0 && |data| >= dev.eraseSize ==> wrote > 0
      ensures r == -1 && old(OnPlan()) ==> CutShort(Cut(old(given) + data, dev.eraseSize))
      ensures if r == 0 then Fed(old(View()), data, data[wrote..]) else Feed(dev.Hardware(), old(View()), data) == None
    {
      hide OnDevice, FollowsPlan, WithinPlan, Concat, Cut, Put, Feed;
      wrote := 0;
      while stored == 0 && |data| - wrote >= dev.eraseSize
        invariant 0 <= wrote <= |data| && Success() && given == old(given) + data[..wrote]
        invariant stored < dev.eraseSize && (wrote == 0 ==> stored == old(stored))
        invariant Fed(old(View()), data, data[wrote..])
      {
        var block := data[wrote..wrote + dev.eraseSize];
        ghost var rest := data[wrote + dev.eraseSize..];
        ghost var next := wrote + dev.eraseSize;
        assert given == Concat(flushed) by { NothingBuffered(); }
        AppendSlice(old(given), data, wrote, next);
        AppendRest(old(given), data, next);
        FeedBlock(dev.Hardware(), View(), block, rest);
        assert data[wrote..] == block + rest;
        r := EmitDirect(block);
        if r != 0 {
          ShortOf(block, rest);
          return;
        }
        wrote := wrote + dev.eraseSize;
      }
      r := 0;
    }

    /** Adds to a partial block, or starts one with less than a block, and writes it when it
        is full. */
    method Coalesce(data: seq<byte>) returns (r: int, wrote: nat)
      requires Valid() && data != []
      modifies this, buffer, dev
      ensures Progress() && (r == 0 || r == -1) && wrote <= |data|
      ensures r == 0 ==> Success() && given == old(given) + data[..wrote] && stored < dev.eraseSize
      ensures r == 0 && wrote == 0 && old(stored) != dev.eraseSize ==> old(stored) == stored == 0 && |data| >= dev.eraseSize
      ensures r == -1 && old(OnPlan()) ==> CutShort(Cut(old(given) + data, dev.eraseSize))
      ensures old(stored) < dev.eraseSize ==>
        if r == 0 then Fed(old(View()), data, data[wrote..]) else Feed(dev.Hardware(), old(View()), data) == None
    {
      hide OnDevice, FollowsPlan, WithinPlan, Concat, Cut, Put, Feed, OnPlan, CutShort;
      r, wrote := 0, 0;
      if stored > 0 || |data| < dev.eraseSize {
        wrote := Store(data);
      }
      AppendRest(old(given), data, wrote);
      ghost var start := old(View());
      if stored == dev.eraseSize {
        assert given == Concat(flushed) + buffer[..];
        ghost var full := buffer[..];
        assert full == buffer[..stored];
        if old(stored) < dev.eraseSize { FeedFull(dev.Hardware(), start, data, wrote, full); }
        r := EmitBuffer();
        if r != 0 { ShortOf(full, data[wrote..]); }
      } else {
        FeedPart(dev.Hardware(), start, data, wrote);
        assert View() == start.(buffer := start.buffer + data[..wrote]);
      }
    }

    /** One turn of the outer loop. */
    method WriteSome(data: seq<byte>) returns (r: int, wrote: nat)
      requires Valid() && data != []
      modifies this, buffer, dev
      ensures Progress() && (r == 0 || r == -1) && wrote <= |data|
      ensures r == 0 ==> Success() && given == old(given) + data[..wrote] && stored < dev.eraseSize
      ensures r == 0 ==> wrote > 0 || old(stored) == dev.eraseSize
      ensures r == -1 && old(OnPlan()) ==> CutShort(Cut(old(given) + data, dev.eraseSize))
      ensures old(stored) < dev.eraseSize ==>
        if r == 0 then Fed(old(View()), data, data[wrote..]) else Feed(dev.Hardware(), old(View()), data) == None
    {
      hide OnDevice, FollowsPlan, WithinPlan, Concat, Cut, Put, Feed, OnPlan, CutShort;
      r, wrote := Coalesce(data);
      if r != 0 {
        return;
      }
      ghost var rest := data[wrote..];
      AppendRest(old(given), data, wrote);
      var more;
      r, more := WriteWhole(data[wrote..]);
      if r == 0 {
        assert rest[..more] == data[wrote..wrote + more];
        assert rest[more..] == data[wrote + more..];
        AppendSlice(old(given), data, wrote, wrote + more);
      }
      wrote := wrote + more;
    }

    /** mtd_write_data */
    method WriteData(data: seq<byte>) returns (r: int)
      requires Valid()
      modifies this, buffer, dev
      ensures Progress() && (r == |data| || (r == -1 && data != []))
      ensures r == |data| ==> Success() && given == old(given) + data
      ensures r == -1 && old(OnPlan()) ==> CutShort(Cut(old(given) + data, dev.eraseSize))
      ensures old(stored) < dev.eraseSize ==>
        Feed(dev.Hardware(), old(View()), data) == if r == |data| then Some(View()) else None
    {
      hide OnDevice, FollowsPlan, WithinPlan, Concat, Cut, Put, Feed;
      var wrote := 0;
      while wrote < |data|
        invariant 0 <= wrote <= |data| && Success() && given == old(given) + data[..wrote]
        invariant old(stored) < dev.eraseSize || wrote > 0 ==> stored < dev.eraseSize
        invariant old(stored) < dev.eraseSize ==> Fed(old(View()), data, data[wrote..])
        decreases |data| - wrote, stored
      {
        AppendRest(old(given), data, wrote);
        var failed, more := WriteSome(data[wrote..]);
        if failed != 0 {
          return -1;
        }
        assert data[wrote..][..more] == data[wrote..wrote + more];
        assert data[wrote..][more..] == data[wrote + more..];
        AppendSlice(old(given), data, wrote, wrote + more);
        wrote := wrote + more;
      }
      assert data[..wrote] == data;
      if old(stored) < dev.eraseSize { FeedNothing(dev.Hardware(), View()); }
      r := wrote;
    }

    /** The zero-padding of an incomplete block, given what is in the buffer. */
    ghost function Padding(): seq<byte>
      requires stored <= dev.eraseSize
      reads this`stored, dev
    {
      if stored == 0 then [] else Fill(dev.eraseSize - stored, 0)
    }

    /** Zero-pads and writes a partial block. A failure leaves the count of stored bytes. */
    method Flush() returns (r: int)
      requires Valid()
      modifies this, buffer, dev
      ensures Progress() && (r == 0 || r == -1)
      ensures r == 0 ==> Success() && stored == 0 && given == old(given) + old(Padding())
      ensures r == -1 ==> stored == old(stored) > 0 && given == old(given) && flushed == old(flushed)
      ensures r == -1 && old(OnPlan()) ==> CutShort(flushed + [old(buffer[..stored]) + old(Padding())])
      ensures old(stored) == 0 ==> dev.log == old(dev.log) && dev.blocks == old(dev.blocks)
      ensures (r == 0, View()) == Flushed(dev.Hardware(), old(View()))
    {
      hide OnPlan, CutShort, Concat, Put;
      ghost var start := View();
      if stored == 0 {
        assert given + [] == given;
        return 0;
      }
      ghost var kept := buffer[..stored];
      forall k | stored <= k < dev.eraseSize { buffer[k] := 0; }
      assert buffer[..] == kept + Padding();
      assert buffer[..stored] == kept;
      assert View() == start;
      hide Settled, Kept, KeptAll;
      r := Emit(buffer[..]);
      if r == 0 {
        given := given + Padding();
        stored := 0;
        assert buffer[..0] == [];
        assert given == Concat(flushed) + buffer[..0];
      }
    }

    /** The good blocks in this range are erased. */
    ghost predicate Erased(first: nat, end: nat)
      requires dev.Valid() && end <= dev.count
      reads dev
    {
      forall i | first <= i < end && i !in dev.bad :: dev.blocks[i] == Fill(dev.eraseSize, 0xFF)
    }

    /** The erase loop: factory-bad blocks are left alone, failures only reported. */
    method EraseLoop(first: nat, n: nat)
      requires dev.Valid() && first + n <= dev.count
      modifies dev
      ensures dev.Valid() && dev.Idle()
      ensures dev.clock == old(dev.clock) + GoodBetween(dev.bad, first, first + n)
      ensures EraseTried(old(dev.blocks), dev.blocks, dev.Hardware(), old(dev.clock), first, first + n)
      ensures SameBelow(old(dev.blocks), dev.blocks, first)
      ensures dev.OnlyPowerCuts() && dev.Alive() ==> Erased(first, first + n)
    {
      for p := first to first + n
        invariant dev.Valid() && dev.Idle()
        invariant dev.clock == old(dev.clock) + GoodBetween(dev.bad, first, p)
        invariant EraseTried(old(dev.blocks), dev.blocks, dev.Hardware(), old(dev.clock), first, p)
        invariant SameBelow(old(dev.blocks), dev.blocks, first)
        invariant dev.OnlyPowerCuts() && dev.Alive() ==> Erased(first, p)
      {
        ghost var before, clock := dev.blocks, dev.clock;
        if p !in dev.bad {
          var _ := dev.Erase(p);
        }
        EraseStep(old(dev.blocks), before, dev.blocks, dev.Hardware(), old(dev.clock), clock, first, p);
      }
    }

    method EraseRun(first: nat, n: nat)
      requires Settled() && pos <= first && first + n <= dev.count
      modifies dev
      ensures Settled() && dev.Idle()
      ensures dev.clock == old(dev.clock) + GoodBetween(dev.bad, first, first + n)
      ensures EraseTried(old(dev.blocks), dev.blocks, dev.Hardware(), old(dev.clock), first, first + n)
      ensures SameBelow(old(dev.blocks), dev.blocks, first)
      ensures dev.OnlyPowerCuts() && dev.Alive() ==> Erased(first, first + n)
    {
      ghost var blocks := dev.blocks;
      hide EraseTried, GoodBetween, Erased;
      EraseLoop(first, n);
      OnDeviceKeeps(blocks, dev.blocks, placed, flushed, dev.eraseSize, pos, pos);
    }

    /** mtd_erase_blocks: completes a partial block, then erases `blocks` blocks from the
        file offset on (all of them if negative) without moving it. It fails if the block
        cannot be completed or there are not so many; a failing erase is only reported. */
    method EraseBlocks(blocks: int) returns (r: int)
      requires Valid()
      modifies this, buffer, dev
      ensures Progress()
      ensures var (ok, w) := Flushed(dev.Hardware(), old(View()));
        var end := if blocks < 0 then dev.count else w.pos + blocks;
        && r == (if ok && end <= dev.count then end else -1)
        && View() == w.(clock := dev.clock) && (blocks == 0 || r == -1 ==> View() == w)
        && (blocks == 0 ==> ok == (r != -1))
      ensures r != -1 && blocks != 0 ==>
        var w := Flushed(dev.Hardware(), old(View())).1;
        && dev.clock == w.clock + GoodBetween(dev.bad, pos, r)
        && EraseTried(old(dev.blocks), dev.blocks, dev.Hardware(), w.clock, pos, r)
      ensures r != -1 ==> stored == 0 && given == old(given) + old(Padding()) && pos <= r <= dev.count
      ensures r != -1 && dev.OnlyPowerCuts() && dev.Alive() ==> Erased(pos, r)
      ensures r != -1 && blocks == 0 ==> Success()
      ensures r == -1 && blocks == 0 ==> stored == old(stored) > 0 && given == old(given) && flushed == old(flushed)
      ensures r == -1 && blocks == 0 && old(OnPlan()) ==>
        CutShort(flushed + [old(buffer[..stored]) + old(Padding())])
      ensures old(stored) == 0 && blocks == 0 ==> dev.log == old(dev.log) && dev.blocks == old(dev.blocks)
    {
      hide OnPlan, CutShort, Concat, OnDevice, Put;
      var failed := Flush();
      if failed != 0 {
        return -1;
      }
      ghost var completed := dev.blocks;
      assert SameFrom(old(dev.blocks), completed, pos);
      var total := dev.count - pos;
      var n := if blocks < 0 then total else blocks;
      if n > total {
        return -1;
      }
      if n > 0 {
        EraseRun(pos, n);
      }
      r := pos + n;
    }

    /** mtd_write_close */
    method Close() returns (r: int)
      requires Valid()
      modifies this, buffer, dev
      ensures Progress() && (r == 0 || r == -1)
      ensures r == 0 ==> Success() && stored == 0 && given == old(given) + old(Padding())
      ensures r == -1 ==> old(stored) > 0 && flushed == old(flushed)
      ensures r == -1 && old(OnPlan()) ==> CutShort(flushed + [old(buffer[..stored]) + old(Padding())])
      ensures old(stored) == 0 ==> dev.log == old(dev.log) && dev.blocks == old(dev.blocks)
      ensures (r == 0, View()) == Flushed(dev.Hardware(), old(View()))
    {
      hide *;
      var end := EraseBlocks(0);
      r := if end == -1 then -1 else 0;
    }

    /** mtd_find_write_start */
    method FindWriteStart(start: int) returns (r: int)
      ensures r == WriteStart(badBlocks, start)
    {
      r := start;
      var i := 0;
      while i < |badBlocks|
        invariant 0 <= i <= |badBlocks| && WriteStart(badBlocks, start) == WriteStart(badBlocks[i..], r)
      {
        if badBlocks[i] == r {
          r := r + 1;
        } else if badBlocks[i] > r {
          return;
        }
        i := i + 1;
      }
    }
  }

  /** A block write keeps what was accepted, and adds to it when it succeeds. */
  lemma Accept(blocks: seq<Block>, blocks': seq<Block>, placed: seq<nat>, flushed: seq<Block>, e: nat, p: nat,
      p': nat, data: Block, r: int)
    requires OnDevice(blocks, placed, flushed, e, p) && |data| == e
    requires Passed(blocks, blocks', p, p', data, r)
    ensures p' <= |blocks'| && (r == 0 || r == -1)
    ensures SameBelow(blocks, blocks', p)
    ensures r == 0 ==> p < p' && SameFrom(blocks, blocks', p')
    ensures r == 0 ==> Extends(placed, placed + [p' - 1], flushed, flushed + [data], p, p')
    ensures r == -1 ==> Extends(placed, placed, flushed, flushed, p, p')
    ensures r == 0 ==> OnDevice(blocks', placed + [p' - 1], flushed + [data], e, p')
    ensures r == -1 ==> OnDevice(blocks', placed, flushed, e, p')
  {
    OnDeviceKeeps(blocks, blocks', placed, flushed, e, p, p);
    if r == 0 {
      OnDeviceGrows(blocks', placed, flushed, e, p, p', data);
    } else {
      OnDeviceKeeps(blocks', blocks', placed, flushed, e, p, p');
    }
  }

  /** The device changed by part of the plan for these blocks; if there is still power,
      the good blocks ran out. */
  ghost predicate WithinPlan(dev: Device, startLog: seq<Change>, log: seq<Change>, blocks: seq<Block>, alive: bool) {
    && startLog <= log
    && log[|startLog|..] <= Plan(dev.bad, dev.count, dev.eraseSize, blocks)
    && (alive ==> |blocks| > 0 && Good(dev.bad, dev.count, |blocks| - 1) == dev.count)
  }

  ghost predicate FollowsPlan(dev: Device, startLog: seq<Change>, log: seq<Change>,
      placed: seq<nat>, pos: nat, flushed: seq<Block>)
  {
    && (forall k | 0 <= k < |placed| :: placed[k] == Good(dev.bad, dev.count, k))
    && pos == AfterLast(placed)
    && log == startLog + Plan(dev.bad, dev.count, dev.eraseSize, flushed)
  }

  lemma PlanStep(dev: Device, bs: seq<Block>, data: Block)
    ensures Plan(dev.bad, dev.count, dev.eraseSize, bs + [data]) ==
      Plan(dev.bad, dev.count, dev.eraseSize, bs) + Steps(dev, Good(dev.bad, dev.count, |bs|), data)
  {
    hide Good;
    assert (bs + [data])[..|bs|] == bs;
  }

  /** After the accepted blocks, the next good block is the next in the plan. */
  lemma NextInPlan(dev: Device, startLog: seq<Change>, log: seq<Change>, placed: seq<nat>, pos: nat, flushed: seq<Block>)
    requires FollowsPlan(dev, startLog, log, placed, pos, flushed)
    requires |placed| == |flushed| && pos <= dev.count
    ensures NextGood(dev.bad, dev.count, pos) == Good(dev.bad, dev.count, |flushed|)
  {
  }

  /** A block write done or cut short stays within the plan. */
  lemma PlanCut(dev: Device, startLog: seq<Change>, log: seq<Change>, log': seq<Change>,
      placed: seq<nat>, p: nat, flushed: seq<Block>, data: Block, p': nat, r: int, alive: bool)
    requires FollowsPlan(dev, startLog, log, placed, p, flushed)
    requires |placed| == |flushed| && p <= dev.count
    requires Stepped(dev, log, log', p, p', data, r, alive)
    ensures r == 0 ==> FollowsPlan(dev, startLog, log', placed + [p' - 1], p', flushed + [data])
    ensures r == -1 ==> WithinPlan(dev, startLog, log', flushed + [data], alive)
  {
    hide NextGood, Good, Plan;
    NextInPlan(dev, startLog, log, placed, p, flushed);
    PlanStep(dev, flushed, data);
    assert log' == log + log'[|log|..];
    assert log'[|startLog|..] == Plan(dev.bad, dev.count, dev.eraseSize, flushed) + log'[|log|..];
  }

  lemma WithinLonger(dev: Device, startLog: seq<Change>, log: seq<Change>, flushed: seq<Block>, data: Block,
      rest: seq<byte>, alive: bool)
    requires WithinPlan(dev, startLog, log, flushed + [data], alive)
    requires dev.eraseSize > 0 && AllSized(flushed + [data], dev.eraseSize)
    ensures WithinPlan(dev, startLog, log, Cut(Concat(flushed) + data + rest, dev.eraseSize), alive)
  {
    hide Good, Plan, Cut;
    var bs := flushed + [data];
    var all := Cut(Concat(flushed) + data + rest, dev.eraseSize);
    assert all == bs + Cut(rest, dev.eraseSize) by {
      assert bs[..|flushed|] == flushed;
      CutAppend(bs, rest, dev.eraseSize);
    }
    PlanPrefix(dev.bad, dev.count, dev.eraseSize, bs, all);
    if |bs| < |all| { GoodIncreases(dev.bad, dev.count, |bs| - 1, |all| - 1); }
  }

  ghost function Steps(dev: Device, at: nat, data: Block): seq<Change> {
    if at < dev.count then [Change(at, Fill(dev.eraseSize, ERASED)), Change(at, data)] else []
  }

  /** While there is power, nothing happened and only bad blocks were passed; afterwards,
      part of the steps at q happened. */
  ghost predicate Unharmed(dev: Device, log: seq<Change>, q: nat, data: Block, p: nat)
    reads dev
  {
    dev.OnlyPowerCuts() ==>
      && log <= dev.log && dev.log[|log|..] <= Steps(dev, q, data)
      && (dev.Alive() ==> dev.log == log && p <= q)
  }
}
