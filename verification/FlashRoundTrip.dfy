/** What the writer stored, the reader returns: for any way of cutting the data into
    write calls and any way of cutting the reads, whatever fails on the way, as long as
    the only skipped blocks are factory-bad and no stored block is all zero. */
module FlashRoundTrip {
  import opened Wrappers  // Option
  import opened Bytes
  import opened Series
  import opened Flash
  import opened Chunks
  import opened WriterModel
  import opened MtdWriter
  import opened MtdReader
  import opened FlashImage

  ghost predicate Stored(blocks: seq<Block>, bad: set<nat>, bs: seq<Block>) {
    && Fits(bad, |blocks|, bs)
    && forall k | 0 <= k < |bs| :: blocks[Good(bad, |blocks|, k)] == bs[k]
  }

  ghost function AfterGood(bad: set<nat>, count: nat, n: nat): nat {
    if n == 0 then 0 else Good(bad, count, n - 1) + 1
  }

  /** The last stored block is the next good one after the others. */
  lemma LastStored(blocks: seq<Block>, bad: set<nat>, bs: seq<Block>)
    requires Stored(blocks, bad, bs) && bs != []
    ensures Stored(blocks, bad, bs[..|bs|-1])
    ensures var p, q := AfterGood(bad, |blocks|, |bs| - 1), Good(bad, |blocks|, |bs| - 1);
      && p <= q < |blocks| && blocks[q] == bs[|bs|-1] && q !in bad
      && (forall i | p <= i < q :: i in bad) && AfterGood(bad, |blocks|, |bs|) == q + 1
  {
  }

  lemma LastPart(bs: seq<Block>, rest: seq<Block>)
    requires bs != []
    ensures bs[..|bs|-1] + ([bs[|bs|-1]] + rest) == bs + rest
  {
    assert bs == bs[..|bs|-1] + [bs[|bs|-1]];
  }

  lemma NextReadable(blocks: seq<Block>, bad: set<nat>, p: nat, q: nat)
    requires p <= q < |blocks| && q !in bad && !AllZero(blocks[q])
    requires forall i | p <= i < q :: i in bad
    ensures Readable(blocks, bad, p) == [blocks[q]] + Readable(blocks, bad, q + 1)
  {
    SkipUnreadable(blocks, bad, p, q);
  }

  /** Blocks stored on the good positions in order are the first the reader sees. */
  lemma {:induction false} StoredIsReadable(blocks: seq<Block>, bad: set<nat>, bs: seq<Block>)
    requires Stored(blocks, bad, bs) && forall k | 0 <= k < |bs| :: !AllZero(bs[k])
    ensures AfterGood(bad, |blocks|, |bs|) <= |blocks|
    ensures Readable(blocks, bad, 0) == bs + Readable(blocks, bad, AfterGood(bad, |blocks|, |bs|))
  {
    if bs == [] {
      assert [] + Readable(blocks, bad, 0) == Readable(blocks, bad, 0);
    } else {
      var n := |bs| - 1;
      LastStored(blocks, bad, bs);
      hide Stored, Good, AfterGood;
      StoredIsReadable(blocks, bad, bs[..n]);
      var p, q := AfterGood(bad, |blocks|, n), Good(bad, |blocks|, n);
      NextReadable(blocks, bad, p, q);
      hide Readable;
      LastPart(bs, Readable(blocks, bad, q + 1));
    }
  }

  ghost predicate NoZeroBlocks(s: seq<byte>, e: nat)
    requires e > 0
  {
    forall k | 0 <= k < |ImageBlocks(s, e)| :: !AllZero(ImageBlocks(s, e)[k])
  }

  /** A complete image without all-zero blocks reads back as itself. */
  lemma CompleteReadsBack(blocks: seq<Block>, bad: set<nat>, e: nat, image: seq<byte>)
    requires e > 0 && Complete(blocks, bad, e, image) && NoZeroBlocks(image, e)
    ensures image <= Concat(Readable(blocks, bad, 0))
  {
    var bs := ImageBlocks(image, e);
    StoredIsReadable(blocks, bad, bs);
    ConcatAppend(bs, Readable(blocks, bad, AfterGood(bad, |blocks|, |bs|)));
    BlocksJoin(image, e);
  }

  ghost function Join(pieces: seq<seq<byte>>): seq<byte> {
    if pieces == [] then [] else Join(pieces[..|pieces|-1]) + pieces[|pieces|-1]
  }

  ghost function Sum(lens: seq<nat>): nat {
    if lens == [] then 0 else Sum(lens[..|lens|-1]) + lens[|lens|-1]
  }

  /** Writes the pieces one call each, closes, and reads lens[0], lens[1], ... bytes back. */
  method WriteThenRead(dev: Device, pieces: seq<seq<byte>>, lens: seq<nat>) returns (wrote: bool, read: bool,
      back: seq<byte>)
    requires dev.Valid()
    modifies dev
    ensures dev.Valid()
    ensures var p := Pass(dev.Hardware(), old(dev.clock), Join(pieces));
      && (wrote <==> p.Some?)
      && (wrote && OnlyBad(dev.Hardware(), p.value) ==>
            && Complete(dev.blocks, dev.bad, dev.eraseSize, Join(pieces))
            && (NoZeroBlocks(Join(pieces), dev.eraseSize) && WorksFor(dev.fates, p.value.clock, dev.count) ==>
                  Sum(lens) <= |Join(pieces)| ==> read && back == Join(pieces)[..Sum(lens)]))
      && (wrote ==>
            var stream := Concat(Seen(dev.blocks, dev.bad, dev.fates, p.value.clock, 0));
            (read <==> Sum(lens) <= |stream|) && (read ==> back == stream[..Sum(lens)]))
    ensures dev.OnlyPowerCuts() ==>
      var p := Pass(dev.Hardware(), old(dev.clock), Join(pieces));
      && (wrote <==> Enough(dev.Hardware(), 0, old(dev.clock), |ImageBlocks(Join(pieces), dev.eraseSize)|))
      && (wrote ==> OnlyBad(dev.Hardware(), p.value))
  {
    ghost var p := Pass(dev.Hardware(), dev.clock, Join(pieces));
    if dev.OnlyPowerCuts() { PassWorks(dev.Hardware(), dev.clock, Join(pieces)); }
    hide Complete, ImageBlocks, Readable, Seen, AllZero, Pass, OnlyBad, Enough, Concat, NoZeroBlocks, WorksFor;
    read, back := false, [];
    wrote := WriteAll(dev, pieces);
    if wrote {
      read, back := ReadAll(dev, lens);
      if OnlyBad(dev.Hardware(), p.value) && NoZeroBlocks(Join(pieces), dev.eraseSize)
        && WorksFor(dev.fates, p.value.clock, dev.count) {
        SeenWhenWorking(dev.blocks, dev.bad, dev.fates, p.value.clock, 0);
        CompleteReadsBack(dev.blocks, dev.bad, dev.eraseSize, Join(pieces));
      }
    }
  }

  lemma {:induction false} JoinPrefix(pieces: seq<seq<byte>>, i: nat)
    requires i < |pieces|
    ensures Join(pieces[..i+1]) == Join(pieces[..i]) + pieces[i] && Join(pieces[..i+1]) <= Join(pieces)
    decreases |pieces|
  {
    assert pieces[..i+1][..i] == pieces[..i];
    if i + 1 < |pieces| {
      var front := pieces[..|pieces|-1];
      JoinPrefix(front, i);
      assert front[..i] == pieces[..i] && front[..i+1] == pieces[..i+1];
    } else {
      assert pieces[..i+1] == pieces;
    }
  }

  /** Writes the pieces one call each and closes. */
  method WriteAll(dev: Device, pieces: seq<seq<byte>>) returns (ok: bool)
    requires dev.Valid()
    modifies dev
    ensures dev.Valid()
    ensures var p := Pass(dev.Hardware(), old(dev.clock), Join(pieces));
      && (ok <==> p.Some?)
      && (ok ==> dev.clock == p.value.clock)
      && (ok ==> OnDevice(dev.blocks, p.value.placed, ImageBlocks(Join(pieces), dev.eraseSize), dev.eraseSize, p.value.pos))
      && (ok && OnlyBad(dev.Hardware(), p.value) ==> Complete(dev.blocks, dev.bad, dev.eraseSize, Join(pieces)))
  {
    var out := new MtdWriteContext(dev);
    ghost var chip, start := dev.Hardware(), out.View();
    assert Join(pieces[..0]) == [];
    FeedNothing(chip, start);
    hide Complete, Good, ImageBlocks, Join, Feed, Flushed, OnlyBad, OnDevice, MtdWriteContext.OnPlan,
      MtdWriteContext.CutShort;
    for i := 0 to |pieces|
      invariant out.Valid() && out.stored < dev.eraseSize && fresh(out) && fresh(out.buffer) && out.dev == dev
      invariant Feed(chip, start, Join(pieces[..i])) == Some(out.View())
    {
      JoinPrefix(pieces, i);
      FeedTwice(chip, start, Join(pieces[..i]), pieces[i]);
      ghost var done := Join(pieces[..i + 1]);
      FeedTwice(chip, start, done, Join(pieces)[|done|..]);
      assert Join(pieces) == done + Join(pieces)[|done|..];
      var wrote := out.WriteData(pieces[i]);
      if wrote != |pieces[i]| {
        return false;
      }
    }
    assert pieces[..|pieces|] == pieces;
    var r := out.Close();
    ok := r == 0;
    if ok { PassStored(chip, start.clock, Join(pieces), dev.blocks, out.View()); }
  }

  lemma PassStored(chip: Chip, clock: nat, data: seq<byte>, blocks: seq<Block>, w: Writer)
    requires 0 < chip.eraseSize && Pass(chip, clock, data) == Some(w) && |blocks| == chip.count
    requires OnDevice(blocks, w.placed, w.flushed, chip.eraseSize, w.pos)
    ensures w.flushed == ImageBlocks(data, chip.eraseSize)
    ensures OnlyBad(chip, w) ==> Complete(blocks, chip.bad, chip.eraseSize, data)
  {
    PassPlaces(chip, clock, data);
  }

  method ReadAll(dev: Device, lens: seq<nat>) returns (ok: bool, back: seq<byte>)
    requires dev.Valid()
    modifies dev
    ensures dev.Valid() && dev.blocks == old(dev.blocks) && dev.log == old(dev.log)
    ensures var stream := Concat(Seen(dev.blocks, dev.bad, dev.fates, old(dev.clock), 0));
      (ok <==> Sum(lens) <= |stream|) && (ok ==> back == stream[..Sum(lens)])
  {
    var input := new MtdReadContext(dev);
    ok, back := ReadPieces(input, lens);
  }

  method ReadPieces(input: MtdReadContext, lens: seq<nat>) returns (ok: bool, back: seq<byte>)
    requires input.Valid()
    modifies input, input.buffer, input.dev
    ensures input.Valid() && input.dev.blocks == old(input.dev.blocks) && input.dev.log == old(input.dev.log)
    ensures ok <==> Sum(lens) <= |old(input.Remaining())|
    ensures ok ==> back == old(input.Remaining())[..Sum(lens)]
  {
    ghost var all := input.Remaining();
    assert all == [] + all && Sum(lens[..0]) == 0;
    hide Sum, MtdReadContext.Remaining, MtdReadContext.Valid, Concat, Seen;
    back := [];
    for i := 0 to |lens|
      invariant input.Valid()
      invariant input.dev.blocks == old(input.dev.blocks) && input.dev.log == old(input.dev.log)
      invariant |back| == Sum(lens[..i])
      invariant all == back + input.Remaining()
    {
      SumStep(lens, i);
      var r, data := input.ReadData(lens[i]);
      if r == -1 {
        SumGrows(lens, i + 1);
        return false, back;
      }
      Regroup(back, data, input.Remaining());
      back := back + data;
    }
    assert lens[..|lens|] == lens;
    ok := true;
  }

  lemma {:induction false} SumGrows(lens: seq<nat>, i: nat)
    requires i <= |lens|
    ensures Sum(lens[..i]) <= Sum(lens)
    decreases |lens|
  {
    if i < |lens| {
      assert lens[..|lens|-1][..i] == lens[..i];
      SumGrows(lens[..|lens|-1], i);
    } else {
      assert lens[..i] == lens;
    }
  }

  lemma SumStep(lens: seq<nat>, i: nat)
    requires i < |lens|
    ensures Sum(lens[..0]) == 0 && Sum(lens[..i+1]) == Sum(lens[..i]) + lens[i]
  {
    assert lens[..i+1][..i] == lens[..i];
  }
}
