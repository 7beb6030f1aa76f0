/** The program of mtdutils/flash_image.c itself, tied to the plan of FlashImage. */
module FlashImageRun {
  import opened Wrappers  // Option
  import opened Bytes
  import opened Flash
  import opened Chunks
  import opened WriterModel
  import opened MtdWriter
  import opened MtdReader
  import opened FlashImage

  lemma WithinPrefix(dev: Device, startLog: seq<Change>, log: seq<Change>, a: seq<Block>, b: seq<Block>, alive: bool)
    requires a <= b && WithinPlan(dev, startLog, log, a, alive)
    ensures WithinPlan(dev, startLog, log, b, alive)
  {
    hide Plan, Good;
    PlanPrefix(dev.bad, dev.count, dev.eraseSize, a, b);
    if 0 < |a| < |b| { GoodIncreases(dev.bad, dev.count, |a| - 1, |b| - 1); }
  }

  /** Part of the plan for a prefix of the stream is part of the plan for its blocks. */
  lemma WithinImage(dev: Device, startLog: seq<Change>, log: seq<Change>, s: seq<byte>, whole: seq<byte>, alive: bool)
    requires dev.eraseSize > 0 && s <= Padded(whole, dev.eraseSize)
    requires WithinPlan(dev, startLog, log, Cut(s, dev.eraseSize), alive)
    ensures WithinPlan(dev, startLog, log, ImageBlocks(whole, dev.eraseSize), alive)
  {
    CutOfPrefix(s, Padded(whole, dev.eraseSize), dev.eraseSize);
    hide Cut, WithinPlan, Padded;
    WithinPrefix(dev, startLog, log, Cut(s, dev.eraseSize), ImageBlocks(whole, dev.eraseSize), alive);
  }

  /** What one pass over `whole` leaves: all of its plan, or part of it. */
  ghost predicate PassDone(dev: Device, startLog: seq<Change>, log: seq<Change>, whole: seq<byte>, ok: bool, alive: bool)
    requires dev.eraseSize > 0
  {
    var bs := ImageBlocks(whole, dev.eraseSize);
    if ok then log == startLog + Plan(dev.bad, dev.count, dev.eraseSize, bs) && Fits(dev.bad, dev.count, bs)
    else WithinPlan(dev, startLog, log, bs, alive)
  }

  /** The context has been fed what it was given, from its opening on; blocks not yet reached
      are as they were. */
  ghost predicate FedFrom(out: MtdWriteContext, clock: nat, blocks: seq<Block>)
    reads out, out.buffer, out.dev
  {
    && out.Valid() && out.stored < out.dev.eraseSize
    && Feed(out.dev.Hardware(), Opened(clock), out.given) == Some(out.View())
    && SameFrom(blocks, out.dev.blocks, out.pos)
  }

  lemma SameFromTwice(blocks: seq<Block>, blocks1: seq<Block>, blocks2: seq<Block>, p1: nat, p2: nat)
    requires p1 <= p2 && SameFrom(blocks, blocks1, p1) && SameFrom(blocks1, blocks2, p2)
    ensures SameFrom(blocks, blocks2, p2)
  {
  }

  lemma PieceFed(chip: Chip, start: Writer, given: seq<byte>, piece: seq<byte>, whole: seq<byte>, w: Writer)
    requires start.pos <= chip.count && |start.buffer| < chip.eraseSize
    requires Feed(chip, start, given) == Some(w) && given + piece <= whole
    ensures w.pos <= chip.count && |w.buffer| < chip.eraseSize
    ensures Feed(chip, start, given + piece) == Feed(chip, w, piece)
    ensures Feed(chip, w, piece).None? ==> Feed(chip, start, whole).None?
  {
    hide Feed;
    var done := given + piece;
    var rest := whole[|done|..];
    assert whole == done + rest;
    assert w.pos <= chip.count && |w.buffer| < chip.eraseSize by { FedIsSound(chip, start, given); }
    FeedTwice(chip, start, given, piece);
    FeedTwice(chip, start, done, rest);
  }

  lemma FedIsSound(chip: Chip, start: Writer, given: seq<byte>)
    requires start.pos <= chip.count && |start.buffer| < chip.eraseSize
    ensures var r := Feed(chip, start, given); r.Some? ==> r.value.pos <= chip.count && |r.value.buffer| < chip.eraseSize
  {
  }

  /** Writes one piece of a pass. */
  method WritePiece(out: MtdWriteContext, piece: seq<byte>, ghost whole: seq<byte>, ghost clock: nat, ghost blocks: seq<Block>)
      returns (ok: bool)
    requires out.Valid() && out.OnPlan() && out.stored < out.dev.eraseSize && out.given + piece <= whole
    requires FedFrom(out, clock, blocks)
    modifies out, out.buffer, out.dev
    ensures if ok then FedFrom(out, clock, blocks) else Feed(out.dev.Hardware(), Opened(clock), whole).None?
    ensures out.Valid() && out.dev.Idle()
    ensures ok ==> out.OnPlan() && out.stored < out.dev.eraseSize && out.given == old(out.given) + piece
    ensures !ok && out.dev.OnlyPowerCuts() ==> PassDone(out.dev, out.startLog, out.dev.log, whole, false, out.dev.Alive())
    ensures !ok ==> out.CutShort(Cut(old(out.given) + piece, out.dev.eraseSize))
  {
    ghost var before, p := out.dev.blocks, out.pos;
    PieceFed(out.dev.Hardware(), Opened(clock), out.given, piece, whole, out.View());
    var wrote := out.WriteData(piece);
    ok := wrote == |piece|;
    if ok { SameFromTwice(blocks, before, out.dev.blocks, p, out.pos); }
    if !ok && out.dev.OnlyPowerCuts() {
      WithinImage(out.dev, out.startLog, out.dev.log, old(out.given) + piece, whole, out.dev.Alive());
    }
  }

  lemma PlacedFits(dev: Device, startLog: seq<Change>, placed: seq<nat>, pos: nat, flushed: seq<Block>)
    requires FollowsPlan(dev, startLog, dev.log, placed, pos, flushed)
    requires |placed| == |flushed| && Below(placed, pos) && pos <= dev.count
    ensures Fits(dev.bad, dev.count, flushed)
  {
    forall k | 0 <= k < |flushed| ensures Good(dev.bad, dev.count, k) < dev.count {
      assert placed[k] == Good(dev.bad, dev.count, k);
    }
  }

  /** What a pass over `whole` comes to, whatever fails: it succeeds exactly if its stream is
      accepted, and then its blocks are where they were accepted and none behind has changed. */
  ghost predicate PassLeft(chip: Chip, clock: nat, whole: seq<byte>, before: seq<Block>, after: seq<Block>, now: nat, ok: bool)
    requires 0 < chip.eraseSize
  {
    var p := Pass(chip, clock, whole);
    && (ok <==> p.Some?)
    && (ok ==>
          && now == p.value.clock && SameFrom(before, after, p.value.pos)
          && OnDevice(after, p.value.placed, ImageBlocks(whole, chip.eraseSize), chip.eraseSize, p.value.pos))
  }

  lemma NotFed(chip: Chip, clock: nat, whole: seq<byte>, before: seq<Block>, after: seq<Block>, now: nat)
    requires 0 < chip.eraseSize && Feed(chip, Opened(clock), whole).None?
    ensures PassLeft(chip, clock, whole, before, after, now, false)
  {
  }

  lemma Closed(chip: Chip, clock: nat, whole: seq<byte>, fed: Writer, ok: bool, w: Writer, before: seq<Block>, after: seq<Block>)
    requires 0 < chip.eraseSize && Feed(chip, Opened(clock), whole) == Some(fed) && Flushed(chip, fed) == (ok, w)
    requires SameFrom(before, after, w.pos) || !ok
    requires |after| == chip.count && OnDevice(after, w.placed, w.flushed, chip.eraseSize, w.pos)
    ensures PassLeft(chip, clock, whole, before, after, w.clock, ok)
  {
    if ok { PassPlaces(chip, clock, whole); }
    hide Feed, Flushed, OnDevice, SameFrom, ImageBlocks;
  }

  /** Closes a pass after all of it was written. */
  method FinishPass(out: MtdWriteContext, ghost whole: seq<byte>, ghost clock: nat, ghost blocks: seq<Block>) returns (ok: bool)
    requires out.Valid() && out.OnPlan() && out.stored < out.dev.eraseSize && out.given == whole
    requires FedFrom(out, clock, blocks)
    modifies out, out.buffer, out.dev
    ensures PassLeft(out.dev.Hardware(), clock, whole, blocks, out.dev.blocks, out.dev.clock, ok)
    ensures out.dev.Valid() && out.dev.Idle()
    ensures out.dev.OnlyPowerCuts() ==> PassDone(out.dev, out.startLog, out.dev.log, whole, ok, out.dev.Alive())
  {
    ghost var rest, padding := out.buffer[..out.stored], out.Padding();
    StreamBlocks(whole, out.flushed, rest, padding, out.dev.eraseSize);
    hide ImageBlocks, WithinPlan, Padded, Cut, Concat, Plan, Good;
    ghost var fed, before, p := out.View(), out.dev.blocks, out.pos;
    var r := out.Close();
    ok := r == 0;
    if ok { SameFromTwice(blocks, before, out.dev.blocks, p, out.pos); }
    Closed(out.dev.Hardware(), clock, whole, fed, ok, out.View(), blocks, out.dev.blocks);
    if ok {
      assert out.given == Concat(out.flushed) + out.buffer[..0] == Concat(out.flushed);
      WrittenBlocks(whole, padding, out.flushed, out.dev.eraseSize);
      if out.dev.OnlyPowerCuts() {
        PlacedFits(out.dev, out.startLog, out.placed, out.pos, out.flushed);
      }
    }
  }

  /** First pass: zeros for the header, then the rest of the image in header-sized reads. */
  method BlankPass(dev: Device, image: seq<byte>) returns (ok: bool)
    requires dev.Valid()
    modifies dev
    ensures dev.Valid() && dev.Idle()
    ensures dev.OnlyPowerCuts() ==> PassDone(dev, old(dev.log), dev.log, Blanked(image), ok, dev.Alive())
    ensures PassLeft(dev.Hardware(), old(dev.clock), Blanked(image), old(dev.blocks), dev.blocks, dev.clock, ok)
  {
    ghost var whole, clock, blocks := Blanked(image), dev.clock, dev.blocks;
    var out := new MtdWriteContext(dev);
    var h := HeaderLen(image);
    assert Fill(h, 0) <= whole && [] + Fill(h, 0) == Fill(h, 0);
    FeedNothing(dev.Hardware(), Opened(clock));
    hide Blanked, PassDone, PassLeft, Feed;
    ok := WritePiece(out, Fill(h, 0), whole, clock, blocks);
    var at := h;
    if ok {
      BlankedPrefix(image, h);
      ok := WriteRest(out, image, h, clock, blocks);
    }
    if ok {
      ok := FinishPass(out, whole, clock, blocks);
    } else {
      NotFed(dev.Hardware(), clock, whole, blocks, dev.blocks, dev.clock);
    }
  }

  /** The image behind its header, in pieces. */
  method WriteRest(out: MtdWriteContext, image: seq<byte>, h: nat, ghost clock: nat, ghost blocks: seq<Block>) returns (ok: bool)
    requires out.Valid() && out.OnPlan() && out.stored < out.dev.eraseSize && FedFrom(out, clock, blocks)
    requires h == HeaderLen(image) && out.given == Blanked(image)[..h]
    modifies out, out.buffer, out.dev
    ensures out.Valid() && out.dev.Idle()
    ensures ok ==> out.OnPlan() && out.stored < out.dev.eraseSize && out.given == Blanked(image) && FedFrom(out, clock, blocks)
    ensures !ok ==> Feed(out.dev.Hardware(), Opened(clock), Blanked(image)).None?
    ensures !ok && out.dev.OnlyPowerCuts() ==>
      PassDone(out.dev, out.startLog, out.dev.log, Blanked(image), false, out.dev.Alive())
  {
    ghost var whole := Blanked(image);
    var at := h;
    ok := true;
    while at < |image|
      invariant h <= at <= |image| && out.Valid() && out.dev.Idle()
      invariant out.OnPlan() && out.stored < out.dev.eraseSize && out.given == whole[..at] && FedFrom(out, clock, blocks)
    {
      var len := if |image| - at < HEADER_SIZE then |image| - at else HEADER_SIZE;
      BlankedPiece(image, at, len);
      ok := WritePiece(out, image[at..at + len], whole, clock, blocks);
      if !ok {
        return;
      }
      at := at + len;
    }
    assert whole[..|image|] == whole;
  }

  lemma BlankedPrefix(image: seq<byte>, at: nat)
    requires at == HeaderLen(image)
    ensures Blanked(image)[..at] == Fill(at, 0)
  {
  }

  lemma BlankedPiece(image: seq<byte>, at: nat, len: nat)
    requires HeaderLen(image) <= at && at + len <= |image|
    ensures Blanked(image)[..at] + image[at..at + len] == Blanked(image)[..at + len]
  {
  }

  /** What the second pass leaves: all of its plan, or part of it when the power fails, the
      good blocks run out or the image ends too soon. */
  ghost predicate SecondDone(dev: Device, startLog: seq<Change>, log: seq<Change>, image: seq<byte>, ok: bool, alive: bool)
    requires dev.eraseSize > 0
  {
    var bs := Cut(SecondStream(image, dev.eraseSize), dev.eraseSize);
    var short := |image| < Span(HeaderLen(image), dev.eraseSize);
    && startLog <= log && log[|startLog|..] <= Plan(dev.bad, dev.count, dev.eraseSize, bs)
    && (ok ==> !short && log == startLog + Plan(dev.bad, dev.count, dev.eraseSize, bs) && Fits(dev.bad, dev.count, bs))
    && (!ok && alive ==> short || !Fits(dev.bad, dev.count, bs))
  }

  /** A piece of the second pass could not be written. */
  lemma SecondCut(dev: Device, startLog: seq<Change>, log: seq<Change>, image: seq<byte>, s: seq<byte>, alive: bool)
    requires dev.eraseSize > 0 && s <= SecondStream(image, dev.eraseSize)
    requires WithinPlan(dev, startLog, log, Cut(s, dev.eraseSize), alive)
    ensures SecondDone(dev, startLog, log, image, false, alive)
  {
    var whole := SecondStream(image, dev.eraseSize);
    CutOfPrefix(s, whole, dev.eraseSize);
    hide Cut, Plan, Good, SecondStream;
    WithinPrefix(dev, startLog, log, Cut(s, dev.eraseSize), Cut(whole, dev.eraseSize), alive);
  }

  /** The image ended before its header was completed to whole blocks. */
  lemma SecondShort(out: MtdWriteContext, image: seq<byte>)
    requires out.Valid() && out.OnPlan() && out.stored < out.dev.eraseSize && out.dev.OnlyPowerCuts()
    requires out.given == image == SecondStream(image, out.dev.eraseSize)
    requires |image| < Span(HeaderLen(image), out.dev.eraseSize)
    ensures SecondDone(out.dev, out.startLog, out.dev.log, image, false, out.dev.Alive())
  {
    CutOfConcat(out.flushed, out.buffer[..out.stored], out.dev.eraseSize);
    hide Cut, Plan, Good, Concat;
  }

  lemma {:induction false} SpanPadded(headerLen: nat, s: seq<byte>, e: nat)
    requires e > 0 && |s| == Span(headerLen, e)
    ensures Padded(s, e) == s
  {
    if headerLen <= e {
      assert s + Fill(0, 0) == s;
    } else {
      SpanPadded(headerLen - e, s[e..], e);
      assert s == s[..e] + s[e..];
    }
  }

  /** Second pass: the header, then the rest of the blocks it lies in. It fails when the
      image is shorter than that. */
  method HeaderPass(dev: Device, image: seq<byte>) returns (ok: bool)
    requires dev.Valid() && image != []
    modifies dev
    ensures dev.Valid() && dev.Idle()
    ensures dev.OnlyPowerCuts() ==> SecondDone(dev, old(dev.log), dev.log, image, ok, dev.Alive())
    ensures if |image| < Span(HeaderLen(image), dev.eraseSize) then !ok
      else PassLeft(dev.Hardware(), old(dev.clock), SecondStream(image, dev.eraseSize), old(dev.blocks), dev.blocks, dev.clock, ok)
  {
    var h, e := HeaderLen(image), dev.eraseSize;
    ghost var whole, clock, blocks := SecondStream(image, e), dev.clock, dev.blocks;
    var out := new MtdWriteContext(dev);
    assert [] + image[..h] == image[..h] == whole[..h];
    FeedNothing(dev.Hardware(), Opened(clock));
    hide PassDone, SecondDone, WithinPlan, Cut, PassLeft, Feed;
    ok := WritePiece(out, image[..h], whole, clock, blocks);
    if !ok {
      NotFed(dev.Hardware(), clock, whole, blocks, dev.blocks, dev.clock);
      if dev.OnlyPowerCuts() { SecondCut(dev, out.startLog, dev.log, image, image[..h], dev.Alive()); }
      return;
    }
    ok := HeaderRest(out, image, whole, h, clock, blocks);
    if !ok && |image| >= Span(h, e) { NotFed(dev.Hardware(), clock, whole, blocks, dev.blocks, dev.clock); }
    if ok {
      assert whole[..|whole|] == whole;
      ok := FinishPass(out, whole, clock, blocks);
      if dev.OnlyPowerCuts() { SecondFinished(dev, out.startLog, dev.log, image, ok, dev.Alive()); }
    }
  }

  lemma SecondFinished(dev: Device, startLog: seq<Change>, log: seq<Change>, image: seq<byte>, ok: bool, alive: bool)
    requires dev.eraseSize > 0 && Span(HeaderLen(image), dev.eraseSize) <= |image|
    requires PassDone(dev, startLog, log, SecondStream(image, dev.eraseSize), ok, alive)
    ensures SecondDone(dev, startLog, log, image, ok, alive)
  {
    SpanPadded(HeaderLen(image), SecondStream(image, dev.eraseSize), dev.eraseSize);
    hide Cut, Plan, Good, SecondStream;
  }

  /** What a header lacks to whole blocks. */
  method StillMissing(h: nat, e: nat) returns (left: nat)
    requires e > 0
    ensures h + left == Span(h, e)
  {
    var missing := e - h;
    while missing < 0
      invariant missing <= e && Span(h, e) == h + missing + (if missing < 0 then Span(-missing, e) else 0)
      decreases -missing
    {
      missing := missing + e;
    }
    left := missing;
  }

  /** The loop that completes the header to whole blocks; it fails at the end of a short
      image. */
  method HeaderRest(out: MtdWriteContext, image: seq<byte>, ghost whole: seq<byte>, h: nat, ghost clock: nat,
      ghost blocks: seq<Block>) returns (ok: bool)
    requires out.Valid() && out.OnPlan() && out.stored < out.dev.eraseSize
    requires FedFrom(out, clock, blocks)
    requires h == HeaderLen(image) && whole == SecondStream(image, out.dev.eraseSize) && out.given == whole[..h]
    modifies out, out.buffer, out.dev
    ensures out.Valid() && out.dev.Idle()
    ensures ok ==> Span(h, out.dev.eraseSize) == |whole| <= |image| && FedFrom(out, clock, blocks)
    ensures !ok && |image| >= Span(h, out.dev.eraseSize) ==> Feed(out.dev.Hardware(), Opened(clock), whole).None?
    ensures ok ==> out.OnPlan() && out.stored < out.dev.eraseSize && out.given == whole
    ensures !ok && out.dev.OnlyPowerCuts() ==> SecondDone(out.dev, out.startLog, out.dev.log, image, false, out.dev.Alive())
  {
    hide PassDone, SecondDone, WithinPlan, Cut, MtdWriteContext.CutShort;
    var e := out.dev.eraseSize;
    var left := StillMissing(h, e);
    var at := h;
    while left > 0
      invariant 0 <= left && at + left == Span(h, e) && at <= |whole|
      invariant out.Valid() && out.OnPlan() && out.stored < e && out.given == whole[..at] && out.dev.Idle()
      invariant FedFrom(out, clock, blocks)
    {
      var len := if left > HEADER_SIZE then HEADER_SIZE else left;
      len := if |image| - at < len then |image| - at else len;
      if len <= 0 {
        assert whole[..at] == image;
        if out.dev.OnlyPowerCuts() { SecondShort(out, image); }
        return false;
      }
      ok := HeaderChunk(out, image, whole, at, len, clock, blocks);
      if !ok {
        return;
      }
      at, left := at + len, left - len;
    }
    assert whole[..at] == whole;
    ok := true;
  }

  method HeaderChunk(out: MtdWriteContext, image: seq<byte>, ghost whole: seq<byte>, at: nat, len: nat, ghost clock: nat,
      ghost blocks: seq<Block>) returns (ok: bool)
    requires out.Valid() && out.OnPlan() && out.stored < out.dev.eraseSize && FedFrom(out, clock, blocks)
    requires whole == SecondStream(image, out.dev.eraseSize) && at + len <= |whole| && out.given == whole[..at]
    modifies out, out.buffer, out.dev
    ensures out.Valid() && out.dev.Idle()
    ensures ok ==> out.OnPlan() && out.stored < out.dev.eraseSize && out.given == whole[..at + len] && FedFrom(out, clock, blocks)
    ensures !ok ==> Feed(out.dev.Hardware(), Opened(clock), whole).None?
    ensures !ok && out.dev.OnlyPowerCuts() ==> SecondDone(out.dev, out.startLog, out.dev.log, image, false, out.dev.Alive())
  {
    HeaderPiece(image, whole, at, len);
    ok := WritePiece(out, image[at..at + len], whole, clock, blocks);
    if !ok && out.dev.OnlyPowerCuts() {
      SecondCut(out.dev, out.startLog, out.dev.log, image, whole[..at + len], out.dev.Alive());
    }
  }

  lemma HeaderPiece(image: seq<byte>, whole: seq<byte>, at: nat, len: nat)
    requires whole <= image && at + len <= |whole|
    ensures whole[..at] + image[at..at + len] == whole[..at + len]
  {
  }

  /** How the log of a run splits into its two passes. */
  ghost predicate RunDone(dev: Device, log0: seq<Change>, log1: seq<Change>, log2: seq<Change>, image: seq<byte>,
      first: bool, second: bool, alive: bool)
    requires dev.eraseSize > 0
  {
    && PassDone(dev, log0, log1, Blanked(image), first, alive)
    && if first then SecondDone(dev, log1, log2, image, second, alive) else log2 == log1 && !second
  }

  /** The changes of a run are part of the plan, and all of it when the run succeeds. */
  lemma RunFollowsPlan(dev: Device, log0: seq<Change>, log1: seq<Change>, log2: seq<Change>, image: seq<byte>,
      first: bool, second: bool, alive: bool)
    requires dev.eraseSize > 0
    requires RunDone(dev, log0, log1, log2, image, first, second, alive)
    ensures var plan, bs := RunPlan(dev.bad, dev.count, dev.eraseSize, image), ImageBlocks(Blanked(image), dev.eraseSize);
      var short := |image| < Span(HeaderLen(image), dev.eraseSize);
      && log0 <= log2 && log2[|log0|..] <= plan
      && (second ==> log2 == log0 + plan && !short && Fits(dev.bad, dev.count, bs))
      && (!second && alive ==> short || !Fits(dev.bad, dev.count, bs))
  {
    if first {
      if |image| >= Span(HeaderLen(image), dev.eraseSize) { SecondBlocks(image, dev.eraseSize); }
      var p1 := Plan(dev.bad, dev.count, dev.eraseSize, ImageBlocks(Blanked(image), dev.eraseSize));
      var p2 := Plan(dev.bad, dev.count, dev.eraseSize, Cut(SecondStream(image, dev.eraseSize), dev.eraseSize));
      assert log1 == log0 + p1;
      hide ImageBlocks, Blanked, Good, Plan, Cut, SecondStream, Span, HeaderLen;
      TwoLogs(log0, p1, p2, log2);
    }
  }

  lemma TwoLogs(log0: seq<Change>, p1: seq<Change>, p2: seq<Change>, log2: seq<Change>)
    requires log0 + p1 <= log2 && log2[|log0 + p1|..] <= p2
    ensures log0 <= log2 && log2[|log0|..] <= p1 + p2
    ensures log2 == log0 + p1 + p2 ==> log2 == log0 + (p1 + p2)
  {
    assert log2 == log0 + p1 + log2[|log0 + p1|..];
    assert log2[|log0|..] == p1 + log2[|log0 + p1|..];
  }

  lemma CutNowhere(blocks: seq<Block>, bad: set<nat>, e: nat, image: seq<byte>)
    requires e > 0
    ensures RunCut(blocks, bad, e, image, 0) == blocks
  {
    assert RunPlan(bad, |blocks|, e, image)[..0] == [];
  }

  lemma RunLeaves(blocks: seq<Block>, bad: set<nat>, e: nat, image: seq<byte>, done: seq<Change>)
    requires e > 0 && done <= RunPlan(bad, |blocks|, e, image) && !HeaderMatches(blocks, bad, image)
    ensures RunCut(blocks, bad, e, image, |done|) == Apply(blocks, done)
  {
    assert RunPlan(bad, |blocks|, e, image)[..|done|] == done;
  }

  /** The program: 0 when the header is there already or the image was written, 1 where the
      source exits with an error. What it leaves is what a cut run leaves. */
  method Run(dev: Device, image: seq<byte>) returns (r: int)
    requires dev.Valid()
    modifies dev
    ensures dev.Valid() && (r == 0 || r == 1)
    ensures Flashed(dev.Hardware(), old(dev.clock), old(dev.blocks), dev.blocks, image, r)
    ensures dev.OnlyPowerCuts() ==> exists n: nat :: dev.blocks == RunCut(old(dev.blocks), dev.bad, dev.eraseSize, image, n)
    ensures dev.OnlyPowerCuts() && r == 0 && !HeaderMatches(old(dev.blocks), dev.bad, image) ==>
      Complete(dev.blocks, dev.bad, dev.eraseSize, image)
    ensures dev.OnlyPowerCuts() && dev.Alive() && r == 1 ==>
      |image| < Span(HeaderLen(image), dev.eraseSize) || !Fits(dev.bad, dev.count, ImageBlocks(Blanked(image), dev.eraseSize))
    ensures dev.OnlyPowerCuts() && dev.Alive() && HeaderMatches(old(dev.blocks), dev.bad, image) ==>
      r == 0 && dev.blocks == old(dev.blocks)
  {
    CutNowhere(dev.blocks, dev.bad, dev.eraseSize, image);
    if image == [] {
      return 1;
    }
    var checked := CheckHeader(dev, image);
    if checked {
      return 0;
    }
    ghost var first, log1;
    ghost var log0 := dev.log;
    r, first, log1 := TwoPasses(dev, image, old(dev.clock));
    if dev.OnlyPowerCuts() && HeaderMatches(old(dev.blocks), dev.bad, image) {
      assert dev.log == log0;
      LogApplied(dev.start, log0, old(dev.blocks), dev.log, dev.blocks);
      assert dev.blocks == RunCut(old(dev.blocks), dev.bad, dev.eraseSize, image, 0);
    } else if dev.OnlyPowerCuts() {
      RunFollowsPlan(dev, log0, log1, dev.log, image, first, r == 0, dev.Alive());
      LogApplied(dev.start, log0, old(dev.blocks), dev.log, dev.blocks);
      RunLeaves(old(dev.blocks), dev.bad, dev.eraseSize, image, dev.log[|log0|..]);
      assert dev.blocks == RunCut(old(dev.blocks), dev.bad, dev.eraseSize, image, |dev.log| - |log0|);
      if r == 0 {
        assert dev.log[|log0|..] == RunPlan(dev.bad, dev.count, dev.eraseSize, image);
        BothPassesComplete(old(dev.blocks), dev.bad, dev.eraseSize, image);
      }
    }
  }

  method TwoPasses(dev: Device, image: seq<byte>, ghost clock: nat)
      returns (r: int, ghost first: bool, ghost log1: seq<Change>)
    requires dev.Valid() && image != []
    requires dev.clock == AfterCheck(dev.Hardware(), clock, dev.blocks)
    requires !HeaderSeen(dev.Hardware(), clock, dev.blocks, image)
    modifies dev
    ensures dev.Valid() && dev.Idle() && (r == 0 || r == 1)
    ensures dev.OnlyPowerCuts() ==> RunDone(dev, old(dev.log), log1, dev.log, image, first, r == 0, dev.Alive())
    ensures Flashed(dev.Hardware(), clock, old(dev.blocks), dev.blocks, image, r)
  {
    hide PassDone, PassLeft, HeaderSeen, AfterCheck, Flashed;
    ghost var before := dev.blocks;
    var blanked := BlankPass(dev, image);
    first, log1 := blanked, dev.log;
    ghost var mid, now := dev.blocks, dev.clock;
    if !blanked {
      BothLeft(dev.Hardware(), clock, before, mid, mid, now, now, image, false, false);
      return 1, first, log1;
    }
    var ok := HeaderPass(dev, image);
    r := if ok then 0 else 1;
    BothLeft(dev.Hardware(), clock, before, mid, dev.blocks, now, dev.clock, image, true, ok);
    DoneAnyway(dev, old(dev.log), log1, Blanked(image));
  }

  lemma DoneAnyway(dev: Device, log0: seq<Change>, log1: seq<Change>, whole: seq<byte>)
    requires dev.eraseSize > 0
    ensures forall a, b :: PassDone(dev, log0, log1, whole, true, a) == PassDone(dev, log0, log1, whole, true, b)
  {
  }

  /** The header check finds the image's header, with the reads that work. */
  ghost predicate HeaderSeen(chip: Chip, clock: nat, blocks: seq<Block>, image: seq<byte>) {
    var stream := Concat(Seen(blocks, chip.bad, chip.fates, clock, 0));
    |image| >= HEADER_SIZE && |stream| >= HEADER_SIZE && stream[..HEADER_SIZE] == image[..HEADER_SIZE]
  }

  ghost function AfterCheck(chip: Chip, clock: nat, blocks: seq<Block>): nat {
    clock + ReadsFor(blocks, chip.bad, chip.fates, clock, 0, HEADER_SIZE)
  }

  // The exit status, and the writers of the passes that succeeded.
  datatype Flashing = Flashing(status: int, first: Option<Writer>, second: Option<Writer>)

  /** What the program comes to, for anything that fails. */
  ghost function RunOf(chip: Chip, clock: nat, blocks: seq<Block>, image: seq<byte>): Flashing
    requires 0 < chip.eraseSize
  {
    if image == [] then Flashing(1, None, None)
    else if HeaderSeen(chip, clock, blocks, image) then Flashing(0, None, None)
    else
      var first := Pass(chip, AfterCheck(chip, clock, blocks), Blanked(image));
      if first.None? then Flashing(1, None, None)
      else if |image| < Span(HeaderLen(image), chip.eraseSize) then Flashing(1, first, None)
      else
        var second := Pass(chip, first.value.clock, SecondStream(image, chip.eraseSize));
        Flashing(if second.Some? then 0 else 1, first, second)
  }

  /** What is on the device after a run: nothing new if the header was there; otherwise the
      blocks of the header where the second pass put them, and behind those the other
      blocks where the first did. */
  ghost predicate Flashed(chip: Chip, clock: nat, before: seq<Block>, after: seq<Block>, image: seq<byte>, r: int)
    requires 0 < chip.eraseSize
  {
    var run := RunOf(chip, clock, before, image);
    && r == run.status && |after| == |before| == chip.count
    && (run.first.None? && r == 0 ==> after == before)
    && (run.second.Some? ==>
          var p1, p2 := run.first.value, run.second.value;
          && OnDevice(after, p2.placed, ImageBlocks(SecondStream(image, chip.eraseSize), chip.eraseSize), chip.eraseSize, p2.pos)
          && |p1.placed| == |ImageBlocks(Blanked(image), chip.eraseSize)|
          && (forall k | 0 <= k < |p1.placed| && p2.pos <= p1.placed[k] < chip.count ::
                after[p1.placed[k]] == ImageBlocks(Blanked(image), chip.eraseSize)[k]))
  }

  lemma BothLeft(chip: Chip, clock: nat, before: seq<Block>, mid: seq<Block>, after: seq<Block>, now: nat, end: nat,
      image: seq<byte>, first: bool, second: bool)
    requires 0 < chip.eraseSize && image != [] && !HeaderSeen(chip, clock, before, image)
    requires |before| == |mid| == |after| == chip.count
    requires PassLeft(chip, AfterCheck(chip, clock, before), Blanked(image), before, mid, now, first)
    requires first ==> if |image| < Span(HeaderLen(image), chip.eraseSize) then !second
      else PassLeft(chip, now, SecondStream(image, chip.eraseSize), mid, after, end, second)
    requires !first ==> !second
    ensures Flashed(chip, clock, before, after, image, if second then 0 else 1)
  {
    hide Pass, Blanked, SecondStream, ImageBlocks, HeaderSeen, Span;
  }

  /** The comparison up front. Without power the header counts as different. */
  method CheckHeader(dev: Device, image: seq<byte>) returns (same: bool)
    requires dev.Valid() && image != []
    modifies dev
    ensures dev.Valid() && dev.Idle() && dev.blocks == old(dev.blocks) && dev.log == old(dev.log)
    ensures dev.OnlyPowerCuts() && dev.Alive() ==> (same <==> HeaderMatches(dev.blocks, dev.bad, image))
    ensures dev.OnlyPowerCuts() && same ==> HeaderMatches(dev.blocks, dev.bad, image)
    ensures same <==> HeaderSeen(dev.Hardware(), old(dev.clock), dev.blocks, image)
    ensures dev.clock == AfterCheck(dev.Hardware(), old(dev.clock), dev.blocks)
  {
    var h := HeaderLen(image);
    var input := new MtdReadContext(dev);
    ghost var seen := Seen(dev.blocks, dev.bad, dev.fates, dev.clock, 0);
    if dev.OnlyPowerCuts() { SeenBeforeCut(dev.blocks, dev.bad, dev.fates, dev.clock, 0); }
    var checklen, check := input.ReadData(HEADER_SIZE);
    same := checklen > 0 && checklen == h && check == image[..h];
    hide Seen, Readable, Concat;
    if dev.OnlyPowerCuts() {
      var readable := Readable(dev.blocks, dev.bad, 0);
      ConcatPrefix(seen, readable);
      if checklen != -1 {
        assert Concat(seen) == check + input.Remaining();
        assert Concat(seen)[..HEADER_SIZE] == check;
        assert Concat(readable)[..HEADER_SIZE] == check;
      } else if dev.Alive() {
        SeenWhenWorking(dev.blocks, dev.bad, dev.fates, old(dev.clock), 0);
      }
    }
  }

  lemma ConcatPrefix(a: seq<Block>, b: seq<Block>)
    requires a <= b
    ensures Concat(a) <= Concat(b)
  {
    assert b == a + b[|a|..];
    ConcatAppend(a, b[|a|..]);
  }

  // ---------------------------------------------------------------- when blocks fail

  /** Success means that the whole image is in place, in the blocks where the first pass put
      it, if the second pass put the header into the same ones. */
  lemma FlashedInPlace(chip: Chip, clock: nat, before: seq<Block>, after: seq<Block>, image: seq<byte>)
    requires 0 < chip.eraseSize && Flashed(chip, clock, before, after, image, 0)
    requires RunOf(chip, clock, before, image).second.Some?
    requires RunOf(chip, clock, before, image).second.value.placed <= RunOf(chip, clock, before, image).first.value.placed
    ensures var ps, bs := RunOf(chip, clock, before, image).first.value.placed, ImageBlocks(image, chip.eraseSize);
      |ps| == |bs| && Increasing(ps) && Below(ps, |after|) && forall k | 0 <= k < |ps| :: after[ps[k]] == bs[k]
    ensures OnlyBad(chip, RunOf(chip, clock, before, image).first.value) ==>
      Complete(after, chip.bad, chip.eraseSize, image)
  {
    var run := RunOf(chip, clock, before, image);
    var p1, p2, e := run.first.value, run.second.value, chip.eraseSize;
    var c1 := AfterCheck(chip, clock, before);
    SecondBlocks(image, e);
    SpanPadded(HeaderLen(image), SecondStream(image, e), e);
    PassPlaces(chip, c1, Blanked(image));
    PassPlaces(chip, p1.clock, SecondStream(image, e));
    var xs: seq<Block>, ys: seq<Block>, bs: seq<Block> := ImageBlocks(Blanked(image), e), ImageBlocks(SecondStream(image, e), e), ImageBlocks(image, e);
    assert ys == Cut(SecondStream(image, e), e);
    assert |p1.placed| == |xs| == |bs| && |p2.placed| == |ys|;
    EndOfPass(chip, p2);
    hide *;
    InPlace(after, p1.placed, p2.placed, xs, ys, bs, p2.pos, e);
  }

  /** Two passes whose second is in the same blocks as the beginning of the first. */
  lemma InPlace(after: seq<Block>, ps: seq<nat>, qs: seq<nat>, xs: seq<Block>, ys: seq<Block>, bs: seq<Block>, end: nat, e: nat)
    requires |ps| == |xs| == |bs| && |qs| == |ys| && qs <= ps && ys <= bs && xs[|ys|..] == bs[|ys|..]
    requires Increasing(ps) && Below(ps, |after|) && OnDevice(after, qs, ys, e, end)
    requires end == if qs == [] then 0 else qs[|qs|-1] + 1
    requires forall k | 0 <= k < |ps| && end <= ps[k] < |after| :: after[ps[k]] == xs[k]
    ensures forall k | 0 <= k < |ps| :: after[ps[k]] == bs[k]
  {
    forall k | 0 <= k < |ps| ensures after[ps[k]] == bs[k] {
      if k < |ys| {
        assert ps[k] == qs[k];
      } else {
        if qs != [] { IncreasingFrom(ps, |ys| - 1, k); }
        assert xs[|ys|..][k - |ys|] == bs[|ys|..][k - |ys|];
      }
    }
  }

  lemma EndOfPass(chip: Chip, w: Writer)
    requires Exact(w)
    ensures w.pos == if w.placed == [] then 0 else w.placed[|w.placed|-1] + 1
  {
  }

  lemma IncreasingFrom(s: seq<nat>, i: nat, j: nat)
    requires Increasing(s) && i < j < |s|
    ensures s[i] < s[j]
  {
    IncreasingPairs(s, i, j);
  }

  // ---------------------------------------------------------------- a run that only seems to succeed

  /** Two good blocks, of which the first cannot be erased any more when the header is written. */
  const WORN: Chip := Chip(2048, 2, {}, [
    Works, Works, Works, Works, Works, Works, Works, Fails([]), Fails([]), Works, Works, Works, Works])

  lemma WornPut(w: Writer, data: Block)
    requires |data| == 2048 && ((w.pos == 0 && w.clock in {1, 7}) || (w.pos == 1 && w.clock == 4))
    ensures var at: nat := if w.clock == 1 then 0 else 1;
      var (ok, w') := Put(WORN, w, data);
      && ok && w'.clock == (if w.clock == 1 then 4 else if w.clock == 4 then 7 else 13) && w'.pos == at + 1
      && w'.buffer == w.buffer && w'.placed == w.placed + [at] && w'.flushed == w.flushed + [data]
  {
    TwoChances(WORN, w.clock, w.pos, w.pos, data);
    if w.clock == 7 { TwoChances(WORN, 10, 1, 0, data); }
    hide Landing;
  }

  lemma WornFirst(x: Block, y: Block)
    requires |x| == |y| == 2048
    ensures var p := Pass(WORN, 1, x + y); p.Some? && p.value.clock == 7 && p.value.placed == [0, 1]
  {
    var w0 := Opened(1);
    var w1 := Put(WORN, w0, x).1;
    var w2 := Put(WORN, w1, y).1;
    WornPut(w0, x);
    WornPut(w1, y);
    hide Put;
    FeedBlock(WORN, w0, x, y);
    FeedBlock(WORN, w1, y, []);
    assert y + [] == y;
    FeedNothing(WORN, w2);
    assert [] + [0] + [1] == [0, 1];
  }

  lemma WornSecond(x: Block)
    requires |x| == 2048
    ensures var p := Pass(WORN, 7, x); p.Some? && p.value.placed == [1] && p.value.pos == 2
  {
    var w0 := Opened(7);
    var w1 := Put(WORN, w0, x).1;
    WornPut(w0, x);
    hide Put;
    FeedBlock(WORN, w0, x, []);
    assert x + [] == x;
    FeedNothing(WORN, w1);
    assert [] + [1] == [1];
  }

  lemma WornRun(x: Block, y: Block)
    requires |x| == |y| == 2048 && x[0] != 0xFF
    ensures var run := RunOf(WORN, 0, [Fill(2048, 0xFF), Fill(2048, 0xFF)], x + y);
      run.status == 0 && run.second.Some? && run.second.value.placed == [1] && run.second.value.pos == 2
  {
    var image: seq<byte> := x + y;
    ErasedCheck(image);
    assert Blanked(image) == Fill(2048, 0) + y && SecondStream(image, 2048) == x && HeaderLen(image) == 2048;
    assert Span(2048, 2048) == 2048;
    WornFirst(Fill(2048, 0), y);
    WornSecond(x);
    hide Pass, Blanked, SecondStream, HeaderSeen, AfterCheck, Span, HeaderLen;
  }

  /** An image of two blocks on that device: the program ends with status 0, and its header has
      replaced the second block of the image. */
  lemma HeaderMoves(x: Block, y: Block, after: seq<Block>)
    requires |x| == |y| == 2048 && x[0] != 0xFF && x != y
    ensures var before := [Fill(2048, 0xFF), Fill(2048, 0xFF)];
      && RunOf(WORN, 0, before, x + y).status == 0
      && (Flashed(WORN, 0, before, after, x + y, 0) ==> after[1] == x && !Complete(after, {}, 2048, x + y))
  {
    var before: seq<Block> := [Fill(2048, 0xFF), Fill(2048, 0xFF)];
    WornRun(x, y);
    if Flashed(WORN, 0, before, after, x + y, 0) {
      hide Fill;
      HeaderLanded(WORN, 0, before, after, x, y);
    }
  }

  lemma HeaderLanded(chip: Chip, clock: nat, before: seq<Block>, after: seq<Block>, x: Block, y: Block)
    requires chip.eraseSize == 2048 && chip.count == 2 && |x| == |y| == 2048 && x != y
    requires Flashed(chip, clock, before, after, x + y, 0)
    requires var run := RunOf(chip, clock, before, x + y); run.second.Some? && run.second.value.placed == [1]
    ensures |after| == 2 && after[1] == x && !Complete(after, {}, 2048, x + y)
  {
    assert SecondStream(x + y, 2048) == x by { assert HeaderLen(x + y) == 2048; }
    TwoBlocks(x, y);
    OneBlock(x);
    SecondGood();
    var p2 := RunOf(chip, clock, before, x + y).second.value;
    assert OnDevice(after, p2.placed, [x], 2048, p2.pos);
    hide RunOf, SecondStream, ImageBlocks, Good, Blanked, Flashed;
    assert p2.placed[0] == 1 && after[p2.placed[0]] == [x][0];
    CompleteSecond(after, x, y);
  }

  lemma CompleteSecond(after: seq<Block>, x: Block, y: Block)
    requires |after| == 2 && |x| == |y| == 2048
    ensures Complete(after, {}, 2048, x + y) ==> after[1] == y
  {
    TwoBlocks(x, y);
    SecondGood();
    assert [x, y][1] == y;
    hide ImageBlocks, Good;
  }

  lemma ErasedCheck(image: seq<byte>)
    requires |image| >= 2048 && image[0] != 0xFF
    ensures var before := [Fill(2048, 0xFF), Fill(2048, 0xFF)];
      AfterCheck(WORN, 0, before) == 1 && !HeaderSeen(WORN, 0, before, image)
  {
    var before: seq<Block> := [Fill(2048, 0xFF), Fill(2048, 0xFF)];
    assert before[0][0] == 0xFF;
    var rest := Seen(before, {}, WORN.fates, 1, 1);
    assert Seen(before, {}, WORN.fates, 0, 0) == [before[0]] + rest;
    ConcatFirst(before[0], rest);
    assert ReadsFor(before, {}, WORN.fates, 1, 1, 0) == 0;
  }

  lemma TwoBlocks(x: Block, y: Block)
    requires |x| == |y| == 2048
    ensures ImageBlocks(x + y, 2048) == [x, y]
  {
    BlocksFront(x + y, 2048);
    assert (x + y)[..2048] == x && (x + y)[2048..] == y;
    OneBlock(y);
  }

  lemma OneBlock(x: Block)
    requires |x| == 2048
    ensures ImageBlocks(x, 2048) == [x]
  {
    BlocksFront(x, 2048);
    assert x[..2048] == x && x[2048..] == [] && ImageBlocks([], 2048) == [];
  }

  lemma SecondGood()
    ensures Good({}, 2, 1) == 1
  {
    assert NextGood({}, 2, 0) == 0 && NextGood({}, 2, 1) == 1;
  }
}
