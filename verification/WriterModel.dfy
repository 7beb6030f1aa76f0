/** What writing does to a write context of mtdutils/mtdutils.c, as a function of what
    happens to its operations: which blocks are accepted, where they go, which positions
    are skipped, and where the file offset is left, after a failure too. */
module WriterModel {
  import opened Wrappers  // Option
  import opened Bytes
  import opened Series
  import opened Flash
  import opened Chunks

  function Range(a: nat, b: nat): (r: seq<nat>)
    requires a <= b
    ensures |r| == b - a && forall i | 0 <= i < |r| :: r[i] == a + i
  {
    seq(b - a, i requires 0 <= i => a + i)
  }

  ghost predicate Increasing(s: seq<nat>) {
    forall i | 1 <= i < |s| :: s[i - 1] < s[i]
  }

  lemma {:induction false} IncreasingPairs(s: seq<nat>, i: nat, j: nat)
    requires Increasing(s) && i < j < |s|
    ensures s[i] < s[j]
    decreases j
  {
    if i < j - 1 { IncreasingPairs(s, i, j - 1); }
  }

  ghost predicate Below(s: seq<nat>, p: nat) {
    forall i | 0 <= i < |s| :: s[i] < p
  }

  /** Every position before p is in exactly one of the two lists. */
  ghost predicate Partition(a: seq<nat>, b: seq<nat>, p: nat) {
    forall i | 0 <= i < p :: (i in a) != (i in b)
  }

  lemma PartitionGrows(a: seq<nat>, b: seq<nat>, p: nat, q: nat)
    requires p < q && Partition(a, b, p) && Below(a, p) && Below(b, p)
    ensures Partition(a + [q - 1], b + Range(p, q - 1), q)
  {
    var a', b' := a + [q - 1], b + Range(p, q - 1);
    forall i | 0 <= i < q ensures (i in a') != (i in b') {
      if p <= i < q - 1 {
        assert Range(p, q - 1)[i - p] == i;
      } else if i == q - 1 {
        assert a'[|a|] == i;
      }
    }
  }

  /** Positions before p are split between accepted and skipped, skipped ones in order. */
  ghost predicate Split(placed: seq<nat>, badBlocks: seq<nat>, p: nat) {
    && Increasing(badBlocks) && Below(badBlocks, p) && Partition(placed, badBlocks, p)
    && p == AfterLast(placed)
  }

  ghost function AfterLast(placed: seq<nat>): nat {
    if placed == [] then 0 else placed[|placed|-1] + 1
  }

  lemma SplitGrows(placed: seq<nat>, badBlocks: seq<nat>, p: nat, q: nat)
    requires p < q && Split(placed, badBlocks, p) && Below(placed, p)
    ensures Split(placed + [q - 1], badBlocks + Range(p, q - 1), q)
  {
    PartitionGrows(placed, badBlocks, p, q);
  }

  // ---------------------------------------------------------------- one block

  // Whether the data is there and reads back, the file offset left, the next operation.
  datatype Tried = Tried(ok: bool, off: nat, next: nat)

  /** One attempt at one position, from the n-th operation on. */
  function Attempt(fates: seq<Fate>, n: nat, at: nat, off: nat, data: Block): Tried {
    if !WorksAt(fates, n) then Tried(false, off, n + 1)
    else if !WorksAt(fates, n + 2) then Tried(false, at, n + 3)
    else Tried(Left(fates[n + 1], data, |data|) == data, at + 1, n + 3)
  }

  /** Two attempts, then one more erase. */
  function TwoAttempts(fates: seq<Fate>, n: nat, at: nat, off: nat, data: Block): (t: Tried)
    ensures off <= at ==> off <= t.off <= at + 1
    ensures t.ok ==> t.off == at + 1
  {
    var first := Attempt(fates, n, at, off, data);
    if first.ok then first
    else
      var second := Attempt(fates, first.next, at, first.off, data);
      if second.ok then second else second.(next := second.next + 1)
  }

  // Where a block landed, the file offset left, the next operation.
  datatype Landed = Landed(at: Option<nat>, off: nat, next: nat)

  /** The first position from p on that is not factory-bad and takes the data within two
      attempts. */
  function Landing(chip: Chip, n: nat, p: nat, off: nat, data: Block): (l: Landed)
    requires off <= p <= chip.count
    ensures off <= l.off <= chip.count
    ensures l.at.Some? ==> p <= l.at.value < chip.count && l.off == l.at.value + 1 && l.at.value !in chip.bad
    decreases chip.count - p
  {
    if p == chip.count then Landed(None, off, n)
    else if p in chip.bad then Landing(chip, n, p + 1, off, data)
    else
      var t := TwoAttempts(chip.fates, n, p, off, data);
      if t.ok then Landed(Some(p), t.off, t.next) else Landing(chip, t.next, p + 1, t.off, data)
  }

  /** Erase, write and read from the n-th operation on all work. */
  predicate AttemptWorks(fates: seq<Fate>, n: nat) { n + 3 <= |fates| && fates[n].Works? && fates[n + 1].Works? && fates[n + 2].Works? }

  /** Every block that is not factory-bad has two chances: an attempt that works ends the
      search there, a block whose erase fails twice is erased once more and passed over. */
  lemma TwoChances(chip: Chip, n: nat, p: nat, off: nat, data: Block)
    requires off <= p < chip.count && p !in chip.bad
    ensures AttemptWorks(chip.fates, n) ==> Landing(chip, n, p, off, data) == Landed(Some(p), p + 1, n + 3)
    ensures n < |chip.fates| && chip.fates[n].Fails? && AttemptWorks(chip.fates, n + 1) ==>
      Landing(chip, n, p, off, data) == Landed(Some(p), p + 1, n + 4)
    ensures n + 2 < |chip.fates| && chip.fates[n].Works? && chip.fates[n + 2].Fails? && AttemptWorks(chip.fates, n + 3) ==>
      Landing(chip, n, p, off, data) == Landed(Some(p), p + 1, n + 6)
    ensures n + 1 < |chip.fates| && chip.fates[n].Fails? && chip.fates[n + 1].Fails? ==>
      Landing(chip, n, p, off, data) == Landing(chip, n + 3, p + 1, off, data)
  {
  }

  // ---------------------------------------------------------------- the writer

  /** The next operation, the file offset, the buffered bytes, the skipped positions in
      order, and the accepted blocks with their positions. */
  datatype Writer = Writer(clock: nat, pos: nat, buffer: seq<byte>, skipped: seq<nat>, placed: seq<nat>, flushed: seq<Block>)

  function Opened(clock: nat): Writer { Writer(clock, 0, [], [], [], []) }

  /** write_block */
  function Put(chip: Chip, w: Writer, data: Block): (r: (bool, Writer))
    requires w.pos <= chip.count
    ensures w.pos <= r.1.pos <= chip.count && r.1.buffer == w.buffer
  {
    var l := Landing(chip, w.clock, w.pos, w.pos, data);
    var end := if l.at.Some? then l.at.value else chip.count;
    var w' := w.(clock := l.next, pos := l.off, skipped := w.skipped + Range(w.pos, end));
    if l.at.Some? then (true, w'.(placed := w.placed + [end], flushed := w.flushed + [data])) else (false, w')
  }

  /** mtd_write_data; None if it fails. */
  function Feed(chip: Chip, w: Writer, data: seq<byte>): (r: Option<Writer>)
    requires w.pos <= chip.count && |w.buffer| < chip.eraseSize
    ensures r.Some? ==> w.pos <= r.value.pos <= chip.count && |r.value.buffer| < chip.eraseSize
    decreases |data|
  {
    if |w.buffer| + |data| < chip.eraseSize then Some(w.(buffer := w.buffer + data))
    else
      var k := chip.eraseSize - |w.buffer|;
      var (ok, w') := Put(chip, w, w.buffer + data[..k]);
      if ok then Feed(chip, w'.(buffer := []), data[k..]) else None
  }

  function ZerosFor(chip: Chip, w: Writer): seq<byte>
    requires |w.buffer| <= chip.eraseSize
  {
    if w.buffer == [] then [] else Fill(chip.eraseSize - |w.buffer|, 0)
  }

  /** The zero-padding and writing of a partial block. */
  function Flushed(chip: Chip, w: Writer): (r: (bool, Writer))
    requires w.pos <= chip.count && |w.buffer| <= chip.eraseSize
    ensures w.pos <= r.1.pos <= chip.count && r.1.buffer == (if r.0 then [] else w.buffer)
  {
    if w.buffer == [] then (true, w)
    else
      var (ok, w') := Put(chip, w, w.buffer + ZerosFor(chip, w));
      (ok, if ok then w'.(buffer := []) else w')
  }

  /** mtd_find_write_start */
  function WriteStart(skipped: seq<nat>, start: int): (r: int)
    ensures start <= r && (start < 0 ==> r == start)
  {
    if skipped == [] || skipped[0] > start then start
    else WriteStart(skipped[1..], if skipped[0] == start then start + 1 else start)
  }

  /** r is the least position from start on that is not in the list. */
  ghost predicate FirstNotIn(list: seq<nat>, start: int, r: int) {
    start <= r && (r < 0 || r !in list) && forall q: nat | start <= q < r :: q in list
  }

  /** In an increasing list the search finds the least position that was not skipped. */
  lemma {:induction false} WriteStartIsFirst(skipped: seq<nat>, start: int)
    requires Increasing(skipped)
    ensures FirstNotIn(skipped, start, WriteStart(skipped, start))
  {
    if skipped != [] {
      var rest := skipped[1..];
      forall k | 0 < k < |skipped| ensures skipped[0] < skipped[k] { IncreasingPairs(skipped, 0, k); }
      assert forall i | 1 <= i < |rest| :: rest[i - 1] == skipped[i] < skipped[i + 1];
      assert forall q :: q in skipped <==> q == skipped[0] || q in rest;
      WriteStartIsFirst(rest, if skipped[0] == start then start + 1 else start);
    }
  }

  // ---------------------------------------------------------------- what is kept

  /** Accepted blocks are at increasing positions before the file offset, none factory-bad. */
  ghost predicate Orderly(chip: Chip, w: Writer) {
    && 0 < chip.eraseSize && w.pos <= chip.count && |w.buffer| < chip.eraseSize
    && |w.placed| == |w.flushed| && AllSized(w.flushed, chip.eraseSize)
    && Increasing(w.placed) && Below(w.placed, w.pos)
    && (forall k | 0 <= k < |w.placed| :: w.placed[k] !in chip.bad)
  }

  /** Until a block is refused, skipped and accepted positions partition what was passed. */
  ghost predicate Exact(w: Writer) { Split(w.placed, w.skipped, w.pos) }

  /** More was accepted, at or after position p. */
  ghost predicate Extends(placed: seq<nat>, placed': seq<nat>, flushed: seq<Block>, flushed': seq<Block>, p: nat, p': nat) {
    && p <= p' && placed <= placed' && flushed <= flushed'
    && (forall k | |placed| <= k < |placed'| :: p <= placed'[k])
  }

  ghost predicate Grew(w: Writer, w': Writer) {
    Extends(w.placed, w'.placed, w.flushed, w'.flushed, w.pos, w'.pos)
  }

  lemma GrewTwice(a: Writer, b: Writer, c: Writer)
    requires Grew(a, b) && Grew(b, c)
    ensures Grew(a, c)
  {
  }

  /** One block: accepted behind the others with every position passed over recorded, or
      refused with all the remaining ones recorded. */
  lemma PutKeeps(chip: Chip, w: Writer, data: Block)
    requires Orderly(chip, w) && |data| == chip.eraseSize
    ensures var (ok, w') := Put(chip, w, data);
      && Orderly(chip, w') && Grew(w, w')
      && (ok ==> (Exact(w) ==> Exact(w')) && w'.flushed == w.flushed + [data] && w'.placed == w.placed + [w'.pos - 1])
      && (!ok ==> w'.flushed == w.flushed && w'.placed == w.placed && w'.skipped == w.skipped + Range(w.pos, chip.count))
  {
    var (ok, w') := Put(chip, w, data);
    if ok && Exact(w) { SplitGrows(w.placed, w.skipped, w.pos, w'.pos); }
  }

  /** The stream a writer was given: its accepted blocks and what is buffered. */
  function Stream(w: Writer): seq<byte> { Concat(w.flushed) + w.buffer }

  /** Writing adds the data to the stream. */
  lemma {:induction false} FeedKeeps(chip: Chip, w: Writer, data: seq<byte>)
    requires Orderly(chip, w)
    ensures var r := Feed(chip, w, data);
      r.Some? ==>
        && Orderly(chip, r.value) && Grew(w, r.value) && Stream(r.value) == Stream(w) + data
        && (Exact(w) ==> Exact(r.value))
    decreases |data|
  {
    if |w.buffer| + |data| < chip.eraseSize {
      Regroup(Concat(w.flushed), w.buffer, data);
    } else {
      var k := chip.eraseSize - |w.buffer|;
      var block := w.buffer + data[..k];
      var (ok, w1) := Put(chip, w, block);
      PutKeeps(chip, w, block);
      if ok {
        var w2 := w1.(buffer := []);
        FeedKeeps(chip, w2, data[k..]);
        BlockMoved(w.flushed, w.buffer, data, k, block);
        hide Put, Orderly, Exact, Concat;
        if Feed(chip, w2, data[k..]).Some? { GrewTwice(w, w2, Feed(chip, w2, data[k..]).value); }
      }
    }
  }

  lemma BlockMoved(flushed: seq<Block>, buffer: seq<byte>, data: seq<byte>, k: nat, block: Block)
    requires k <= |data| && block == buffer + data[..k]
    ensures Concat(flushed + [block]) + [] + data[k..] == Concat(flushed) + buffer + data
  {
    ConcatPush(flushed, block);
    hide Concat;
    Regroup(Concat(flushed), buffer, data[..k]);
    AppendRest(Concat(flushed) + buffer, data, k);
  }

  // ---------------------------------------------------------------- step by step

  lemma PutAccepts(chip: Chip, w: Writer, data: Block)
    requires w.pos <= chip.count
    ensures var (ok, w') := Put(chip, w, data);
      w'.flushed == if ok then w.flushed + [data] else w.flushed
  {
  }

  lemma FeedNothing(chip: Chip, w: Writer)
    requires w.pos <= chip.count && |w.buffer| < chip.eraseSize
    ensures Feed(chip, w, []) == Some(w)
  {
    assert w.buffer + [] == w.buffer;
  }

  /** A whole block of data for an empty buffer. */
  lemma FeedBlock(chip: Chip, w: Writer, block: Block, rest: seq<byte>)
    requires w.pos <= chip.count && w.buffer == [] && 0 < |block| == chip.eraseSize
    ensures var (ok, w') := Put(chip, w, block);
      Feed(chip, w, block + rest) == if ok then Feed(chip, w', rest) else None
  {
    assert (block + rest)[..|block|] == block && (block + rest)[|block|..] == rest && [] + block == block;
  }

  /** Data that completes the buffered block. */
  lemma FeedFull(chip: Chip, w: Writer, data: seq<byte>, k: nat, full: Block)
    requires w.pos <= chip.count && |w.buffer| < chip.eraseSize && k <= |data|
    requires full == w.buffer + data[..k] && |full| == chip.eraseSize
    ensures var (ok, w') := Put(chip, w.(buffer := full), full);
      Feed(chip, w, data) == if ok then Feed(chip, w'.(buffer := []), data[k..]) else None
  {
  }

  /** Data that does not. */
  lemma FeedPart(chip: Chip, w: Writer, data: seq<byte>, k: nat)
    requires w.pos <= chip.count && k <= |data| && |w.buffer| + k < chip.eraseSize
    requires k == 0 || k == |data|
    ensures Feed(chip, w, data) == Feed(chip, w.(buffer := w.buffer + data[..k]), data[k..])
  {
    if k == 0 {
      assert w.buffer + data[..0] == w.buffer && data[0..] == data;
    } else {
      assert data[..k] == data && data[k..] == [];
      FeedNothing(chip, w.(buffer := w.buffer + data));
    }
  }

  /** Two calls are as good as one. */
  lemma {:induction false} FeedTwice(chip: Chip, w: Writer, a: seq<byte>, b: seq<byte>)
    requires w.pos <= chip.count && |w.buffer| < chip.eraseSize
    ensures var first := Feed(chip, w, a);
      Feed(chip, w, a + b) == if first.Some? then Feed(chip, first.value, b) else None
    decreases |a|
  {
    if |w.buffer| + |a| < chip.eraseSize {
      var w1 := w.(buffer := w.buffer + a);
      if |w1.buffer| + |b| < chip.eraseSize {
        Regroup(w.buffer, a, b);
      } else {
        var k := chip.eraseSize - |w.buffer|;
        assert (a + b)[..k] == a + b[..k - |a|] && (a + b)[k..] == b[k - |a|..];
        Regroup(w.buffer, a, b[..k - |a|]);
      }
    } else {
      var k := chip.eraseSize - |w.buffer|;
      assert (a + b)[..k] == a[..k] && (a + b)[k..] == a[k..] + b;
      var (ok, w') := Put(chip, w, w.buffer + a[..k]);
      if ok { FeedTwice(chip, w'.(buffer := []), a[k..], b); }
    }
  }

  // ---------------------------------------------------------------- a section

  /** Data, and the completion of its last block. */
  function Section(chip: Chip, w: Writer, data: seq<byte>): (r: Option<Writer>)
    requires w.pos <= chip.count && w.buffer == [] && 0 < chip.eraseSize
    ensures r.Some? ==> w.pos <= r.value.pos <= chip.count && r.value.buffer == []
  {
    var fed := Feed(chip, w, data);
    if fed.None? then None
    else
      var (ok, w') := Flushed(chip, fed.value);
      if ok then Some(w') else None
  }

  /** A partial block: completed behind the others, or refused and kept. */
  lemma FlushKeeps(chip: Chip, w: Writer)
    requires Orderly(chip, w)
    ensures var (ok, w') := Flushed(chip, w);
      && Orderly(chip, w') && Grew(w, w')
      && (ok ==> (Exact(w) ==> Exact(w')) && Concat(w'.flushed) == Stream(w) + ZerosFor(chip, w))
      && (!ok ==> w.buffer != [] && w'.flushed == w.flushed && w'.placed == w.placed)
      && (!ok ==> w'.skipped == w.skipped + Range(w.pos, chip.count))
  {
    if w.buffer == [] {
      assert Stream(w) + [] == Stream(w) == Concat(w.flushed);
    } else {
      var last := w.buffer + ZerosFor(chip, w);
      PutKeeps(chip, w, last);
      ConcatPush(w.flushed, last);
      Regroup(Concat(w.flushed), w.buffer, ZerosFor(chip, w));
    }
  }

  lemma Cancel(a: seq<byte>, b: seq<byte>, c: seq<byte>)
    requires a + b == a + c
    ensures b == c
  {
    assert b == (a + b)[|a|..];
    assert c == (a + c)[|a|..];
  }

  /** The blocks a section added to the accepted ones are the blocks of its data. */
  lemma SectionBlocks(before: seq<Block>, middle: seq<Block>, after: seq<Block>, data: seq<byte>,
      rest: seq<byte>, padding: seq<byte>, e: nat)
    requires e > 0 && before <= middle <= after && AllSized(after, e) && |rest| < e
    requires Concat(before) + data == Concat(middle) + rest
    requires padding == if rest == [] then [] else Fill(e - |rest|, 0)
    requires Concat(after) == Concat(before) + data + padding
    ensures after == before + ImageBlocks(data, e)
  {
    var y, z := middle[|before|..], after[|before|..];
    assert middle == before + y && after == before + z;
    ConcatAppend(before, y);
    ConcatAppend(before, z);
    Regroup(Concat(before), Concat(y), rest);
    Cancel(Concat(before), data, Concat(y) + rest);
    assert AllSized(y, e) by { forall i | 0 <= i < |y| ensures |y[i]| == e { assert y[i] == after[|before| + i]; } }
    StreamBlocks(data, y, rest, padding, e);
    Regroup(Concat(before), data, padding);
    Cancel(Concat(before), data + padding, Concat(z));
    assert AllSized(z, e);
    WrittenBlocks(data, padding, z, e);
  }

  /** A finished section adds the blocks of its data to the accepted ones. */
  lemma SectionKeeps(chip: Chip, w: Writer, data: seq<byte>)
    requires Orderly(chip, w) && w.buffer == []
    ensures var r := Section(chip, w, data);
      r.Some? ==>
        && Orderly(chip, r.value) && Grew(w, r.value) && (Exact(w) ==> Exact(r.value))
        && r.value.flushed == w.flushed + ImageBlocks(data, chip.eraseSize)
  {
    var fed := Feed(chip, w, data);
    FeedKeeps(chip, w, data);
    if fed.Some? {
      var w1 := fed.value;
      var (ok, w2) := Flushed(chip, w1);
      FlushKeeps(chip, w1);
      if ok {
        hide Feed, Flushed, Exact, Concat, ImageBlocks;
        assert Concat(w.flushed) + [] == Concat(w.flushed);
        GrewTwice(w, w1, w2);
        SectionBlocks(w.flushed, w1.flushed, w2.flushed, data, w1.buffer, ZerosFor(chip, w1), chip.eraseSize);
      }
    }
  }

  /** All of a stream written by a fresh writer, and closed. */
  function Pass(chip: Chip, clock: nat, data: seq<byte>): Option<Writer>
    requires 0 < chip.eraseSize
  {
    Section(chip, Opened(clock), data)
  }

  /** If all of the stream was accepted and only factory-bad positions were skipped, its
      blocks went to the good blocks in order. */
  lemma PassPlaces(chip: Chip, clock: nat, data: seq<byte>)
    requires 0 < chip.eraseSize && Pass(chip, clock, data).Some?
    ensures var w := Pass(chip, clock, data).value;
      && Orderly(chip, w) && Exact(w) && w.flushed == ImageBlocks(data, chip.eraseSize)
      && (OnlyBad(chip, w) ==> OnGoodBlocks(chip, w))
  {
    SectionKeeps(chip, Opened(clock), data);
    var w := Pass(chip, clock, data).value;
    assert w.flushed == ImageBlocks(data, chip.eraseSize);
    if OnlyBad(chip, w) {
      forall k | 0 <= k < |w.placed| ensures w.placed[k] == Good(chip.bad, chip.count, k) { PlacedGood(chip, w, k); }
    }
  }

  /** Every skipped position is factory-bad. */
  ghost predicate OnlyBad(chip: Chip, w: Writer) {
    forall i | 0 <= i < |w.skipped| :: w.skipped[i] in chip.bad
  }

  ghost predicate OnGoodBlocks(chip: Chip, w: Writer) {
    forall k | 0 <= k < |w.placed| :: w.placed[k] == Good(chip.bad, chip.count, k)
  }

  lemma {:induction false} PlacedGood(chip: Chip, w: Writer, k: nat)
    requires Orderly(chip, w) && Exact(w) && OnlyBad(chip, w) && k < |w.placed|
    ensures w.placed[k] == Good(chip.bad, chip.count, k)
  {
    var p := if k == 0 then 0 else w.placed[k - 1] + 1;
    if k > 0 { PlacedGood(chip, w, k - 1); }
    forall i | p <= i < w.placed[k] ensures i in chip.bad {
      if i in w.placed {
        var j :| 0 <= j < |w.placed| && w.placed[j] == i;
        if j < k - 1 { IncreasingPairs(w.placed, j, k - 1); }
        if k < j { IncreasingPairs(w.placed, k, j); }
      }
      assert i in w.skipped;
    }
    NextGoodIs(chip.bad, chip.count, p, w.placed[k]);
  }

  lemma {:induction false} NextGoodIs(bad: set<nat>, count: nat, p: nat, q: nat)
    requires p <= q < count && q !in bad && forall i | p <= i < q :: i in bad
    ensures NextGood(bad, count, p) == q
    decreases q - p
  {
    if p < q { NextGoodIs(bad, count, p + 1, q); }
  }

  // ---------------------------------------------------------------- when only the power fails

  /** While there is power a block lands on the next good position. */
  lemma {:induction false} LandingWorks(chip: Chip, n: nat, p: nat, off: nat, data: Block)
    requires off <= p <= chip.count && PowerCutsOnly(chip)
    ensures var q, l := NextGood(chip.bad, chip.count, p), Landing(chip, n, p, off, data);
      if q < chip.count && n + 3 <= |chip.fates| then l == Landed(Some(q), q + 1, n + 3)
      else l.at.None? && n <= l.next && (q == chip.count || |chip.fates| <= l.next)
    decreases chip.count - p
  {
    if p < chip.count {
      if p in chip.bad {
        LandingWorks(chip, n, p + 1, off, data);
      } else {
        var t := TwoAttempts(chip.fates, n, p, off, data);
        if !t.ok { LandingWorks(chip, t.next, p + 1, t.off, data); }
      }
    }
  }

  /** A writer on the good blocks in order. */
  ghost predicate Planned(chip: Chip, w: Writer) {
    && |w.placed| == |w.flushed| && w.pos == AfterLast(w.placed) <= chip.count
    && OnGoodBlocks(chip, w) && OnlyBad(chip, w)
  }

  /** There are good blocks and operations for k more blocks. */
  ghost predicate Enough(chip: Chip, placed: nat, clock: nat, k: nat) {
    k == 0 || (Good(chip.bad, chip.count, placed + k - 1) < chip.count && clock + 3 * k <= |chip.fates|)
  }

  lemma EnoughTwice(chip: Chip, placed: nat, clock: nat, j: nat, k: nat)
    ensures Enough(chip, placed, clock, j + k) <==> Enough(chip, placed, clock, j) && Enough(chip, placed + j, clock + 3 * j, k)
  {
    if j > 0 && k > 0 { GoodIncreases(chip.bad, chip.count, placed + j - 1, placed + j + k - 1); }
    hide Good;
  }

  /** k more blocks were written if there was enough for them, and otherwise the call failed. */
  ghost predicate Wrote(chip: Chip, w: Writer, r: Option<Writer>, k: nat) {
    && (r.Some? <==> Enough(chip, |w.placed|, w.clock, k))
    && (r.Some? ==> Planned(chip, r.value) && r.value.clock == w.clock + 3 * k && |r.value.placed| == |w.placed| + k)
  }

  lemma WroteTwice(chip: Chip, w: Writer, first: Option<Writer>, r: Option<Writer>, j: nat, k: nat)
    requires Wrote(chip, w, first, j)
    requires if first.Some? then Wrote(chip, first.value, r, k) else r.None?
    ensures Wrote(chip, w, r, j + k)
  {
    hide Enough, Planned;
    EnoughTwice(chip, |w.placed|, w.clock, j, k);
  }

  /** The last block of a section. */
  function Closing(chip: Chip, w: Writer, data: Block): Option<Writer>
    requires w.pos <= chip.count
  {
    var (ok, w') := Put(chip, w, data);
    if ok then Some(w'.(buffer := [])) else None
  }

  lemma PutWorks(chip: Chip, w: Writer, data: Block)
    requires PowerCutsOnly(chip) && Planned(chip, w)
    ensures Wrote(chip, w, Closing(chip, w, data), 1)
  {
    LandingWorks(chip, w.clock, w.pos, w.pos, data);
    NextOnPlan(chip, w);
    hide NextGood, Landing, Good, PowerCutsOnly;
  }

  lemma NextOnPlan(chip: Chip, w: Writer)
    requires Planned(chip, w)
    ensures NextGood(chip.bad, chip.count, w.pos) == Good(chip.bad, chip.count, |w.placed|)
  {
  }

  /** While only the power can fail, data is written exactly if there is enough of both. */
  lemma {:induction false} FeedWorks(chip: Chip, w: Writer, data: seq<byte>)
    requires PowerCutsOnly(chip) && Planned(chip, w) && |w.buffer| < chip.eraseSize
    ensures Wrote(chip, w, Feed(chip, w, data), |Cut(w.buffer + data, chip.eraseSize)|)
    decreases |data|
  {
    hide Good, NextGood;
    var all := w.buffer + data;
    if |all| < chip.eraseSize {
      assert Cut(all, chip.eraseSize) == [];
    } else {
      var k := chip.eraseSize - |w.buffer|;
      var (ok, w') := Put(chip, w, w.buffer + data[..k]);
      PutWorks(chip, w, w.buffer + data[..k]);
      var rest := |Cut(data[k..], chip.eraseSize)|;
      assert all[chip.eraseSize..] == data[k..] == [] + data[k..];
      assert |Cut(all, chip.eraseSize)| == 1 + rest;
      var w1 := w'.(buffer := []);
      if ok {
        assert Planned(chip, w1);
        FeedWorks(chip, w1, data[k..]);
      }
      hide Put, Cut, Wrote, Planned;
      WroteTwice(chip, w, if ok then Some(w1) else None, Feed(chip, w, data), 1, rest);
    }
  }

  /** How many blocks of some data were accepted, and how many it has. */
  lemma FedBlocks(chip: Chip, w: Writer, w1: Writer, data: seq<byte>)
    requires Orderly(chip, w) && Orderly(chip, w1) && w.buffer == [] && Grew(w, w1) && Stream(w1) == Stream(w) + data
    ensures |Cut(data, chip.eraseSize)| == |w1.flushed| - |w.flushed|
    ensures |ImageBlocks(data, chip.eraseSize)| == |Cut(data, chip.eraseSize)| + if w1.buffer == [] then 0 else 1
  {
    var y := w1.flushed[|w.flushed|..];
    assert w1.flushed == w.flushed + y;
    ConcatAppend(w.flushed, y);
    assert Stream(w) == Concat(w.flushed);
    Regroup(Concat(w.flushed), Concat(y), w1.buffer);
    Cancel(Concat(w.flushed), data, Concat(y) + w1.buffer);
    CutOfConcat(y, w1.buffer, chip.eraseSize);
    StreamBlocks(data, y, w1.buffer, ZerosFor(chip, w1), chip.eraseSize);
  }

  /** While only the power can fail, a section is finished exactly if there are good blocks
      and operations for its blocks. */
  lemma SectionWorks(chip: Chip, w: Writer, data: seq<byte>)
    requires PowerCutsOnly(chip) && Orderly(chip, w) && Planned(chip, w) && w.buffer == []
    ensures Wrote(chip, w, Section(chip, w, data), |ImageBlocks(data, chip.eraseSize)|)
  {
    var fed, k, n := Feed(chip, w, data), |Cut(data, chip.eraseSize)|, |ImageBlocks(data, chip.eraseSize)|;
    SectionEnds(chip, w, data);
    FeedWorks(chip, w, data);
    assert [] + data == data;
    if fed.None? {
      FewerBlocks(data, chip.eraseSize);
      hide *;
      NoneWrote(chip, w, k, n);
    } else {
      var w1 := fed.value;
      FeedKeeps(chip, w, data);
      assert Wrote(chip, w, fed, k) && Grew(w, w1) && w.buffer == [];
      hide *;
      FedBlocks(chip, w, w1, data);
      if w1.buffer != [] {
        StillPlanned(chip, w, w1, k);
        PutWorks(chip, w1, w1.buffer + ZerosFor(chip, w1));
        WroteTwice(chip, w, fed, Section(chip, w, data), k, 1);
      }
    }
  }

  lemma SectionEnds(chip: Chip, w: Writer, data: seq<byte>)
    requires w.pos <= chip.count && w.buffer == [] && 0 < chip.eraseSize
    ensures var fed := Feed(chip, w, data);
      Section(chip, w, data) ==
        if fed.None? then None
        else if fed.value.buffer == [] then fed
        else Closing(chip, fed.value, fed.value.buffer + ZerosFor(chip, fed.value))
  {
    hide Put;
  }

  lemma StillPlanned(chip: Chip, w: Writer, w': Writer, k: nat)
    requires Wrote(chip, w, Some(w'), k)
    ensures Planned(chip, w')
  {
  }

  lemma NoneWrote(chip: Chip, w: Writer, k: nat, n: nat)
    requires Wrote(chip, w, None, k) && k <= n
    ensures Wrote(chip, w, None, n)
  {
    NotEnough(chip, |w.placed|, w.clock, k, n);
  }

  lemma FewerBlocks(data: seq<byte>, e: nat)
    requires e > 0
    ensures |Cut(data, e)| <= |ImageBlocks(data, e)|
  {
    CutOfPrefix(data, Padded(data, e), e);
  }

  lemma NotEnough(chip: Chip, placed: nat, clock: nat, k: nat, more: nat)
    requires !Enough(chip, placed, clock, k) && k <= more
    ensures !Enough(chip, placed, clock, more)
  {
    EnoughTwice(chip, placed, clock, k, more - k);
  }

  /** While only the power can fail, a stream is written exactly if there are good blocks
      and operations for its blocks; they go to the good blocks in order. */
  lemma PassWorks(chip: Chip, clock: nat, data: seq<byte>)
    requires PowerCutsOnly(chip) && 0 < chip.eraseSize
    ensures var r, n := Pass(chip, clock, data), |ImageBlocks(data, chip.eraseSize)|;
      && (r.Some? <==> Enough(chip, 0, clock, n))
      && (r.Some? ==> OnlyBad(chip, r.value) && r.value.clock == clock + 3 * n)
  {
    SectionWorks(chip, Opened(clock), data);
  }
}
