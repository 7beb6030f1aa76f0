/** The read side of mtdutils/mtdutils.c: block-buffered reading that skips factory-bad
    and all-zero blocks. */
module MtdReader {
  import opened Bytes
  import opened Series
  import opened Flash
  import opened Chunks

  predicate AllZero(b: Block) {
    forall i | 0 <= i < |b| :: b[i] == 0
  }

  /** The blocks a reader sees from position p on. */
  ghost function Readable(blocks: seq<Block>, bad: set<nat>, p: nat): (r: seq<Block>)
    requires p <= |blocks|
    decreases |blocks| - p
  {
    if p == |blocks| then []
    else if p in bad || AllZero(blocks[p]) then Readable(blocks, bad, p + 1)
    else [blocks[p]] + Readable(blocks, bad, p + 1)
  }

  lemma {:induction false} ReadableSized(blocks: seq<Block>, bad: set<nat>, p: nat, e: nat)
    requires p <= |blocks| && WellSized(blocks, e)
    ensures AllSized(Readable(blocks, bad, p), e)
    decreases |blocks| - p
  {
    if p < |blocks| { ReadableSized(blocks, bad, p + 1, e); }
  }

  /** Blocks passed over in a row are not seen. */
  lemma {:induction false} SkipUnreadable(blocks: seq<Block>, bad: set<nat>, p: nat, q: nat)
    requires p <= q <= |blocks| && forall i | p <= i < q :: i in bad || AllZero(blocks[i])
    ensures Readable(blocks, bad, p) == Readable(blocks, bad, q)
    decreases q - p
  {
    if p < q { SkipUnreadable(blocks, bad, p + 1, q); }
  }

  /** The same when the read of block p is the n-th operation, the next block the one after,
      and blocks that cannot be read are passed over. */
  function Seen(blocks: seq<Block>, bad: set<nat>, fates: seq<Fate>, n: nat, p: nat): (r: seq<Block>)
    requires p <= |blocks|
    decreases |blocks| - p
  {
    if p == |blocks| then []
    else if p in bad || AllZero(blocks[p]) || !WorksAt(fates, n) then Seen(blocks, bad, fates, n + 1, p + 1)
    else [blocks[p]] + Seen(blocks, bad, fates, n + 1, p + 1)
  }

  lemma {:induction false} SkipUnseen(blocks: seq<Block>, bad: set<nat>, fates: seq<Fate>, n: nat, p: nat, q: nat)
    requires p <= q <= |blocks|
    requires forall i | p <= i < q :: i in bad || AllZero(blocks[i]) || !WorksAt(fates, n + i - p)
    ensures Seen(blocks, bad, fates, n, p) == Seen(blocks, bad, fates, n + q - p, q)
    decreases q - p
  {
    if p < q {
      forall i | p + 1 <= i < q ensures i in bad || AllZero(blocks[i]) || !WorksAt(fates, n + 1 + i - (p + 1)) {
        assert n + 1 + i - (p + 1) == n + i - p;
      }
      assert WorksAt(fates, n) == WorksAt(fates, n + p - p);
      SkipUnseen(blocks, bad, fates, n + 1, p + 1, q);
    }
  }

  /** How many reads it takes from block p on to see so many bytes, or all there is. */
  function ReadsFor(blocks: seq<Block>, bad: set<nat>, fates: seq<Fate>, n: nat, p: nat, want: int): nat
    requires p <= |blocks|
    decreases |blocks| - p
  {
    if want <= 0 || p == |blocks| then 0
    else
      var passed := p in bad || AllZero(blocks[p]) || !WorksAt(fates, n);
      1 + ReadsFor(blocks, bad, fates, n + 1, p + 1, if passed then want else want - |blocks[p]|)
  }

  lemma {:induction false} SkipReads(blocks: seq<Block>, bad: set<nat>, fates: seq<Fate>, n: nat, p: nat, q: nat, want: int)
    requires p <= q <= |blocks| && want > 0
    requires forall i | p <= i < q :: i in bad || AllZero(blocks[i]) || !WorksAt(fates, n + i - p)
    ensures ReadsFor(blocks, bad, fates, n, p, want) == q - p + ReadsFor(blocks, bad, fates, n + q - p, q, want)
    decreases q - p
  {
    if p < q {
      forall i | p + 1 <= i < q ensures i in bad || AllZero(blocks[i]) || !WorksAt(fates, n + 1 + i - (p + 1)) {
        assert n + 1 + i - (p + 1) == n + i - p;
      }
      assert WorksAt(fates, n) == WorksAt(fates, n + p - p);
      SkipReads(blocks, bad, fates, n + 1, p + 1, q, want);
    }
  }

  lemma ReadsUpTo(blocks: seq<Block>, bad: set<nat>, fates: seq<Fate>, n: nat, p: nat, q: nat)
    requires p <= q <= |blocks|
    requires forall i | p <= i < q :: i in bad || AllZero(blocks[i]) || !WorksAt(fates, n + i - p)
    ensures q == |blocks| ==> forall want | want > 0 :: ReadsFor(blocks, bad, fates, n, p, want) == q - p
    ensures q < |blocks| && !(q in bad || AllZero(blocks[q]) || !WorksAt(fates, n + q - p)) ==>
      forall want | want > 0 :: ReadsFor(blocks, bad, fates, n, p, want) ==
        q + 1 - p + ReadsFor(blocks, bad, fates, n + q + 1 - p, q + 1, want - |blocks[q]|)
  {
    forall want | want > 0
      ensures ReadsFor(blocks, bad, fates, n, p, want) == q - p + ReadsFor(blocks, bad, fates, n + q - p, q, want)
    {
      SkipReads(blocks, bad, fates, n, p, q, want);
    }
  }

  /** The next k operations work. */
  ghost predicate WorksFor(fates: seq<Fate>, n: nat, k: nat) {
    forall i | n <= i < n + k :: WorksAt(fates, i)
  }

  /** When the reads work, everything readable is seen. */
  lemma {:induction false} SeenWhenWorking(blocks: seq<Block>, bad: set<nat>, fates: seq<Fate>, n: nat, p: nat)
    requires p <= |blocks| && WorksFor(fates, n, |blocks| - p)
    ensures Seen(blocks, bad, fates, n, p) == Readable(blocks, bad, p)
    decreases |blocks| - p
  {
    if p < |blocks| {
      assert WorksAt(fates, n);
      SeenWhenWorking(blocks, bad, fates, n + 1, p + 1);
    }
  }

  /** Before a power cut, a front part of it. */
  lemma {:induction false} SeenBeforeCut(blocks: seq<Block>, bad: set<nat>, fates: seq<Fate>, n: nat, p: nat)
    requires p <= |blocks| && forall i | 0 <= i < |fates| :: fates[i].Works?
    ensures Seen(blocks, bad, fates, n, p) <= Readable(blocks, bad, p)
    decreases |blocks| - p
  {
    if p < |blocks| {
      SeenBeforeCut(blocks, bad, fates, n + 1, p + 1);
      if n >= |fates| { SkipUnseen(blocks, bad, fates, n, p, |blocks|); }
    }
  }

  class MtdReadContext {
    const dev: Device
    const buffer: array<byte>
    var consumed: nat
    var pos: nat

    ghost predicate Valid()
      reads this, dev
    {
      dev.Valid() && buffer.Length == dev.eraseSize && consumed <= dev.eraseSize && pos <= dev.count
    }

    /** Everything still to be read. */
    ghost function Remaining(): seq<byte>
      requires Valid()
      reads this, dev, buffer
    {
      buffer[consumed..] + Concat(Seen(dev.blocks, dev.bad, dev.fates, dev.clock, pos))
    }

    constructor (dev: Device)
      requires dev.Valid()
      ensures this.dev == dev && fresh(buffer) && Valid() && pos == 0
      ensures Remaining() == Concat(Seen(dev.blocks, dev.bad, dev.fates, dev.clock, 0))
      ensures forall len :: Reads(len) == ReadsFor(dev.blocks, dev.bad, dev.fates, dev.clock, 0, len)
    {
      this.dev := dev;
      buffer := new byte[dev.eraseSize];
      consumed, pos := dev.eraseSize, 0;
      new;
      assert buffer[consumed..] == [];
    }

    /** Reads still to make until `len` more bytes are there. */
    ghost function Reads(len: int): nat
      requires Valid()
      reads this, dev
    {
      ReadsFor(dev.blocks, dev.bad, dev.fates, dev.clock, pos, len - (dev.eraseSize - consumed))
    }

    /** Reading changes nothing on the device. */
    twostate predicate ReadOnly()
      reads dev
    {
      && dev.Valid() && dev.Idle() && dev.blocks == old(dev.blocks) && dev.log == old(dev.log)
      && old(dev.clock) <= dev.clock
    }

    /** read_block: the next block that can be read, is good and not all zero. The file
        offset follows the reads. */
    method ReadBlock() returns (ok: bool, data: Block)
      requires Valid()
      modifies this`pos, dev
      ensures Valid() && ReadOnly()
      ensures ok ==> |data| == dev.eraseSize
      ensures ok ==> pos > old(pos) && data == dev.blocks[pos - 1] && !AllZero(data) && pos - 1 !in dev.bad
      ensures forall i | old(pos) <= i < (if ok then pos - 1 else dev.count) ::
        i in dev.bad || AllZero(dev.blocks[i]) || !WorksAt(dev.fates, old(dev.clock) + i - old(pos))
      ensures dev.clock == old(dev.clock) + (if ok then pos else dev.count) - old(pos)
      ensures Seen(dev.blocks, dev.bad, dev.fates, old(dev.clock), old(pos)) ==
        if ok then [data] + Seen(dev.blocks, dev.bad, dev.fates, dev.clock, pos) else []
      ensures forall want | want > 0 ::
        ReadsFor(dev.blocks, dev.bad, dev.fates, old(dev.clock), old(pos), want) ==
          dev.clock - old(dev.clock) + (if ok then ReadsFor(dev.blocks, dev.bad, dev.fates, dev.clock, pos, want - dev.eraseSize) else 0)
    {
      var p := pos;
      while p < dev.count
        invariant old(pos) <= p <= dev.count && pos <= p && dev.Valid()
        invariant dev.blocks == old(dev.blocks) && dev.log == old(dev.log)
        invariant dev.clock == old(dev.clock) + p - old(pos)
        invariant dev.OnlyPowerCuts() && !old(dev.Alive()) ==> !dev.Alive()
        invariant forall i | old(pos) <= i < p ::
          i in dev.bad || AllZero(dev.blocks[i]) || !WorksAt(dev.fates, old(dev.clock) + i - old(pos))
      {
        var readOk, block := dev.Read(p);
        pos := if readOk then p + 1 else p;
        if readOk && p !in dev.bad && !AllZero(block) {
          SkipUnseen(dev.blocks, dev.bad, dev.fates, old(dev.clock), old(pos), p);
          ReadsUpTo(dev.blocks, dev.bad, dev.fates, old(dev.clock), old(pos), p);
          return true, block;
        }
        p := p + 1;
      }
      SkipUnseen(dev.blocks, dev.bad, dev.fates, old(dev.clock), old(pos), dev.count);
      ReadsUpTo(dev.blocks, dev.bad, dev.fates, old(dev.clock), old(pos), dev.count);
      return false, [];
    }

    /** mtd_read_data: `len` bytes, or -1. Whole blocks go past the buffer. */
    method ReadData(len: nat) returns (r: int, data: seq<byte>)
      requires Valid()
      modifies this, buffer, dev
      ensures Valid() && ReadOnly()
      ensures r == |data| == len || (r == -1 && len > 0)
      ensures r != -1 ==> old(Remaining()) == data + Remaining()
      ensures r == -1 ==> |old(Remaining())| < len && ToTheEnd()
      ensures dev.clock == old(dev.clock) + old(Reads(len))
    {
      hide Remaining;
      data := [];
      ghost var all := Remaining();
      assert all == [] + all;
      while |data| < len
        invariant Valid() && ReadOnly() && |data| <= len
        invariant Lockstep()
        invariant all == data + Remaining()
        invariant old(Reads(len)) == dev.clock - old(dev.clock) + Reads(len - |data|)
        decreases len - |data|, consumed
      {
        if consumed < dev.eraseSize {
          var more := Take(len - |data|);
          Regroup(data, more, Remaining());
          data := data + more;
        }
        var ok, whole := ReadWhole(len - |data|);
        if !ok {
          return -1, [];
        }
        Regroup(data, whole, Remaining());
        data := data + whole;
        if |data| >= len {
          return |data|, data;
        }
        if consumed == dev.eraseSize && |data| < len {
          ok := Refill();
          if !ok {
            return -1, [];
          }
        }
      }
      r := |data|;
    }

    /** The inner loop: whole blocks straight into the caller's memory. */
    method ReadWhole(n: nat) returns (ok: bool, data: seq<byte>)
      requires Valid()
      modifies this`pos, dev
      ensures Valid() && ReadOnly()
      ensures ok ==> Lockstep()
      ensures ok ==> |data| <= n && (consumed == dev.eraseSize ==> n - |data| < dev.eraseSize)
      ensures ok ==> old(Remaining()) == data + Remaining()
      ensures !ok ==> |old(Remaining())| < n && ToTheEnd()
      ensures old(Reads(n)) == dev.clock - old(dev.clock) + if ok then Reads(n - |data|) else 0
    {
      hide Remaining;
      data := [];
      ghost var all := Remaining();
      while consumed == dev.eraseSize && n - |data| >= dev.eraseSize
        invariant Valid() && ReadOnly() && |data| <= n
        invariant Lockstep()
        invariant all == data + Remaining()
        invariant old(Reads(n)) == dev.clock - old(dev.clock) + Reads(n - |data|)
        decreases n - |data|
      {
        var block;
        ok, block := Direct();
        if !ok {
          return;
        }
        Regroup(data, block, Remaining());
        data := data + block;
      }
      ok := true;
    }

    /** One operation was used for each block passed. */
    twostate predicate Lockstep()
      reads this`pos, dev
    {
      dev.clock == old(dev.clock) + pos - old(pos)
    }

    /** One operation was used for each block up to the end of the partition. */
    twostate predicate ToTheEnd()
      reads dev
    {
      dev.clock == old(dev.clock) + dev.count - old(pos)
    }

    /** Copies from the buffer, at most n bytes. */
    method Take(n: nat) returns (data: seq<byte>)
      requires Valid() && consumed < dev.eraseSize && n > 0
      modifies this`consumed
      ensures Valid() && 0 < |data| <= n && old(Remaining()) == data + Remaining()
      ensures |data| == n || consumed == dev.eraseSize
      ensures forall m :: old(Reads(m)) == Reads(m - |data|)
    {
      var avail := dev.eraseSize - consumed;
      var copy := if n < avail then n else avail;
      data := buffer[consumed..consumed + copy];
      assert buffer[consumed..] == data + buffer[consumed + copy..];
      consumed := consumed + copy;
    }

    method Direct() returns (ok: bool, block: Block)
      requires Valid() && consumed == dev.eraseSize
      modifies this`pos, dev
      ensures Valid() && ReadOnly()
      ensures ok ==> |block| == dev.eraseSize && Lockstep() && old(Remaining()) == block + Remaining()
      ensures !ok ==> old(Remaining()) == [] && ToTheEnd()
      ensures forall n | n > 0 :: old(Reads(n)) == dev.clock - old(dev.clock) + if ok then Reads(n - dev.eraseSize) else 0
    {
      assert buffer[consumed..] == [];
      ok, block := ReadBlock();
      hide AllZero, Seen, WellSized;
      if ok { ConcatFirst(block, Seen(dev.blocks, dev.bad, dev.fates, dev.clock, pos)); }
    }

    method Refill() returns (ok: bool)
      requires Valid() && consumed == dev.eraseSize
      modifies this, buffer, dev
      ensures Valid() && ReadOnly()
      ensures ok ==> consumed == 0 && Lockstep() && old(Remaining()) == Remaining()
      ensures !ok ==> old(Remaining()) == [] && ToTheEnd()
      ensures forall n | n > 0 :: old(Reads(n)) == dev.clock - old(dev.clock) + if ok then Reads(n) else 0
    {
      assert buffer[consumed..] == [];
      var block;
      ok, block := ReadBlock();
      if ok {
        ConcatFirst(block, Seen(dev.blocks, dev.bad, dev.fates, dev.clock, pos));
        forall i | 0 <= i < dev.eraseSize { buffer[i] := block[i]; }
        assert buffer[0..] == block;
        consumed := 0;
      }
    }
  }
}
