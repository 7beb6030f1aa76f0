/** A flash partition as an array of erase blocks, and what may happen to one operation.

    Positions count erase blocks; the byte offsets of the source are these times the
    erase size. The n-th operation on the device meets the n-th fate, and when the fates
    are used up the power is gone. Because the list is arbitrary, so is every pattern of
    failing erases, silent corruption and read errors, and the moment of a power cut. */
module Flash {
  import opened Bytes
  import opened Series

  type Block = seq<byte>

  const ERASED: byte := 0xFF

  datatype Fate =
    | Works
    | Fails(left: Block)   // the operation fails and leaves these contents behind

  // An erase or program that changed a block.
  datatype Change = Change(at: nat, content: Block)

  // What does not change about a device: its geometry and everything that will happen to it.
  datatype Chip = Chip(eraseSize: nat, count: nat, bad: set<nat>, fates: seq<Fate>)

  function Fill(n: nat, b: byte): (s: Block)
    ensures |s| == n && forall i | 0 <= i < n :: s[i] == b
  {
    seq(n, _ => b)
  }

  /** The n-th operation works. */
  predicate WorksAt(fates: seq<Fate>, n: nat) { n < |fates| && fates[n].Works? }

  /** Operations work until the power fails. */
  ghost predicate PowerCutsOnly(chip: Chip) {
    forall n | 0 <= n < |chip.fates| :: chip.fates[n].Works?
  }

  /** What an operation that should store a block leaves. */
  function Left(fate: Fate, wanted: Block, eraseSize: nat): Block {
    if fate.Fails? && |fate.left| == eraseSize then fate.left else wanted
  }

  /** What is in a block after the n-th operation tried to store this there. */
  function StoredAt(fates: seq<Fate>, n: nat, wanted: Block, before: Block, eraseSize: nat): Block {
    if n < |fates| then Left(fates[n], wanted, eraseSize) else before
  }

  function Changed(blocks: seq<Block>, c: Change): seq<Block> {
    if c.at < |blocks| then blocks[c.at := c.content] else blocks
  }

  /** Contents after a list of changes. */
  function Apply(blocks: seq<Block>, changes: seq<Change>): (r: seq<Block>)
    ensures |r| == |blocks|
  {
    SizeStays(blocks, changes);
    Fold(Changed, blocks, changes)
  }

  lemma {:induction false} SizeStays(blocks: seq<Block>, changes: seq<Change>)
    ensures |Fold(Changed, blocks, changes)| == |blocks|
  {
    if changes != [] { SizeStays(blocks, changes[..|changes|-1]); }
  }

  lemma ApplyPush(blocks: seq<Block>, changes: seq<Change>, c: Change)
    ensures Apply(blocks, changes + [c]) == Changed(Apply(blocks, changes), c)
  {
    assert (changes + [c])[..|changes|] == changes;
  }

  lemma ApplyAppend(blocks: seq<Block>, a: seq<Change>, b: seq<Change>)
    ensures Apply(blocks, a + b) == Apply(Apply(blocks, a), b)
  {
    FoldAppend(Changed, blocks, a, b);
  }

  /** The log accounts for the contents. Stated so that the verifier replays a log only
      where a proof mentions the replay. */
  ghost predicate Replays(start: seq<Block>, log: seq<Change>, blocks: seq<Block>) {
    forall changes {:trigger Apply(start, changes)} :: changes == log ==> blocks == Apply(start, changes)
  }

  /** What happened between two points of the log. */
  lemma LogApplied(start: seq<Block>, log0: seq<Change>, blocks0: seq<Block>, log1: seq<Change>, blocks1: seq<Block>)
    requires Replays(start, log0, blocks0) && Replays(start, log1, blocks1) && log0 <= log1
    ensures blocks1 == Apply(blocks0, log1[|log0|..])
  {
    ApplyAppend(start, log0, log1[|log0|..]);
    assert log1 == log0 + log1[|log0|..];
  }

  ghost predicate WellSized(blocks: seq<Block>, eraseSize: nat) {
    forall i | 0 <= i < |blocks| :: |blocks[i]| == eraseSize
  }

  class Device {
    const eraseSize: nat
    const count: nat            // whole erase blocks in the partition
    const bad: set<nat>         // factory-bad blocks, as MEMGETBADBLOCK reports them
    const fates: seq<Fate>      // without power an operation fails and changes nothing
    ghost const start: seq<Block>
    var blocks: seq<Block>
    var clock: nat
    ghost var log: seq<Change>  // every change so far, in order

    function Hardware(): Chip { Chip(eraseSize, count, bad, fates) }

    ghost predicate Valid()
      reads this
    {
      && eraseSize > 0 && |blocks| == count && WellSized(blocks, eraseSize)
      && |start| == count && Replays(start, log, blocks)
    }

    ghost predicate OnlyPowerCuts() { PowerCutsOnly(Hardware()) }

    predicate Alive()
      reads this`clock
    {
      WorksAt(fates, clock)
    }

    /** Time only moves forward, and a dead device stays dead. */
    twostate predicate Advanced()
      reads this
    {
      && Valid() && old(clock) <= clock && old(log) <= log
      && (OnlyPowerCuts() && !old(Alive()) ==> !Alive() && blocks == old(blocks) && log == old(log))
    }

    /** Without power nothing happens any more. */
    twostate predicate Idle()
      reads this
    {
      OnlyPowerCuts() && !old(Alive()) ==> !Alive() && log == old(log)
    }

    constructor (eraseSize: nat, bad: set<nat>, fates: seq<Fate>, blocks: seq<Block>)
      requires eraseSize > 0 && WellSized(blocks, eraseSize)
      ensures Valid() && this.blocks == blocks && log == [] && clock == 0
      ensures this.eraseSize == eraseSize && this.bad == bad && this.fates == fates && count == |blocks|
    {
      this.eraseSize, this.count, this.bad, this.fates := eraseSize, |blocks|, bad, fates;
      this.start, this.blocks, clock, log := blocks, blocks, 0, [];
    }

    method Store(at: nat, wanted: Block) returns (ok: bool)
      requires Valid() && at < count && |wanted| == eraseSize
      modifies this
      ensures Advanced() && clock == old(clock) + 1
      ensures ok <==> old(Alive())
      ensures forall i | 0 <= i < count && i != at :: blocks[i] == old(blocks[i])
      ensures ok ==> blocks == old(blocks)[at := wanted] && log == old(log) + [Change(at, wanted)]
      ensures !ok && OnlyPowerCuts() ==> blocks == old(blocks) && log == old(log)
      ensures blocks[at] == StoredAt(fates, old(clock), wanted, old(blocks[at]), eraseSize)
    {
      ok := Alive();
      if clock < |fates| {
        var content := Left(fates[clock], wanted, eraseSize);
        ghost var longer := log + [Change(at, content)];
        ApplyPush(start, log, Change(at, content));
        blocks, log := blocks[at := content], longer;
      }
      clock := clock + 1;
      assert OnlyPowerCuts() && !old(Alive()) ==> old(clock) >= |fates|;
    }

    /** MEMERASE */
    method Erase(at: nat) returns (ok: bool)
      requires Valid() && at < count
      modifies this
      ensures Advanced() && clock == old(clock) + 1
      ensures ok <==> old(Alive())
      ensures forall i | 0 <= i < count && i != at :: blocks[i] == old(blocks[i])
      ensures ok ==> log == old(log) + [Change(at, Fill(eraseSize, ERASED))] && blocks[at] == Fill(eraseSize, ERASED)
      ensures !ok && OnlyPowerCuts() ==> blocks == old(blocks) && log == old(log)
      ensures blocks[at] == StoredAt(fates, old(clock), Fill(eraseSize, ERASED), old(blocks[at]), eraseSize)
    {
      ok := Store(at, Fill(eraseSize, ERASED));
    }

    /** A write of one whole block. The source ignores its result. */
    method Program(at: nat, data: Block)
      requires Valid() && at < count && |data| == eraseSize
      modifies this
      ensures Advanced() && clock == old(clock) + 1
      ensures forall i | 0 <= i < count && i != at :: blocks[i] == old(blocks[i])
      ensures old(Alive()) ==> log == old(log) + [Change(at, data)] && blocks[at] == data
      ensures !old(Alive()) && OnlyPowerCuts() ==> blocks == old(blocks) && log == old(log)
      ensures blocks[at] == StoredAt(fates, old(clock), data, old(blocks[at]), eraseSize)
    {
      var _ := Store(at, data);
    }

    /** A read of one whole block: it fails, or returns what is stored. */
    method Read(at: nat) returns (ok: bool, data: Block)
      requires Valid() && at < count
      modifies this
      ensures Advanced() && clock == old(clock) + 1 && blocks == old(blocks) && log == old(log)
      ensures ok <==> old(Alive())
      ensures ok ==> data == blocks[at]
    {
      ok, data := Alive(), if Alive() then blocks[at] else [];
      clock := clock + 1;
    }
  }
}
