/** Cutting a byte stream into erase blocks, and where the blocks of a stream go when
    only factory-bad blocks are skipped. */
module Chunks {
  import opened Bytes
  import opened Series
  import opened Flash

  function Concat(bs: seq<Block>): seq<byte> {
    if bs == [] then [] else Concat(bs[..|bs|-1]) + bs[|bs|-1]
  }

  ghost predicate AllSized(bs: seq<Block>, e: nat) {
    forall i | 0 <= i < |bs| :: |bs[i]| == e
  }

  /** The complete blocks at the front of s. */
  function Cut(s: seq<byte>, e: nat): (bs: seq<Block>)
    requires e > 0
    ensures AllSized(bs, e)
  {
    if |s| < e then [] else [s[..e]] + Cut(s[e..], e)
  }

  /** s extended with zeros to a whole number of blocks. */
  function Padded(s: seq<byte>, e: nat): (p: seq<byte>)
    requires e > 0
    ensures s <= p
  {
    if s == [] then []
    else if |s| <= e then s + Fill(e - |s|, 0)
    else s[..e] + Padded(s[e..], e)
  }

  /** Copying a stream piece by piece. */
  lemma AppendSlice(g: seq<byte>, s: seq<byte>, i: nat, j: nat)
    requires i <= j <= |s|
    ensures (g + s[..i]) + s[i..j] == g + s[..j]
  {
    assert s[..i] + s[i..j] == s[..j];
    Regroup(g, s[..i], s[i..j]);
  }

  lemma AppendRest(g: seq<byte>, s: seq<byte>, i: nat)
    requires i <= |s|
    ensures (g + s[..i]) + s[i..] == g + s
  {
    assert s[..i] + s[i..] == s;
    Regroup(g, s[..i], s[i..]);
  }

  lemma {:induction false} ConcatAppend(a: seq<Block>, b: seq<Block>)
    ensures Concat(a + b) == Concat(a) + Concat(b)
  {
    if b == [] {
      assert a + b == a;
    } else {
      assert (a + b)[..|a + b| - 1] == a + b[..|b|-1];
      ConcatAppend(a, b[..|b|-1]);
    }
  }

  lemma ConcatFirst(b: Block, rest: seq<Block>)
    ensures Concat([b] + rest) == b + Concat(rest)
  {
    ConcatAppend([b], rest);
    assert [b][..0] == [];
    assert Concat([b]) == b;
  }

  /** A non-empty list of blocks followed by s starts with its first block. */
  lemma FrontBlock(bs: seq<Block>, s: seq<byte>, e: nat)
    requires AllSized(bs, e) && bs != []
    ensures |Concat(bs) + s| >= e
    ensures (Concat(bs) + s)[..e] == bs[0]
    ensures (Concat(bs) + s)[e..] == Concat(bs[1..]) + s
  {
    assert bs == [bs[0]] + bs[1..];
    ConcatFirst(bs[0], bs[1..]);
    SliceAppend(bs[0], Concat(bs[1..]), s);
  }

  lemma SliceAppend(a: seq<byte>, b: seq<byte>, c: seq<byte>)
    ensures |(a + b) + c| >= |a|
    ensures ((a + b) + c)[..|a|] == a && ((a + b) + c)[|a|..] == b + c
  {
  }

  /** Cutting distributes over a prefix of whole blocks. */
  lemma {:induction false} CutAppend(bs: seq<Block>, s: seq<byte>, e: nat)
    requires e > 0 && AllSized(bs, e)
    ensures Cut(Concat(bs) + s, e) == bs + Cut(s, e)
  {
    if bs == [] {
      assert Concat(bs) + s == s;
    } else {
      FrontBlock(bs, s, e);
      CutAppend(bs[1..], s, e);
      hide Concat;
      assert Cut(Concat(bs) + s, e) == [bs[0]] + Cut(Concat(bs[1..]) + s, e);
    }
  }

  /** Whole blocks followed by less than a block can be cut in one way only. */
  lemma CutOfConcat(bs: seq<Block>, rest: seq<byte>, e: nat)
    requires e > 0 && AllSized(bs, e) && |rest| < e
    ensures Cut(Concat(bs) + rest, e) == bs
  {
    CutAppend(bs, rest, e);
  }

  /** Padding completes the last block. */
  lemma {:induction false} PaddedOfConcat(bs: seq<Block>, rest: seq<byte>, e: nat)
    requires e > 0 && AllSized(bs, e) && |rest| < e
    ensures Padded(Concat(bs) + rest, e) == Concat(bs) + Padded(rest, e)
  {
    if bs == [] {
      assert Concat(bs) + rest == rest;
    } else {
      FrontBlock(bs, rest, e);
      PaddedOfConcat(bs[1..], rest, e);
      ConcatFirst(bs[0], bs[1..]);
      assert bs == [bs[0]] + bs[1..];
      hide Concat;
      var s := Concat(bs) + rest;
      if |s| == e {
        assert s[e..] == [];
        assert Padded(s, e) == s;
      }
      assert Padded(s, e) == bs[0] + Padded(s[e..], e);
    }
  }

  /** The blocks of a padded stream: the complete ones and the padded rest. */
  lemma CutOfPadded(bs: seq<Block>, rest: seq<byte>, e: nat)
    requires e > 0 && AllSized(bs, e) && 0 < |rest| < e
    ensures Padded(Concat(bs) + rest, e) == Concat(bs + [rest + Fill(e - |rest|, 0)])
    ensures Cut(Padded(Concat(bs) + rest, e), e) == bs + [rest + Fill(e - |rest|, 0)]
  {
    var last := rest + Fill(e - |rest|, 0);
    PaddedOfConcat(bs, rest, e);
    assert (bs + [last])[..|bs|] == bs;
    CutOfConcat(bs + [last], [], e);
    assert Concat(bs + [last]) + [] == Concat(bs + [last]);
  }

  /** The blocks of a stream, the last one padded with zeros. */
  function ImageBlocks(s: seq<byte>, e: nat): seq<Block>
    requires e > 0
  {
    Cut(Padded(s, e), e)
  }

  lemma BlocksFront(s: seq<byte>, e: nat)
    requires e > 0 && |s| >= e
    ensures ImageBlocks(s, e) == [s[..e]] + ImageBlocks(s[e..], e)
  {
    var p := Padded(s, e);
    if |s| == e {
      assert s[e..] == [] && p == s;
    } else {
      assert p == s[..e] + Padded(s[e..], e);
    }
    assert p[..e] == s[..e] && p[e..] == Padded(s[e..], e);
  }

  /** The blocks of an image, joined, are the padded image. */
  lemma {:induction false} BlocksJoin(s: seq<byte>, e: nat)
    requires e > 0
    ensures Concat(ImageBlocks(s, e)) == Padded(s, e)
    decreases |s|
  {
    if s == [] {
      assert ImageBlocks(s, e) == [];
    } else if |s| < e {
      CutOfPadded([], s, e);
      assert Concat([]) + s == s;
      assert [] + [s + Fill(e - |s|, 0)] == [s + Fill(e - |s|, 0)];
    } else {
      BlocksFront(s, e);
      ConcatFirst(s[..e], ImageBlocks(s[e..], e));
      BlocksJoin(s[e..], e);
      if |s| == e { assert s[e..] == []; }
    }
  }

  /** Cutting a longer padded stream starts with the blocks of a shorter one. */
  lemma CutOfPrefix(s: seq<byte>, whole: seq<byte>, e: nat)
    requires e > 0 && s <= whole
    ensures Cut(s, e) <= Cut(whole, e)
    decreases |s|
  {
    if |s| >= e {
      assert s[e..] <= whole[e..] && s[..e] == whole[..e];
      CutOfPrefix(s[e..], whole[e..], e);
      assert [s[..e]] + Cut(s[e..], e) <= [whole[..e]] + Cut(whole[e..], e);
    }
  }

  /** The blocks of a stream that is partly written and partly in the buffer. */
  lemma StreamBlocks(whole: seq<byte>, flushed: seq<Block>, rest: seq<byte>, padding: seq<byte>, e: nat)
    requires e > 0 && AllSized(flushed, e) && |rest| < e && whole == Concat(flushed) + rest
    requires padding == if rest == [] then [] else Fill(e - |rest|, 0)
    ensures Padded(whole, e) == whole + padding
    ensures ImageBlocks(whole, e) == if rest == [] then flushed else flushed + [rest + padding]
  {
    if rest == [] {
      PaddedOfConcat(flushed, [], e);
      assert Padded([], e) == [];
      CutOfConcat(flushed, [], e);
      assert whole + padding == whole && Concat(flushed) + [] == Concat(flushed);
    } else {
      CutOfPadded(flushed, rest, e);
      ConcatPush(flushed, rest + padding);
      assert Concat(flushed) + (rest + padding) == whole + padding;
    }
  }

  /** All of a stream that was padded and written is its blocks. */
  lemma WrittenBlocks(whole: seq<byte>, padding: seq<byte>, flushed: seq<Block>, e: nat)
    requires e > 0 && AllSized(flushed, e) && Padded(whole, e) == whole + padding == Concat(flushed)
    ensures ImageBlocks(whole, e) == flushed
  {
    CutOfConcat(flushed, [], e);
    assert Concat(flushed) + [] == Concat(flushed);
  }

  lemma AtLeastOneBlock(bs: seq<Block>, e: nat)
    requires bs != [] && AllSized(bs, e)
    ensures |Concat(bs)| >= e
  {
  }

  lemma ConcatPush(bs: seq<Block>, b: Block)
    ensures Concat(bs + [b]) == Concat(bs) + b
  {
    assert (bs + [b])[..|bs|] == bs;
  }

  // ---------------------------------------------------------------- good blocks

  /** The least block at or after p that is not factory-bad, or count. */
  ghost function NextGood(bad: set<nat>, count: nat, p: nat): (q: nat)
    requires p <= count
    ensures p <= q <= count && (forall i | p <= i < q :: i in bad)
    ensures q < count ==> q !in bad
    decreases count - p
  {
    if p < count && p in bad then NextGood(bad, count, p + 1) else p
  }

  /** The k-th block, counting from 0, that is not factory-bad, or count. */
  ghost function Good(bad: set<nat>, count: nat, k: nat): (q: nat)
    ensures q <= count && (q < count ==> q !in bad)
  {
    if k == 0 then NextGood(bad, count, 0)
    else
      var p := Good(bad, count, k - 1);
      if p < count then NextGood(bad, count, p + 1) else count
  }

  lemma {:induction false} GoodIncreases(bad: set<nat>, count: nat, j: nat, k: nat)
    requires j < k
    ensures Good(bad, count, j) < count ==> Good(bad, count, j) < Good(bad, count, k)
    ensures Good(bad, count, j) == count ==> Good(bad, count, k) == count
  {
    if j + 1 < k { GoodIncreases(bad, count, j, k - 1); }
  }

  /** Erase and program each block in turn on the good blocks in order. */
  ghost function Plan(bad: set<nat>, count: nat, e: nat, bs: seq<Block>): (p: seq<Change>)
    ensures forall i | 0 <= i < |p| :: p[i].at < count
  {
    if bs == [] then [] else
    var q := Good(bad, count, |bs| - 1);
    Plan(bad, count, e, bs[..|bs|-1]) +
      (if q < count then [Change(q, Fill(e, ERASED)), Change(q, bs[|bs|-1])] else [])
  }

  lemma {:induction false} PlanPrefix(bad: set<nat>, count: nat, e: nat, a: seq<Block>, b: seq<Block>)
    requires a <= b
    ensures Plan(bad, count, e, a) <= Plan(bad, count, e, b)
  {
    if |a| < |b| {
      PlanPrefix(bad, count, e, a, b[..|b|-1]);
    } else {
      assert a == b;
    }
  }

  lemma PlanLast(bad: set<nat>, count: nat, e: nat, bs: seq<Block>)
    requires bs != [] && Good(bad, count, |bs| - 1) < count
    ensures Plan(bad, count, e, bs) == Plan(bad, count, e, bs[..|bs|-1]) +
      [Change(Good(bad, count, |bs| - 1), Fill(e, ERASED)), Change(Good(bad, count, |bs| - 1), bs[|bs|-1])]
  {
    hide Good;
  }

  lemma PlanOne(bad: set<nat>, count: nat, e: nat, b: Block)
    requires Good(bad, count, 0) < count
    ensures Plan(bad, count, e, [b]) == [Change(Good(bad, count, 0), Fill(e, ERASED)), Change(Good(bad, count, 0), b)]
  {
    PlanLast(bad, count, e, [b]);
    assert [b][..0] == [] && Plan(bad, count, e, []) == [];
  }
}
