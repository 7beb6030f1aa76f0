/** mtdutils/flash_image.c: writing an image to a partition with the header last, so that
    an interrupted run never looks complete and simply running again repairs it.

    A power cut is the end of the device's fates: from there on every operation fails
    and changes nothing, so what is on the flash when the run ends is what was there at
    the cut. */
module FlashImage {
  import opened Bytes
  import opened Flash
  import opened Chunks
  import opened MtdWriter
  import opened MtdReader

  const HEADER_SIZE: nat := 2048

  // ---------------------------------------------------------------- what a run writes

  function HeaderLen(image: seq<byte>): nat { if |image| < HEADER_SIZE then |image| else HEADER_SIZE }

  /** First pass: the image with zeros for its header. */
  function Blanked(image: seq<byte>): (s: seq<byte>)
    ensures |s| == |image|
  {
    Fill(HeaderLen(image), 0) + image[HeaderLen(image)..]
  }

  ghost predicate Fits(bad: set<nat>, count: nat, bs: seq<Block>) {
    forall k | 0 <= k < |bs| :: Good(bad, count, k) < count
  }

  /** How much the second pass writes: the header, completed to whole blocks. */
  function Span(headerLen: nat, e: nat): (n: nat)
    requires e > 0
    ensures n >= headerLen && n >= e && (headerLen <= e ==> n == e)
  {
    if headerLen <= e then e else e + Span(headerLen - e, e)
  }

  /** What the second pass is given: it stops at the end of an image that is too short. */
  function SecondStream(image: seq<byte>, e: nat): seq<byte>
    requires e > 0
  {
    var n := Span(HeaderLen(image), e);
    if |image| >= n then image[..n] else image
  }

  /** Every change a run makes, in order: all blocks with a blank header, then the blocks of
      the header again. */
  ghost function RunPlan(bad: set<nat>, count: nat, e: nat, image: seq<byte>): seq<Change>
    requires e > 0
  {
    var first := ImageBlocks(Blanked(image), e);
    Plan(bad, count, e, first) +
      (if Fits(bad, count, first) then Plan(bad, count, e, Cut(SecondStream(image, e), e)) else [])
  }

  /** A reader finds the image's header at the front of the partition. */
  ghost predicate HeaderMatches(blocks: seq<Block>, bad: set<nat>, image: seq<byte>) {
    var stream := Concat(Readable(blocks, bad, 0));
    |image| >= HEADER_SIZE && |stream| >= HEADER_SIZE && stream[..HEADER_SIZE] == image[..HEADER_SIZE]
  }

  /** The whole image is on the good blocks in order. */
  ghost predicate Complete(blocks: seq<Block>, bad: set<nat>, e: nat, image: seq<byte>)
    requires e > 0
  {
    var bs := ImageBlocks(image, e);
    forall k | 0 <= k < |bs| :: Good(bad, |blocks|, k) < |blocks| && blocks[Good(bad, |blocks|, k)] == bs[k]
  }

  /** Flash contents after a run that is cut after n of its changes. */
  ghost function RunCut(blocks: seq<Block>, bad: set<nat>, e: nat, image: seq<byte>, n: nat): (r: seq<Block>)
    requires e > 0
    ensures |r| == |blocks|
  {
    var plan := RunPlan(bad, |blocks|, e, image);
    if HeaderMatches(blocks, bad, image) then blocks
    else Apply(blocks, plan[..if n < |plan| then n else |plan|])
  }

  /** Flash contents after a series of such runs. */
  ghost function RunsCut(blocks: seq<Block>, bad: set<nat>, e: nat, image: seq<byte>, cuts: seq<nat>): (r: seq<Block>)
    requires e > 0
    ensures |r| == |blocks|
  {
    if cuts == [] then blocks
    else RunCut(RunsCut(blocks, bad, e, image, cuts[..|cuts|-1]), bad, e, image, cuts[|cuts|-1])
  }

  // ---------------------------------------------------------------- applying a plan

  lemma {:induction false} Untouched(blocks: seq<Block>, a: seq<Change>, b: seq<Change>, i: nat)
    requires i < |blocks| && forall j | 0 <= j < |b| :: b[j].at != i
    ensures Apply(blocks, a + b)[i] == Apply(blocks, a)[i]
  {
    if b == [] {
      assert a + b == a;
    } else {
      assert (a + b)[..|a + b| - 1] == a + b[..|b|-1];
      Untouched(blocks, a, b[..|b|-1], i);
    }
  }

  /** Erasing and programming a block leaves the programmed contents. */
  lemma Rewritten(blocks: seq<Block>, before: seq<Change>, q: nat, x: Block, y: Block)
    requires q < |blocks|
    ensures Apply(blocks, before + [Change(q, x)])[q] == x
    ensures Apply(blocks, before + [Change(q, x), Change(q, y)])[q] == y
  {
    var one, two := before + [Change(q, x)], before + [Change(q, x), Change(q, y)];
    assert one[..|one|-1] == before && two[..|two|-1] == one;
  }

  /** Changes past the first two of a plan miss the first good block. */
  lemma {:induction false} LaterChanges(bad: set<nat>, count: nat, e: nat, bs: seq<Block>)
    requires bs != [] && Good(bad, count, 0) < count
    ensures var p, g := Plan(bad, count, e, bs), Good(bad, count, 0);
      |p| >= 2 && p[0] == Change(g, Fill(e, ERASED)) && p[1] == Change(g, bs[0])
      && forall j | 2 <= j < |p| :: p[j].at != g
  {
    var n := |bs| - 1;
    if n > 0 {
      LaterChanges(bad, count, e, bs[..n]);
      GoodIncreases(bad, count, 0, n);
    } else {
      assert Plan(bad, count, e, bs[..0]) == [];
    }
  }

  lemma FirstTwo(blocks: seq<Block>, p: seq<Change>, g: nat, x: Block, y: Block, n: nat)
    requires g < |blocks| && |p| >= 2 && p[0] == Change(g, x) && p[1] == Change(g, y)
    requires n <= |p| && forall j | 2 <= j < |p| :: p[j].at != g
    ensures Apply(blocks, p[..n])[g] == if n == 0 then blocks[g] else if n == 1 then x else y
  {
    Rewritten(blocks, [], g, x, y);
    EmptyFront([p[0]]);
    EmptyFront([p[0], p[1]]);
    hide Apply;
    if n == 0 {
      assert Apply(blocks, p[..0]) == blocks by { ApplyNothing(blocks); assert p[..0] == []; }
    } else if n == 1 {
      assert p[..1] == [p[0]];
    } else {
      assert p[..n] == [p[0], p[1]] + p[2..n];
      Untouched(blocks, [p[0], p[1]], p[2..n], g);
    }
  }

  lemma EmptyFront(s: seq<Change>)
    ensures [] + s == s
  {
  }

  lemma ApplyNothing(blocks: seq<Block>)
    ensures Apply(blocks, []) == blocks
  {
  }

  /** After part of a plan the first good block is as it was, erased, or written. */
  lemma FirstBlock(blocks: seq<Block>, bad: set<nat>, e: nat, bs: seq<Block>, n: nat)
    requires bs != [] && Good(bad, |blocks|, 0) < |blocks|
    requires n <= |Plan(bad, |blocks|, e, bs)|
    ensures Apply(blocks, Plan(bad, |blocks|, e, bs)[..n])[Good(bad, |blocks|, 0)] ==
      if n == 0 then blocks[Good(bad, |blocks|, 0)] else if n == 1 then Fill(e, ERASED) else bs[0]
  {
    var p, g := Plan(bad, |blocks|, e, bs), Good(bad, |blocks|, 0);
    LaterChanges(bad, |blocks|, e, bs);
    FirstTwo(blocks, p, g, Fill(e, ERASED), bs[0], n);
  }

  /** A completed plan stores its blocks on the good blocks in order. */
  lemma {:induction false} PlanStores(blocks: seq<Block>, bad: set<nat>, e: nat, bs: seq<Block>, k: nat)
    requires Fits(bad, |blocks|, bs) && k < |bs|
    ensures Apply(blocks, Plan(bad, |blocks|, e, bs))[Good(bad, |blocks|, k)] == bs[k]
  {
    var n := |bs| - 1;
    var q, before := Good(bad, |blocks|, n), Plan(bad, |blocks|, e, bs[..n]);
    var steps := [Change(q, Fill(e, ERASED)), Change(q, bs[n])];
    PlanLast(bad, |blocks|, e, bs);
    if k < n {
      PlanStores(blocks, bad, e, bs[..n], k);
      GoodIncreases(bad, |blocks|, k, n);
      hide Good, Plan, Apply;
      Untouched(blocks, before, steps, Good(bad, |blocks|, k));
    } else {
      hide Good, Plan, Apply;
      Rewritten(blocks, before, q, Fill(e, ERASED), bs[n]);
    }
  }

  lemma {:induction false} NoGoodNoPlan(bad: set<nat>, count: nat, e: nat, bs: seq<Block>)
    requires Good(bad, count, 0) == count
    ensures Plan(bad, count, e, bs) == []
  {
    if bs != [] {
      NoGoodNoPlan(bad, count, e, bs[..|bs|-1]);
      if |bs| > 1 { GoodIncreases(bad, count, 0, |bs| - 1); }
    }
  }

  // ---------------------------------------------------------------- headers and blocks

  /** A header of at most one block is written again with the rest of that block. */
  lemma OneBlockAgain(image: seq<byte>, e: nat)
    requires HEADER_SIZE <= e
    ensures Cut(SecondStream(image, e), e) == if |image| >= e then [image[..e]] else []
  {
    if |image| >= e {
      assert image[..e][..e] == image[..e] && image[..e][e..] == [];
    }
  }

  /** Past the first block the blanked image is the image. */
  lemma BlankedBlocks(image: seq<byte>, e: nat)
    requires HEADER_SIZE <= e <= |image|
    ensures ImageBlocks(image, e) == [image[..e]] + ImageBlocks(image[e..], e)
    ensures ImageBlocks(Blanked(image), e) == [Blanked(image)[..e]] + ImageBlocks(image[e..], e)
  {
    BlocksFront(image, e);
    BlocksFront(Blanked(image), e);
    assert Blanked(image)[e..] == image[e..];
  }

  /** The header a reader finds is that of the first good block, unless that is all zero. */
  lemma HeaderOfFirst(blocks: seq<Block>, bad: set<nat>)
    requires Good(bad, |blocks|, 0) < |blocks| && !AllZero(blocks[Good(bad, |blocks|, 0)])
    requires |blocks[Good(bad, |blocks|, 0)]| >= HEADER_SIZE
    ensures var stream := Concat(Readable(blocks, bad, 0));
      |stream| >= HEADER_SIZE && stream[..HEADER_SIZE] == blocks[Good(bad, |blocks|, 0)][..HEADER_SIZE]
  {
    var g := Good(bad, |blocks|, 0);
    SkipUnreadable(blocks, bad, 0, g);
    assert Readable(blocks, bad, g) == [blocks[g]] + Readable(blocks, bad, g + 1);
    ConcatFirst(blocks[g], Readable(blocks, bad, g + 1));
  }

  ghost predicate Constant(s: seq<byte>, b: byte) {
    forall i | 0 <= i < |s| :: s[i] == b
  }

  /** Images whose header can be told from a blank and from an erased one, and whose
      first block is not skipped by the reader while its header is blank. */
  ghost predicate Flashable(image: seq<byte>, e: nat) {
    && HEADER_SIZE <= e <= |image|
    && !Constant(image[..HEADER_SIZE], 0) && !Constant(image[..HEADER_SIZE], ERASED)
    && !Constant(image[HEADER_SIZE..e], 0)
  }

  lemma ErasedMismatch(blocks: seq<Block>, bad: set<nat>, e: nat, image: seq<byte>)
    requires Flashable(image, e)
    requires Good(bad, |blocks|, 0) < |blocks| && blocks[Good(bad, |blocks|, 0)] == Fill(e, ERASED)
    ensures !HeaderMatches(blocks, bad, image)
  {
    assert blocks[Good(bad, |blocks|, 0)][0] == ERASED;
    HeaderOfFirst(blocks, bad);
    assert Constant(Fill(e, ERASED)[..HEADER_SIZE], ERASED);
  }

  lemma BlankMismatch(blocks: seq<Block>, bad: set<nat>, e: nat, image: seq<byte>)
    requires Flashable(image, e)
    requires Good(bad, |blocks|, 0) < |blocks| && blocks[Good(bad, |blocks|, 0)] == Blanked(image)[..e]
    ensures !HeaderMatches(blocks, bad, image)
  {
    var b := Blanked(image)[..e];
    var i :| 0 <= i < |image[HEADER_SIZE..e]| && image[HEADER_SIZE..e][i] != 0;
    assert b[HEADER_SIZE + i] != 0;
    HeaderOfFirst(blocks, bad);
    assert Constant(b[..HEADER_SIZE], 0);
  }

  // ---------------------------------------------------------------- the guarantees

  /** A complete image is recognised by its first 2048 bytes, so that writing it again changes
      nothing. */
  lemma CompleteIsRecognised(blocks: seq<Block>, bad: set<nat>, e: nat, image: seq<byte>, n: nat)
    requires Flashable(image, e) && Complete(blocks, bad, e, image)
    ensures var stream := Concat(Readable(blocks, bad, 0));
      |image| >= 2048 && |stream| >= 2048 && stream[..2048] == image[..2048]
    ensures RunCut(blocks, bad, e, image, n) == blocks
  {
    var g := Good(bad, |blocks|, 0);
    BlocksFront(image, e);
    assert ImageBlocks(image, e)[0] == image[..e];
    assert blocks[g] == image[..e];
    var i :| 0 <= i < |image[..HEADER_SIZE]| && image[..HEADER_SIZE][i] != 0;
    assert blocks[g][i] != 0;
    HeaderOfFirst(blocks, bad);
    assert image[..e][..HEADER_SIZE] == image[..HEADER_SIZE];
  }

  /** Both passes together leave the whole image in place. */
  lemma BothPassesComplete(blocks: seq<Block>, bad: set<nat>, e: nat, image: seq<byte>)
    requires 0 < e && Span(HeaderLen(image), e) <= |image|
    requires Fits(bad, |blocks|, ImageBlocks(Blanked(image), e))
    ensures Complete(Apply(blocks, RunPlan(bad, |blocks|, e, image)), bad, e, image)
  {
    var first, second, bs := ImageBlocks(Blanked(image), e), Cut(SecondStream(image, e), e), ImageBlocks(image, e);
    SecondBlocks(image, e);
    hide ImageBlocks, Blanked, Apply, Good, Plan, Cut, SecondStream;
    ApplyAppend(blocks, Plan(bad, |blocks|, e, first), Plan(bad, |blocks|, e, second));
    forall k | 0 <= k < |bs|
      ensures Good(bad, |blocks|, k) < |blocks|
      ensures Apply(blocks, RunPlan(bad, |blocks|, e, image))[Good(bad, |blocks|, k)] == bs[k]
    {
      StoredTwice(blocks, bad, e, first, second, bs, k);
    }
  }

  /** The second pass writes the first blocks of the image; the others are the same with a
      blank header. */
  lemma SecondBlocks(image: seq<byte>, e: nat)
    requires 0 < e && Span(HeaderLen(image), e) <= |image|
    ensures var first, second, bs := ImageBlocks(Blanked(image), e), Cut(SecondStream(image, e), e), ImageBlocks(image, e);
      |first| == |bs| && second <= bs && first[|second|..] == bs[|second|..]
  {
    assert image[..HeaderLen(image)] + image[HeaderLen(image)..] == image;
    SameTail(image[..HeaderLen(image)], Fill(HeaderLen(image), 0), image[HeaderLen(image)..], e);
  }

  /** Streams that differ in their first n bytes only. */
  lemma {:induction false} SameTail(a: seq<byte>, b: seq<byte>, tail: seq<byte>, e: nat)
    requires 0 < e && |a| == |b| && Span(|a|, e) <= |a + tail|
    ensures var n, bs, cs := Span(|a|, e), ImageBlocks(a + tail, e), ImageBlocks(b + tail, e);
      var second := Cut((a + tail)[..n], e);
      |bs| == |cs| && second <= bs && bs[|second|..] == cs[|second|..]
    decreases |a|
  {
    if |a| <= e {
      SameTailEnd(a, b, tail, e);
    } else {
      SameTail(a[e..], b[e..], tail, e);
      SameTailStep(a, b, tail, e);
    }
  }

  lemma SameTailEnd(a: seq<byte>, b: seq<byte>, tail: seq<byte>, e: nat)
    requires 0 < e && |a| == |b| <= e <= |a + tail|
    ensures var bs, cs := ImageBlocks(a + tail, e), ImageBlocks(b + tail, e);
      var second := Cut((a + tail)[..e], e);
      |bs| == |cs| && second <= bs && bs[|second|..] == cs[|second|..]
  {
    var s, t := a + tail, b + tail;
    BlocksFront(s, e);
    BlocksFront(t, e);
    assert s[..e][..e] == s[..e] && s[..e][e..] == [] && s[e..] == t[e..];
    assert Cut(s[..e], e) == [s[..e]] + [];
    hide *;
    BehindFirst(s[..e], t[..e], ImageBlocks(s[e..], e), ImageBlocks(t[e..], e), []);
  }

  lemma SameTailStep(a: seq<byte>, b: seq<byte>, tail: seq<byte>, e: nat)
    requires 0 < e < |a| == |b| && Span(|a|, e) <= |a + tail|
    requires var n, bs, cs := Span(|a| - e, e), ImageBlocks(a[e..] + tail, e), ImageBlocks(b[e..] + tail, e);
      n <= |a[e..] + tail| &&
      var second := Cut((a[e..] + tail)[..n], e);
      |bs| == |cs| && second <= bs && bs[|second|..] == cs[|second|..]
    ensures var n, bs, cs := Span(|a|, e), ImageBlocks(a + tail, e), ImageBlocks(b + tail, e);
      var second := Cut((a + tail)[..n], e);
      |bs| == |cs| && second <= bs && bs[|second|..] == cs[|second|..]
  {
    var s, t, n := a + tail, b + tail, Span(|a|, e);
    BlocksFront(s, e);
    BlocksFront(t, e);
    assert s[e..] == a[e..] + tail && t[e..] == b[e..] + tail && n == e + Span(|a| - e, e);
    assert s[..n][..e] == s[..e] && s[..n][e..] == s[e..][..n - e];
    assert Cut(s[..n], e) == [s[..e]] + Cut(s[e..][..n - e], e);
    hide *;
    BehindFirst(s[..e], t[..e], ImageBlocks(s[e..], e), ImageBlocks(t[e..], e), Cut(s[e..][..n - e], e));
  }

  lemma BehindFirst(x: Block, y: Block, bs: seq<Block>, cs: seq<Block>, second: seq<Block>)
    requires |bs| == |cs| && second <= bs && bs[|second|..] == cs[|second|..]
    ensures |[x] + bs| == |[y] + cs| && [x] + second <= [x] + bs
    ensures ([x] + bs)[|[x] + second|..] == ([y] + cs)[|[x] + second|..]
  {
  }

  /** A block is as the second list has it if it is that long, and as the first otherwise. */
  lemma StoredTwice(blocks: seq<Block>, bad: set<nat>, e: nat, first: seq<Block>, second: seq<Block>, bs: seq<Block>, k: nat)
    requires Fits(bad, |blocks|, first) && k < |bs| == |first| && second <= bs && first[|second|..] == bs[|second|..]
    ensures Good(bad, |blocks|, k) < |blocks|
    ensures Apply(Apply(blocks, Plan(bad, |blocks|, e, first)), Plan(bad, |blocks|, e, second))
      [Good(bad, |blocks|, k)] == bs[k]
  {
    var mid := Apply(blocks, Plan(bad, |blocks|, e, first));
    assert Good(bad, |blocks|, k) < |blocks| && Fits(bad, |blocks|, second);
    hide Apply, Good, Plan, Fits;
    if k < |second| {
      PlanStores(mid, bad, e, second, k);
    } else {
      PlanStores(blocks, bad, e, first, k);
      PlanSpares(mid, bad, e, second, k);
      assert first[k] == first[|second|..][k - |second|] && bs[k] == bs[|second|..][k - |second|];
    }
  }

  /** A plan leaves the good blocks behind its own alone. */
  lemma {:induction false} PlanSpares(blocks: seq<Block>, bad: set<nat>, e: nat, bs: seq<Block>, k: nat)
    requires |bs| <= k && Good(bad, |blocks|, k) < |blocks|
    ensures Apply(blocks, Plan(bad, |blocks|, e, bs))[Good(bad, |blocks|, k)] == blocks[Good(bad, |blocks|, k)]
  {
    if bs == [] {
      ApplyNothing(blocks);
    } else {
      var n := |bs| - 1;
      var q, before := Good(bad, |blocks|, n), Plan(bad, |blocks|, e, bs[..n]);
      PlanSpares(blocks, bad, e, bs[..n], k);
      GoodIncreases(bad, |blocks|, n, k);
      PlanLast(bad, |blocks|, e, bs);
      hide Good, Plan, Apply;
      Untouched(blocks, before, [Change(q, Fill(e, ERASED)), Change(q, bs[n])], Good(bad, |blocks|, k));
    }
  }

  /** Wherever a run is interrupted, a readable header means a complete image. */
  lemma EveryCutIsSafe(blocks: seq<Block>, bad: set<nat>, e: nat, image: seq<byte>, n: nat)
    requires Flashable(image, e)
    requires HeaderMatches(blocks, bad, image) ==> Complete(blocks, bad, e, image)
    ensures var r := RunCut(blocks, bad, e, image, n);
      HeaderMatches(r, bad, image) ==> Complete(r, bad, e, image)
  {
    if !HeaderMatches(blocks, bad, image) {
      var plan := RunPlan(bad, |blocks|, e, image);
      CutIsSafe(blocks, bad, e, image, if n < |plan| then n else |plan|);
    }
  }

  lemma CutIsSafe(blocks: seq<Block>, bad: set<nat>, e: nat, image: seq<byte>, m: nat)
    requires Flashable(image, e) && !HeaderMatches(blocks, bad, image)
    requires m <= |RunPlan(bad, |blocks|, e, image)|
    ensures var r := Apply(blocks, RunPlan(bad, |blocks|, e, image)[..m]);
      HeaderMatches(r, bad, image) ==> Complete(r, bad, e, image)
  {
    var first, plan := ImageBlocks(Blanked(image), e), RunPlan(bad, |blocks|, e, image);
    var p1, g := Plan(bad, |blocks|, e, first), Good(bad, |blocks|, 0);
    BlankedBlocks(image, e);
    OneBlockAgain(image, e);
    if g == |blocks| {
      NoGoodNoPlan(bad, |blocks|, e, first);
      assert !Fits(bad, |blocks|, first);
      assert plan[..m] == [];
      ApplyNothing(blocks);
    } else {
      assert first != [] && first[0] == Blanked(image)[..e];
      assert plan == p1 + if Fits(bad, |blocks|, first) then Plan(bad, |blocks|, e, [image[..e]]) else [];
      hide *;
      if m <= |p1| {
        assert plan[..m] == p1[..m];
        FirstBlock(blocks, bad, e, first, m);
        FirstPassIsSafe(blocks, bad, e, image, p1[..m], m);
      } else {
        SecondPassIsSafe(blocks, bad, e, image, m);
      }
    }
  }

  /** Cut in the second pass, or not at all. */
  lemma SecondPassIsSafe(blocks: seq<Block>, bad: set<nat>, e: nat, image: seq<byte>, m: nat)
    requires Flashable(image, e) && Good(bad, |blocks|, 0) < |blocks|
    requires var plan, p1 := RunPlan(bad, |blocks|, e, image), Plan(bad, |blocks|, e, ImageBlocks(Blanked(image), e));
      |p1| < m <= |plan|
    ensures var r := Apply(blocks, RunPlan(bad, |blocks|, e, image)[..m]);
      HeaderMatches(r, bad, image) ==> Complete(r, bad, e, image)
  {
    var plan, p1 := RunPlan(bad, |blocks|, e, image), Plan(bad, |blocks|, e, ImageBlocks(Blanked(image), e));
    HeaderAgain(bad, |blocks|, e, image);
    hide *;
    if m == |plan| {
      assert plan[..m] == plan;
      BothPassesComplete(blocks, bad, e, image);
    } else {
      assert plan[..m] == p1 + [Change(Good(bad, |blocks|, 0), Fill(e, ERASED))];
      SecondPassErased(blocks, bad, e, image, p1);
    }
  }

  /** The second pass of a run whose header lies in one block. */
  lemma HeaderAgain(bad: set<nat>, count: nat, e: nat, image: seq<byte>)
    requires Flashable(image, e) && Good(bad, count, 0) < count
    ensures var plan, p1, g := RunPlan(bad, count, e, image), Plan(bad, count, e, ImageBlocks(Blanked(image), e)), Good(bad, count, 0);
      && HEADER_SIZE <= e <= |image| && Span(HeaderLen(image), e) <= |image|
      && (|p1| < |plan| ==>
            && Fits(bad, count, ImageBlocks(Blanked(image), e))
            && plan == p1 + [Change(g, Fill(e, ERASED)), Change(g, image[..e])])
  {
    OneBlockAgain(image, e);
    PlanOne(bad, count, e, image[..e]);
    hide Plan, Good, ImageBlocks, Blanked, Cut, SecondStream, Constant;
  }

  /** Cut after the erase of the second pass. */
  lemma SecondPassErased(blocks: seq<Block>, bad: set<nat>, e: nat, image: seq<byte>, p1: seq<Change>)
    requires Flashable(image, e) && Good(bad, |blocks|, 0) < |blocks|
    ensures !HeaderMatches(Apply(blocks, p1 + [Change(Good(bad, |blocks|, 0), Fill(e, ERASED))]), bad, image)
  {
    var g := Good(bad, |blocks|, 0);
    hide HeaderMatches, Flashable, Good, Apply;
    Rewritten(blocks, p1, g, Fill(e, ERASED), []);
    ErasedMismatch(Apply(blocks, p1 + [Change(g, Fill(e, ERASED))]), bad, e, image);
  }

  lemma FirstPassIsSafe(blocks: seq<Block>, bad: set<nat>, e: nat, image: seq<byte>, done: seq<Change>, m: nat)
    requires Flashable(image, e) && !HeaderMatches(blocks, bad, image) && |done| == m
    requires Good(bad, |blocks|, 0) < |blocks|
    requires Apply(blocks, done)[Good(bad, |blocks|, 0)] ==
      if m == 0 then blocks[Good(bad, |blocks|, 0)] else if m == 1 then Fill(e, ERASED) else Blanked(image)[..e]
    ensures !HeaderMatches(Apply(blocks, done), bad, image)
  {
    if m == 1 {
      ErasedMismatch(Apply(blocks, done), bad, e, image);
    } else if m >= 2 {
      BlankMismatch(Apply(blocks, done), bad, e, image);
    }
  }

  /** Any number of interrupted runs keeps that guarantee. */
  lemma {:induction false} InterruptedRunsAreSafe(blocks: seq<Block>, bad: set<nat>, e: nat, image: seq<byte>,
      cuts: seq<nat>)
    requires Flashable(image, e)
    requires HeaderMatches(blocks, bad, image) ==> Complete(blocks, bad, e, image)
    ensures var r := RunsCut(blocks, bad, e, image, cuts);
      HeaderMatches(r, bad, image) ==> Complete(r, bad, e, image)
  {
    if cuts != [] {
      InterruptedRunsAreSafe(blocks, bad, e, image, cuts[..|cuts|-1]);
      EveryCutIsSafe(RunsCut(blocks, bad, e, image, cuts[..|cuts|-1]), bad, e, image, cuts[|cuts|-1]);
    }
  }

  /** After any number of interrupted runs one full run completes the image, provided it
      fits on the good blocks. */
  lemma RestartCompletes(blocks: seq<Block>, bad: set<nat>, e: nat, image: seq<byte>, cuts: seq<nat>, n: nat)
    requires Flashable(image, e) && Fits(bad, |blocks|, ImageBlocks(image, e))
    requires HeaderMatches(blocks, bad, image) ==> Complete(blocks, bad, e, image)
    requires n >= |RunPlan(bad, |blocks|, e, image)|
    ensures Complete(RunCut(RunsCut(blocks, bad, e, image, cuts), bad, e, image, n), bad, e, image)
  {
    var last := RunsCut(blocks, bad, e, image, cuts);
    InterruptedRunsAreSafe(blocks, bad, e, image, cuts);
    BlankedBlocks(image, e);
    var plan := RunPlan(bad, |blocks|, e, image);
    assert plan[..|plan|] == plan;
    BothPassesComplete(last, bad, e, image);
  }
}
