/** What a reader finds in an update image on the device, byte by byte: the header of
    bootloader.h, and the sections where it says. */
module UpdateHeader {
  import opened Bytes
  import opened Flash
  import opened Chunks
  import opened WriterModel
  import opened UpdateLayout

  /** The 32-bit word there is this number, or its low 32 bits. */
  predicate Says(header: seq<byte>, at: nat, value: int) {
    at + 4 <= |header| && Get4(header, at) == value % 0x1_0000_0000
  }

  lemma OneWord(s: seq<byte>, v: int)
    ensures Says(s + Put4(v), |s|, v) && (s + Put4(v))[..|s|] == s
  {
    GetPut(v);
    Get4OfSlice(s + Put4(v), |s|, Put4(v));
  }

  lemma Longer(s: seq<byte>, t: seq<byte>, at: nat, v: int)
    requires Says(s, at, v)
    ensures Says(s + t, at, v)
  {
    Get4OfSlice(s, at, s[at..at + 4]);
    assert (s + t)[at..at + 4] == s[at..at + 4];
    Get4OfSlice(s + t, at, s[at..at + 4]);
  }

  function Words(s: seq<byte>, vs: seq<int>): seq<byte> {
    if vs == [] then s else Words(s, vs[..|vs|-1]) + Put4(vs[|vs|-1])
  }

  lemma {:induction false} WordsSay(s: seq<byte>, vs: seq<int>)
    ensures |Words(s, vs)| == |s| + 4 * |vs| && s <= Words(s, vs)
    ensures forall k | 0 <= k < |vs| :: Says(Words(s, vs), |s| + 4 * k, vs[k])
  {
    if vs != [] {
      var n := |vs| - 1;
      var front := Words(s, vs[..n]);
      WordsSay(s, vs[..n]);
      OneWord(front, vs[n]);
      hide Says, Words, Put4;
      forall k | 0 <= k < |vs| ensures Says(front + Put4(vs[n]), |s| + 4 * k, vs[k]) {
        if k < n {
          assert vs[..n][k] == vs[k];
          Longer(front, Put4(vs[n]), |s| + 4 * k, vs[k]);
        }
      }
    }
  }

  /** The words of a header, in order. */
  function HeaderWords(h: Header, e: nat): seq<int> {
    [UPDATE_VERSION, HEADER_BYTES, ByteOffset(h.imageOffset, e), h.imageLength, h.bitmapWidth, h.bitmapHeight,
     h.bitmapBpp, ByteOffset(h.busyOffset, e), h.busyLength, ByteOffset(h.failOffset, e), h.failLength]
  }

  lemma EncodeIsWords(h: Header, e: nat)
    ensures Encode(h, e) == Words(MAGIC, HeaderWords(h, e))
  {
    var vs := HeaderWords(h, e);
    hide Put4, ByteOffset;
    assert vs[..11] == vs;
    forall k | 0 < k <= 11 ensures Words(MAGIC, vs[..k]) == Words(MAGIC, vs[..k - 1]) + Put4(vs[k - 1]) {
      assert vs[..k][..k - 1] == vs[..k - 1];
    }
    assert Words(MAGIC, vs[..0]) == MAGIC;
    assert Words(MAGIC, vs[..3]) == MAGIC + Put4(vs[0]) + Put4(vs[1]) + Put4(vs[2]);
    assert Words(MAGIC, vs[..6]) == Words(MAGIC, vs[..3]) + Put4(vs[3]) + Put4(vs[4]) + Put4(vs[5]);
    assert Words(MAGIC, vs[..9]) == Words(MAGIC, vs[..6]) + Put4(vs[6]) + Put4(vs[7]) + Put4(vs[8]);
  }

  /** The header in memory: its magic number, version and size, the lengths and the bitmaps'
      dimensions, and three offsets in bytes. */
  lemma EncodeReads(h: Header, e: nat)
    ensures var b := Encode(h, e);
      && |b| == 60 && b[..16] == [77, 83, 77, 45, 82, 65, 68, 73, 79, 45, 85, 80, 68, 65, 84, 69]
      && Says(b, 16, 0x10000) && Says(b, 20, 60)
      && Says(b, 24, if h.imageOffset < 0 then h.imageOffset else e * h.imageOffset) && Says(b, 28, h.imageLength)
      && Says(b, 32, h.bitmapWidth) && Says(b, 36, h.bitmapHeight) && Says(b, 40, h.bitmapBpp)
      && Says(b, 44, if h.busyOffset < 0 then h.busyOffset else e * h.busyOffset) && Says(b, 48, h.busyLength)
      && Says(b, 52, if h.failOffset < 0 then h.failOffset else e * h.failOffset) && Says(b, 56, h.failLength)
  {
    var b, vs := Encode(h, e), HeaderWords(h, e);
    EncodeIsWords(h, e);
    WordsSay(MAGIC, vs);
    assert |MAGIC| == 16 && MAGIC == b[..16];
    hide Encode, Words, Says, Put4;
    forall k | 0 <= k < 11 ensures Says(b, 16 + 4 * k, vs[k]) { }
    assert Says(b, 16 + 4 * 0, vs[0]) && Says(b, 16 + 4 * 1, vs[1]) && Says(b, 16 + 4 * 2, vs[2]) && Says(b, 16 + 4 * 3, vs[3]);
    assert Says(b, 16 + 4 * 4, vs[4]) && Says(b, 16 + 4 * 5, vs[5]) && Says(b, 16 + 4 * 6, vs[6]) && Says(b, 16 + 4 * 7, vs[7]);
    assert Says(b, 16 + 4 * 8, vs[8]) && Says(b, 16 + 4 * 9, vs[9]) && Says(b, 16 + 4 * 10, vs[10]);
  }

  // ---------------------------------------------------------------- on the device

  /** The contents of these blocks, one after the other. */
  ghost function Gathered(blocks: seq<Block>, ps: seq<nat>): seq<byte>
    requires Below(ps, |blocks|)
  {
    if ps == [] then [] else Gathered(blocks, ps[..|ps|-1]) + blocks[ps[|ps|-1]]
  }

  lemma {:induction false} GatheredIs(blocks: seq<Block>, ps: seq<nat>, bs: seq<Block>)
    requires Below(ps, |blocks|) && |ps| == |bs| && forall k | 0 <= k < |ps| :: blocks[ps[k]] == bs[k]
    ensures Gathered(blocks, ps) == Concat(bs)
  {
    if ps != [] { GatheredIs(blocks, ps[..|ps|-1], bs[..|bs|-1]); }
  }

  /** The data lies in these blocks, and the header gives its first byte and its length. */
  ghost predicate SectionFound(blocks: seq<Block>, header: seq<byte>, offsetAt: nat, ps: seq<nat>, data: seq<byte>, e: nat) {
    && Below(ps, |blocks|) && Increasing(ps) && data <= Gathered(blocks, ps)
    && Says(header, offsetAt + 4, |data|) && (data != [] ==> ps != [] && Says(header, offsetAt, e * ps[0]))
  }

  /** What a reader finds that knows where the header's blocks are. */
  ghost predicate UpdateFound(blocks: seq<Block>, e: nat, hs: seq<nat>, ps1: seq<nat>, ps2: seq<nat>, ps3: seq<nat>,
      update: seq<byte>, width: nat, height: nat, bpp: nat, busy: seq<byte>, fail: seq<byte>)
  {
    && hs != [] && Below(hs, |blocks|) && Increasing(hs) &&
    var header := Gathered(blocks, hs);
    && |header| >= 60 && header[..16] == [77, 83, 77, 45, 82, 65, 68, 73, 79, 45, 85, 80, 68, 65, 84, 69]
    && Says(header, 16, 0x10000) && Says(header, 20, 60)
    && Says(header, 32, width) && Says(header, 36, height) && Says(header, 40, bpp)
    && SectionFound(blocks, header, 24, ps1, update, e)
    && SectionFound(blocks, header, 44, ps2, busy, e)
    && SectionFound(blocks, header, 52, ps3, fail, e)
  }

  /** The same for the blocks that a run reports. */
  ghost predicate ReportFound(blocks: seq<Block>, e: nat, rep: Report, update: seq<byte>, width: nat, height: nat, bpp: nat,
      busy: seq<byte>, fail: seq<byte>)
  {
    && rep.n1 <= rep.n2 <= rep.n3 <= |rep.placed|
    && UpdateFound(blocks, e, rep.headerAt, rep.placed[rep.n1..rep.n2], rep.placed[rep.n2..rep.n3], rep.placed[rep.n3..],
      update, width, height, bpp, busy, fail)
  }

  lemma SectionIsFound(blocks: seq<Block>, header: seq<byte>, offsetAt: nat, ps: seq<nat>, data: seq<byte>, e: nat, offset: int)
    requires e > 0 && SectionAt(blocks, ps, data, e, offset)
    requires Says(header, offsetAt, if offset < 0 then offset else e * offset) && Says(header, offsetAt + 4, |data|)
    ensures SectionFound(blocks, header, offsetAt, ps, data, e)
  {
    GatheredIs(blocks, ps, ImageBlocks(data, e));
    BlocksJoin(data, e);
    if data != [] { SomeBlocks(data, e); }
    hide Says, ImageBlocks, Gathered;
  }

  /** The promised layout, as a reader finds it: the header's words at their places, and the
      data of each section in the blocks that begin where the header says. */
  lemma LayoutIsFound(blocks: seq<Block>, e: nat, rep: Report, h: Header, update: seq<byte>, busy: seq<byte>, fail: seq<byte>)
    requires e > 0 && Layout(blocks, e, rep, update, busy, fail) && OffsetsOnly(rep.header, h)
    ensures ReportFound(blocks, e, rep, update, h.bitmapWidth, h.bitmapHeight, h.bitmapBpp, busy, fail)
  {
    var b, header := Encode(rep.header, e), Gathered(blocks, rep.headerAt);
    EncodeReads(rep.header, e);
    GatheredIs(blocks, rep.headerAt, ImageBlocks(b, e));
    BlocksJoin(b, e);
    assert b <= header;
    assert rep.header.bitmapWidth == h.bitmapWidth && rep.header.bitmapHeight == h.bitmapHeight && rep.header.bitmapBpp == h.bitmapBpp;
    HeaderSays(header, b, rep.header, e);
    hide Encode, Gathered, ImageBlocks, Says, SectionFound;
    SectionIsFound(blocks, header, 24, rep.placed[rep.n1..rep.n2], update, e, rep.header.imageOffset);
    SectionIsFound(blocks, header, 44, rep.placed[rep.n2..rep.n3], busy, e, rep.header.busyOffset);
    SectionIsFound(blocks, header, 52, rep.placed[rep.n3..], fail, e, rep.header.failOffset);
  }

  lemma HeaderSays(header: seq<byte>, b: seq<byte>, h: Header, e: nat)
    requires b == Encode(h, e) && b <= header
    ensures |header| >= 60 && header[..16] == [77, 83, 77, 45, 82, 65, 68, 73, 79, 45, 85, 80, 68, 65, 84, 69]
    ensures Says(header, 16, 0x10000) && Says(header, 20, 60)
    ensures Says(header, 24, if h.imageOffset < 0 then h.imageOffset else e * h.imageOffset) && Says(header, 28, h.imageLength)
    ensures Says(header, 32, h.bitmapWidth) && Says(header, 36, h.bitmapHeight) && Says(header, 40, h.bitmapBpp)
    ensures Says(header, 44, if h.busyOffset < 0 then h.busyOffset else e * h.busyOffset) && Says(header, 48, h.busyLength)
    ensures Says(header, 52, if h.failOffset < 0 then h.failOffset else e * h.failOffset) && Says(header, 56, h.failLength)
  {
    EncodeReads(h, e);
    var rest := header[|b|..];
    assert header == b + rest;
    assert header[..16] == b[..16];
    hide Encode, Says;
    forall at, v | Says(b, at, v) ensures Says(header, at, v) { Longer(b, rest, at, v); }
  }
}
