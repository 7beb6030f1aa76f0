/** Bytes, and words kept in them with the low byte first. */
module Bytes {

  type byte = b: int | 0 <= b < 256

  function Get2(m: seq<byte>, i: nat): (v: nat)
    requires i + 2 <= |m|
    ensures v < 0x1_0000
  {
    m[i] as int + 0x100 * m[i + 1] as int
  }

  function Get4(m: seq<byte>, i: nat): (v: nat)
    requires i + 4 <= |m|
    ensures v < 0x1_0000_0000
  {
    m[i] as int + 0x100 * m[i + 1] as int + 0x1_0000 * m[i + 2] as int + 0x100_0000 * m[i + 3] as int
  }

  function Put2(v: nat): (w: seq<byte>)
    ensures |w| == 2
  {
    [v % 0x100, v / 0x100 % 0x100]
  }

  lemma GetPut2(v: nat)
    requires v < 0x1_0000
    ensures Get2(Put2(v), 0) == v
  {
  }

  lemma Get2OfSlice(s: seq<byte>, at: nat, w: seq<byte>)
    requires at + 2 <= |s| && s[at..at + 2] == w
    ensures Get2(s, at) == Get2(w, 0)
  {
    assert forall i | 0 <= i < 2 :: s[at + i] == w[i];
  }

  /** The low 32 bits of a number. */
  function Put4(v: int): (w: seq<byte>)
    ensures |w| == 4
  {
    var u := v % 0x1_0000_0000;
    [u % 0x100, u / 0x100 % 0x100, u / 0x1_0000 % 0x100, u / 0x100_0000]
  }

  lemma GetPut(v: int)
    ensures Get4(Put4(v), 0) == v % 0x1_0000_0000
  {
    var u := v % 0x1_0000_0000;
    assert u / 0x1_0000 == u / 0x100 / 0x100 && u / 0x100_0000 == u / 0x100 / 0x100 / 0x100;
  }

  /** The low byte comes first. */
  lemma LowByteFirst()
    ensures Put4(0x0403_0201) == [1, 2, 3, 4] && Put2(0x0201) == [1, 2]
    ensures Get4([1, 2, 3, 4], 0) == 0x0403_0201 && Get2([1, 2], 0) == 0x0201
  {
  }

  lemma Get4OfSlice(s: seq<byte>, at: nat, w: seq<byte>)
    requires at + 4 <= |s| && s[at..at + 4] == w
    ensures Get4(s, at) == Get4(w, 0)
  {
    assert forall i | 0 <= i < 4 :: s[at + i] == w[i];
  }
}
