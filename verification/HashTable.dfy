/** The open-addressing hash table of minzip/Hash.c: linear probing, tombstones, and
    doubling once live entries plus tombstones exceed 5/8 of the slots.

    The first half is about one slot array as a value: what it means for every live
    entry to be reachable by probing, and which changes keep it so. The second half is
    the class, whose methods are the C functions; its ghost field `contents` is the
    finite map that the table refines. */
module HashTables {
  import opened Wrappers
  import opened Words

  const LOAD_NUMER := 5
  const LOAD_DENOM := 8
  const WORD := 0x1_0000_0000

  // A null `data` pointer is Empty, the HASH_TOMBSTONE pointer is Tombstone.
  datatype Slot<+D> = Empty | Tombstone | Live(hash: nat, data: D)

  // ---------------------------------------------------------------- sizes

  ghost predicate IsPow2(n: nat) {
    exists k: nat :: n == Pow2(k)
  }

  /** The capacity to create a table of `size` elements with. */
  function SizeFor(size: nat): nat {
    size * LOAD_DENOM / LOAD_NUMER + 1
  }

  /** The bit-smearing round-up, in 32-bit arithmetic: both the decrement and the
      increment wrap. */
  function RoundUpPower2(val: nat): nat
    requires val < WORD
  {
    var v0 := (val + WORD - 1) % WORD;
    var v1 := Or(v0, Shr(v0, 1));
    var v2 := Or(v1, Shr(v1, 2));
    var v3 := Or(v2, Shr(v2, 4));
    var v4 := Or(v3, Shr(v3, 8));
    var v5 := Or(v4, Shr(v4, 16));
    (v5 + 1) % WORD
  }

  lemma Smeared(v: nat)
    requires v < WORD
    ensures
      var v1 := Or(v, Shr(v, 1));
      var v2 := Or(v1, Shr(v1, 2));
      var v3 := Or(v2, Shr(v2, 4));
      var v4 := Or(v3, Shr(v3, 8));
      var v5 := Or(v4, Shr(v4, 16));
      BitLength(v) <= 32 && v5 == Pow2(BitLength(v)) - 1
  {
    var v1 := Or(v, Shr(v, 1));
    var v2 := Or(v1, Shr(v1, 2));
    var v3 := Or(v2, Shr(v2, 4));
    var v4 := Or(v3, Shr(v3, 8));
    TopBitIsOne(v);
    Smear(v, 1);
    Smear(v1, 2);
    Smear(v2, 4);
    Smear(v3, 8);
    Smear(v4, 16);
    WordLength(v);
  }

  lemma WordLength(v: nat)
    requires v < WORD
    ensures BitLength(v) <= 32
  {
    Pow2Of32();
    BitLengthBounds(v);
    if BitLength(v) > 32 { Pow2Monotone(32, BitLength(v) - 1); }
  }

  lemma LeastPow2Above(v: nat, k: nat)
    requires v < Pow2(k)
    ensures Pow2(BitLength(v)) <= Pow2(k)
  {
    BitLengthBounds(v);
    if k < BitLength(v) { Pow2Monotone(k, BitLength(v) - 1); }
  }

  lemma RoundUpValue(val: nat)
    requires val < WORD
    ensures var v := (val + WORD - 1) % WORD; RoundUpPower2(val) == Pow2(BitLength(v)) % WORD
  {
    Smeared((val + WORD - 1) % WORD);
  }

  /** For 1 <= val <= 2^31 the result is the least power of two not below val. */
  lemma RoundUpIsLeast(val: nat)
    requires 1 <= val <= 0x8000_0000
    ensures IsPow2(RoundUpPower2(val)) && val <= RoundUpPower2(val)
    ensures forall k: nat :: val <= Pow2(k) ==> RoundUpPower2(val) <= Pow2(k)
  {
    hide RoundUpPower2, BitLength, Pow2;
    assert (val + WORD - 1) % WORD == val - 1;
    var l := BitLength(val - 1);
    assert RoundUpPower2(val) == Pow2(l) by {
      RoundUpValue(val);
      Pow2Of32();
      LeastPow2Above(val - 1, 31);
    }
    BitLengthBounds(val - 1);
    forall k: nat | val <= Pow2(k) ensures Pow2(l) <= Pow2(k) { LeastPow2Above(val - 1, k); }
  }

  /** For 0 and for words above 2^31 an addition wraps and the result is 0. */
  lemma RoundUpWraps(val: nat)
    requires val < WORD && !(1 <= val <= 0x8000_0000)
    ensures RoundUpPower2(val) == 0
  {
    var v := (val + WORD - 1) % WORD;
    assert v >= 0x8000_0000;
    RoundUpValue(val);
    BitLengthBounds(v);
    WordLength(v);
    Pow2Of32();
    if BitLength(v) < 32 { Pow2Monotone(BitLength(v), 31); }
  }

  /** A table created for n elements never has to grow while it holds at most n. */
  lemma SizeForNeverGrows(n: nat, used: nat)
    requires SizeFor(n) <= 0x8000_0000 && used <= n
    ensures used * LOAD_DENOM <= RoundUpPower2(SizeFor(n)) * LOAD_NUMER
    ensures 8 * used <= 5 * RoundUpPower2(SizeFor(n))
  {
    RoundUpIsLeast(SizeFor(n));
  }

  // ---------------------------------------------------------------- slot arrays

  /** hash & (size - 1) */
  ghost predicate ValidSize(size: nat) {
    size > 0 && IsPow2(size)
  }

  function Home(hash: nat, size: nat): (h: nat)
    requires ValidSize(size)
    ensures h == hash % size
    ensures h < size
  {
    ghost var k: nat :| size == Pow2(k);
    MaskIsMod(hash, k);
    And(hash, size - 1)
  }

  function Next(i: nat, size: nat): nat {
    if i + 1 == size then 0 else i + 1
  }

  /** Probing from `home` visits j strictly before it visits i. */
  predicate Before(home: nat, j: nat, i: nat, size: nat) {
    if home <= i then home <= j < i else home <= j < size || j < i
  }

  ghost predicate PathIsFull<D>(s: seq<Slot<D>>, home: nat, i: nat) {
    forall j | 0 <= j < |s| && Before(home, j, i, |s|) :: !s[j].Empty?
  }

  /** Every live entry can be found by probing from its home without meeting a gap. */
  ghost predicate Reachable<D>(s: seq<Slot<D>>) {
    ValidSize(|s|) &&
    forall i | 0 <= i < |s| && s[i].Live? :: PathIsFull(s, Home(s[i].hash, |s|), i)
  }

  function CountLive<D>(s: seq<Slot<D>>): nat {
    if s == [] then 0 else CountLive(s[..|s|-1]) + (if s[|s|-1].Live? then 1 else 0)
  }

  /** countTombStones */
  function CountDead<D>(s: seq<Slot<D>>): nat {
    if s == [] then 0 else CountDead(s[..|s|-1]) + (if s[|s|-1].Tombstone? then 1 else 0)
  }

  lemma {:induction false} CountUpdate<D>(s: seq<Slot<D>>, i: nat, x: Slot<D>)
    requires i < |s|
    ensures CountLive(s[i := x]) == CountLive(s) - (if s[i].Live? then 1 else 0) + (if x.Live? then 1 else 0)
    ensures CountDead(s[i := x]) == CountDead(s) - (if s[i].Tombstone? then 1 else 0) + (if x.Tombstone? then 1 else 0)
  {
    var n := |s| - 1;
    if i == n {
      assert s[i := x][..n] == s[..n];
    } else {
      CountUpdate(s[..n], i, x);
      assert s[i := x][..n] == s[..n][i := x];
    }
  }

  /** Live entries and tombstones cannot fill a table they do not outnumber. */
  lemma {:induction false} SomeEmpty<D>(s: seq<Slot<D>>)
    ensures CountLive(s) + CountDead(s) <= |s|
    ensures CountLive(s) + CountDead(s) < |s| ==> exists e :: 0 <= e < |s| && s[e].Empty?
  {
    if s != [] {
      var n := |s| - 1;
      SomeEmpty(s[..n]);
      if CountLive(s) + CountDead(s) < |s| {
        if s[n].Empty? {
        } else {
          var e :| 0 <= e < n && s[..n][e].Empty?;
          assert s[e].Empty?;
        }
      }
    }
  }

  lemma {:induction false} AllEmptyCounts<D>(s: seq<Slot<D>>)
    requires forall i | 0 <= i < |s| :: s[i].Empty?
    ensures CountLive(s) == 0 && CountDead(s) == 0
  {
    if s != [] { AllEmptyCounts(s[..|s|-1]); }
  }

  lemma EmptyTable<K(!new), D(!new)>(s: seq<Slot<D>>, keyOf: D -> K, hashOf: K -> nat)
    requires ValidSize(|s|) && forall i | 0 <= i < |s| :: s[i].Empty?
    ensures Reachable(s) && Holds(s, map[], keyOf, hashOf) && CountLive(s) == 0 && CountDead(s) == 0
  {
    AllEmptyCounts(s);
  }

  lemma InsertKeepsReachable<D>(s: seq<Slot<D>>, e: nat, hash: nat, d: D)
    requires Reachable(s) && e < |s| && s[e].Empty?
    requires PathIsFull(s, Home(hash, |s|), e)
    ensures Reachable(s[e := Live(hash, d)])
  {
    var t := s[e := Live(hash, d)];
    forall i | 0 <= i < |t| && t[i].Live?
      ensures PathIsFull(t, Home(t[i].hash, |t|), i)
    {
      if i != e { assert PathIsFull(s, Home(s[i].hash, |s|), i); }
    }
  }

  lemma RemoveKeepsReachable<D>(s: seq<Slot<D>>, i: nat)
    requires Reachable(s) && i < |s|
    ensures Reachable(s[i := Tombstone])
  {
    var t := s[i := Tombstone];
    forall j | 0 <= j < |t| && t[j].Live?
      ensures PathIsFull(t, Home(t[j].hash, |t|), j)
    {
      assert PathIsFull(s, Home(s[j].hash, |s|), j);
    }
  }

  /** A live entry whose probe starts at `home` lies before the first gap met from there. */
  lemma GapEndsSearch<D>(s: seq<Slot<D>>, home: nat, gap: nat, i: nat)
    requires Reachable(s) && home < |s| && gap < |s| && i < |s|
    requires s[gap].Empty? && s[i].Live? && Home(s[i].hash, |s|) == home
    ensures Before(home, i, gap, |s|)
  {
    assert PathIsFull(s, home, i);
    if !Before(home, i, gap, |s|) { assert Before(home, gap, i, |s|); }
  }

  // ---------------------------------------------------------------- contents

  /** The live entries of s are exactly the pairs of m, each once and under its hash. */
  ghost predicate Holds<K(!new), D(!new)>(s: seq<Slot<D>>, m: map<K, D>, keyOf: D -> K, hashOf: K -> nat) {
    && (forall i | 0 <= i < |s| && s[i].Live? ::
          keyOf(s[i].data) in m && m[keyOf(s[i].data)] == s[i].data && s[i].hash == hashOf(keyOf(s[i].data)))
    && (forall i, j | 0 <= i < j < |s| && s[i].Live? && s[j].Live? :: keyOf(s[i].data) != keyOf(s[j].data))
    && (forall k | k in m :: exists i :: 0 <= i < |s| && s[i].Live? && keyOf(s[i].data) == k)
  }

  /** A key whose probe path up to a gap shows no entry with it is not in the map. */
  lemma AbsentKey<K(!new), D(!new)>(s: seq<Slot<D>>, m: map<K, D>, keyOf: D -> K, hashOf: K -> nat, k: K, gap: nat)
    requires Reachable(s) && Holds(s, m, keyOf, hashOf) && gap < |s| && s[gap].Empty?
    requires forall j | 0 <= j < |s| && Before(Home(hashOf(k), |s|), j, gap, |s|) && s[j].Live? && s[j].hash == hashOf(k) ::
      keyOf(s[j].data) != k
    ensures k !in m
  {
    forall i | 0 <= i < |s| && s[i].Live? ensures keyOf(s[i].data) != k {
      if s[i].hash == hashOf(k) { GapEndsSearch(s, Home(hashOf(k), |s|), gap, i); }
    }
  }

  /** The same for one item: the map may hold another item under its key, but not this one. */
  lemma AbsentItem<K(!new), D(!new)>(s: seq<Slot<D>>, m: map<K, D>, keyOf: D -> K, hashOf: K -> nat, item: D, gap: nat)
    requires Reachable(s) && Holds(s, m, keyOf, hashOf) && gap < |s| && s[gap].Empty?
    requires forall j | 0 <= j < |s| && Before(Home(hashOf(keyOf(item)), |s|), j, gap, |s|) && s[j].Live? :: s[j].data != item
    ensures !(keyOf(item) in m && m[keyOf(item)] == item)
  {
    var k := keyOf(item);
    forall i | 0 <= i < |s| && s[i].Live? ensures s[i].data != item {
      if s[i].hash == hashOf(k) { GapEndsSearch(s, Home(hashOf(k), |s|), gap, i); }
    }
  }

  lemma HoldsInsert<K(!new), D(!new)>(s: seq<Slot<D>>, m: map<K, D>, keyOf: D -> K, hashOf: K -> nat, e: nat, d: D)
    requires Holds(s, m, keyOf, hashOf) && e < |s| && !s[e].Live? && keyOf(d) !in m
    ensures Holds(s[e := Live(hashOf(keyOf(d)), d)], m[keyOf(d) := d], keyOf, hashOf)
  {
    var t, m' := s[e := Live(hashOf(keyOf(d)), d)], m[keyOf(d) := d];
    forall k | k in m' ensures exists i :: 0 <= i < |t| && t[i].Live? && keyOf(t[i].data) == k {
      if k == keyOf(d) {
        assert t[e].Live?;
      } else {
        var i :| 0 <= i < |s| && s[i].Live? && keyOf(s[i].data) == k;
        assert t[i] == s[i];
      }
    }
  }

  lemma HoldsRemove<K(!new), D(!new)>(s: seq<Slot<D>>, m: map<K, D>, keyOf: D -> K, hashOf: K -> nat, e: nat)
    requires Holds(s, m, keyOf, hashOf) && e < |s| && s[e].Live?
    ensures Holds(s[e := Tombstone], m - {keyOf(s[e].data)}, keyOf, hashOf)
  {
    var t, m' := s[e := Tombstone], m - {keyOf(s[e].data)};
    forall k | k in m' ensures exists i :: 0 <= i < |t| && t[i].Live? && keyOf(t[i].data) == k {
      var i :| 0 <= i < |s| && s[i].Live? && keyOf(s[i].data) == k;
      assert t[i] == s[i];
    }
  }

  lemma HoldsPrefixStep<K(!new), D(!new)>(s: seq<Slot<D>>, n: nat, m: map<K, D>, keyOf: D -> K, hashOf: K -> nat)
    requires n < |s| && Holds(s[..n], m, keyOf, hashOf)
    requires s[n].Live? ==> keyOf(s[n].data) !in m && s[n].hash == hashOf(keyOf(s[n].data))
    ensures Holds(s[..n+1], if s[n].Live? then m[keyOf(s[n].data) := s[n].data] else m, keyOf, hashOf)
  {
    var t := s[..n+1];
    var m' := if s[n].Live? then m[keyOf(s[n].data) := s[n].data] else m;
    assert t == s[..n] + [s[n]];
    forall i | 0 <= i < |t| && t[i].Live?
      ensures keyOf(t[i].data) in m' && m'[keyOf(t[i].data)] == t[i].data && t[i].hash == hashOf(keyOf(t[i].data))
    {
      if i < n { assert t[i] == s[..n][i]; }
    }
    forall i, j | 0 <= i < j < |t| && t[i].Live? && t[j].Live? ensures keyOf(t[i].data) != keyOf(t[j].data) {
      assert t[i] == s[..n][i] && keyOf(t[i].data) in m;
      if j < n { assert t[j] == s[..n][j]; }
    }
    forall k | k in m' ensures exists i :: 0 <= i < |t| && t[i].Live? && keyOf(t[i].data) == k {
      if k in m {
        var i :| 0 <= i < |s[..n]| && s[..n][i].Live? && keyOf(s[..n][i].data) == k;
        assert t[i] == s[..n][i];
      } else {
        assert t[n].Live?;
      }
    }
  }

  /** A slot array determines the map it holds. */
  lemma HoldsUnique<K(!new), D(!new)>(s: seq<Slot<D>>, m: map<K, D>, m': map<K, D>, keyOf: D -> K, hashOf: K -> nat)
    requires Holds(s, m, keyOf, hashOf) && Holds(s, m', keyOf, hashOf)
    ensures m == m'
  {
    forall k | k in m ensures k in m' && m'[k] == m[k] {
      var i :| 0 <= i < |s| && s[i].Live? && keyOf(s[i].data) == k;
    }
    forall k | k in m' ensures k in m {
      var i :| 0 <= i < |s| && s[i].Live? && keyOf(s[i].data) == k;
    }
  }

  /** What Foreach and the free callback see: the live data in slot order. */
  function LiveData<D>(s: seq<Slot<D>>): seq<D> {
    if s == [] then []
    else LiveData(s[..|s|-1]) + (if s[|s|-1].Live? then [s[|s|-1].data] else [])
  }

  /** They are the values of the map, each key once. */
  lemma {:induction false} LiveDataIsContents<K(!new), D(!new)>(s: seq<Slot<D>>, m: map<K, D>, keyOf: D -> K,
      hashOf: K -> nat)
    requires Holds(s, m, keyOf, hashOf)
    ensures |LiveData(s)| == CountLive(s)
    ensures forall d :: d in LiveData(s) <==> keyOf(d) in m && m[keyOf(d)] == d
    ensures forall i, j | 0 <= i < j < |LiveData(s)| :: keyOf(LiveData(s)[i]) != keyOf(LiveData(s)[j])
  {
    LiveDataCount(s);
    LiveDataDistinct(s, keyOf);
    forall d | d in LiveData(s) ensures keyOf(d) in m && m[keyOf(d)] == d {
      var i := LiveDataFrom(s, d);
    }
    forall d | keyOf(d) in m && m[keyOf(d)] == d ensures d in LiveData(s) {
      var i :| 0 <= i < |s| && s[i].Live? && keyOf(s[i].data) == keyOf(d);
      LiveDataHas(s, i);
    }
  }

  lemma {:induction false} LiveDataHas<D>(s: seq<Slot<D>>, i: nat)
    requires i < |s| && s[i].Live?
    ensures s[i].data in LiveData(s)
  {
    var n := |s| - 1;
    if i < n {
      LiveDataHas(s[..n], i);
    } else {
      assert LiveData(s) == LiveData(s[..n]) + [s[n].data];
    }
  }

  lemma {:induction false} LiveDataFrom<D>(s: seq<Slot<D>>, d: D) returns (i: nat)
    requires d in LiveData(s)
    ensures i < |s| && s[i].Live? && s[i].data == d
  {
    var n := |s| - 1;
    if d in LiveData(s[..n]) {
      i := LiveDataFrom(s[..n], d);
    } else {
      i := n;
    }
  }

  lemma {:induction false} LiveDataCount<D>(s: seq<Slot<D>>)
    ensures |LiveData(s)| == CountLive(s)
  {
    if s != [] { LiveDataCount(s[..|s|-1]); }
  }

  lemma {:induction false} LiveDataDistinct<K(!new), D>(s: seq<Slot<D>>, keyOf: D -> K)
    requires forall i, j | 0 <= i < j < |s| && s[i].Live? && s[j].Live? :: keyOf(s[i].data) != keyOf(s[j].data)
    ensures forall i, j | 0 <= i < j < |LiveData(s)| :: keyOf(LiveData(s)[i]) != keyOf(LiveData(s)[j])
  {
    if s != [] {
      var front := s[..|s|-1];
      LiveDataDistinct(front, keyOf);
      if s[|s|-1].Live? {
        forall i | 0 <= i < |LiveData(front)| ensures keyOf(LiveData(front)[i]) != keyOf(s[|s|-1].data) {
          var j := LiveDataFrom(front, LiveData(front)[i]);
          assert front[j] == s[j];
        }
      }
    }
  }

  lemma DoubleIsValid(size: nat)
    requires ValidSize(size)
    ensures ValidSize(2 * size)
  {
    var k: nat :| size == Pow2(k);
    assert 2 * size == Pow2(k + 1);
  }

  lemma {:induction false} CountLivePrefix<D>(s: seq<Slot<D>>, n: nat)
    requires n <= |s|
    ensures CountLive(s[..n]) <= CountLive(s)
  {
    if n < |s| {
      CountLivePrefix(s[..|s|-1], n);
      assert s[..|s|-1][..n] == s[..n];
    } else {
      assert s[..n] == s;
    }
  }

  /** A key met at position n was not met earlier. */
  lemma FreshKey<K(!new), D(!new)>(s: seq<Slot<D>>, n: nat, m: map<K, D>, whole: map<K, D>, keyOf: D -> K, hashOf: K -> nat)
    requires Holds(s, whole, keyOf, hashOf) && n < |s| && s[n].Live?
    requires Holds(s[..n], m, keyOf, hashOf)
    ensures keyOf(s[n].data) !in m
  {
    assert forall i | 0 <= i < n :: s[..n][i] == s[i];
  }

  /** The loop of Clear: empties every slot and collects the live data. */
  method EmptySlots<D>(slots: array<Slot<D>>) returns (freed: seq<D>)
    modifies slots
    ensures forall j | 0 <= j < slots.Length :: slots[j].Empty?
    ensures freed == LiveData(old(slots[..]))
  {
    freed := [];
    ghost var s := slots[..];
    for i := 0 to slots.Length
      invariant forall j | 0 <= j < i :: slots[j].Empty?
      invariant forall j | i <= j < slots.Length :: slots[j] == s[j]
      invariant freed == LiveData(s[..i])
    {
      assert s[..i+1][..i] == s[..i];
      if slots[i].Tombstone? {
        slots[i] := Empty;
      } else if !slots[i].Empty? {
        freed := freed + [slots[i].data];
        slots[i] := Empty;
      }
    }
    assert s[..slots.Length] == s;
  }

  /** The probe loop that lookup, removal and re-insertion share: from the home slot on,
      wrapping around, to the first slot that is accepted or empty. */
  method Probe<D>(slots: array<Slot<D>>, hash: nat, accept: Slot<D> -> bool) returns (idx: nat)
    requires ValidSize(slots.Length) && CountLive(slots[..]) + CountDead(slots[..]) < slots.Length
    ensures idx < slots.Length && (slots[idx].Empty? || accept(slots[idx]))
    ensures forall j | 0 <= j < slots.Length && Before(Home(hash, slots.Length), j, idx, slots.Length) ::
      !slots[j].Empty? && !accept(slots[j])
  {
    SomeEmpty(slots[..]);
    ghost var e :| 0 <= e < slots.Length && slots[..][e].Empty?;
    idx := Home(hash, slots.Length);
    ghost var home := idx;
    while !slots[idx].Empty?
      invariant 0 <= idx < slots.Length
      invariant forall j | 0 <= j < slots.Length && Before(home, j, idx, slots.Length) ::
        !slots[j].Empty? && !accept(slots[j])
      decreases if idx <= e then e - idx else e + slots.Length - idx
    {
      if accept(slots[idx]) {
        return;
      }
      // The source leaves the loop here for a one-slot table; such a table is always empty.
      assert slots.Length > 1;
      idx := Next(idx, slots.Length);
    }
  }

  method Reinsert<K(!new), D(!new)>(slots: array<Slot<D>>, hash: nat, d: D,
      ghost m: map<K, D>, ghost keyOf: D -> K, ghost hashOf: K -> nat)
    requires Reachable(slots[..]) && CountLive(slots[..]) + CountDead(slots[..]) < slots.Length
    requires Holds(slots[..], m, keyOf, hashOf) && keyOf(d) !in m && hash == hashOf(keyOf(d))
    modifies slots
    ensures Reachable(slots[..]) && Holds(slots[..], m[keyOf(d) := d], keyOf, hashOf)
    ensures CountLive(slots[..]) == CountLive(old(slots[..])) + 1
    ensures CountDead(slots[..]) == CountDead(old(slots[..]))
  {
    var newIdx := Probe(slots, hash, _ => false);
    assert PathIsFull(slots[..], Home(hash, slots.Length), newIdx);
    CountUpdate(slots[..], newIdx, Live(hash, d));
    InsertKeepsReachable(slots[..], newIdx, hash, d);
    HoldsInsert(slots[..], m, keyOf, hashOf, newIdx, d);
    slots[newIdx] := Live(hash, d);
    assert slots[..] == old(slots[..])[newIdx := Live(hash, d)];
  }

  /** The copying loop of the resize. */
  method Rehash<K(!new), D(!new)>(slots: array<Slot<D>>, newSize: nat,
      ghost m: map<K, D>, ghost keyOf: D -> K, ghost hashOf: K -> nat) returns (newSlots: array<Slot<D>>)
    requires Holds(slots[..], m, keyOf, hashOf)
    requires ValidSize(newSize) && CountLive(slots[..]) < newSize
    ensures fresh(newSlots) && newSlots.Length == newSize
    ensures Reachable(newSlots[..]) && Holds(newSlots[..], m, keyOf, hashOf)
    ensures CountLive(newSlots[..]) == CountLive(slots[..]) && CountDead(newSlots[..]) == 0
  {
    newSlots := new Slot<D>[newSize](_ => Empty);
    AllEmptyCounts(newSlots[..]);
    ghost var was, done: map<K, D> := slots[..], map[];
    for i := 0 to slots.Length
      invariant Reachable(newSlots[..])
      invariant Holds(newSlots[..], done, keyOf, hashOf) && Holds(was[..i], done, keyOf, hashOf)
      invariant CountLive(newSlots[..]) == CountLive(was[..i]) && CountDead(newSlots[..]) == 0
    {
      assert was[..i+1][..i] == was[..i] && was[..i+1][i] == slots[i];
      if slots[i].Live? {
        CountLivePrefix(was, i + 1);
        FreshKey(was, i, done, m, keyOf, hashOf);
        Reinsert(newSlots, slots[i].hash, slots[i].data, done, keyOf, hashOf);
        HoldsPrefixStep(was, i, done, keyOf, hashOf);
        done := done[keyOf(slots[i].data) := slots[i].data];
      } else {
        HoldsPrefixStep(was, i, done, keyOf, hashOf);
      }
    }
    assert was[..slots.Length] == was;
    HoldsUnique(was, done, m, keyOf, hashOf);
  }

  // ---------------------------------------------------------------- the table

  class HashTable<K(==, !new), D(==, !new)> {
    ghost const keyOf: D -> K       // what the comparison callbacks compare
    ghost const hashOf: K -> nat    // the hash the clients compute
    var slots: array<Slot<D>>
    var numEntries: nat
    var numDeadEntries: nat
    ghost var contents: map<K, D>

    ghost predicate Valid()
      reads this, slots
    {
      && Reachable(slots[..])
      && Holds(slots[..], contents, keyOf, hashOf)
      && numEntries == CountLive(slots[..]) == |contents|
      && numDeadEntries == CountDead(slots[..])
      && (numEntries + numDeadEntries) * LOAD_DENOM <= slots.Length * LOAD_NUMER
    }

    constructor (initialSize: nat, ghost keyOf: D -> K, ghost hashOf: K -> nat)
      requires 0 < initialSize <= 0x8000_0000
      ensures Valid() && fresh(slots)
      ensures this.keyOf == keyOf && this.hashOf == hashOf
      ensures contents == map[] && slots.Length == RoundUpPower2(initialSize)
      ensures numEntries == numDeadEntries == 0
    {
      this.keyOf, this.hashOf := keyOf, hashOf;
      RoundUpIsLeast(initialSize);
      slots := new Slot<D>[RoundUpPower2(initialSize)](_ => Empty);
      numEntries, numDeadEntries := 0, 0;
      contents := map[];
      new;
      AllEmptyCounts(slots[..]);
    }

    /** Removes every entry; returns the live data handed to the free callback, in slot order. */
    method Clear() returns (freed: seq<D>)
      requires Valid()
      modifies this, slots
      ensures Valid() && contents == map[] && slots == old(slots)
      ensures numEntries == numDeadEntries == 0
      ensures freed == LiveData(old(slots[..]))
    {
      freed := EmptySlots(slots);
      EmptyTable(slots[..], keyOf, hashOf);
      numEntries, numDeadEntries, contents := 0, 0, map[];
    }

    /** Doubling: re-inserts every live entry into twice the space and drops tombstones. */
    method Resize(newSize: nat)
      requires Reachable(slots[..]) && Holds(slots[..], contents, keyOf, hashOf)
      requires numEntries == CountLive(slots[..]) == |contents| && numDeadEntries == CountDead(slots[..])
      requires newSize == 2 * slots.Length && numEntries * LOAD_DENOM <= newSize * LOAD_NUMER
      modifies this
      ensures Valid() && fresh(slots) && slots.Length == newSize
      ensures contents == old(contents) && numEntries == old(numEntries) && numDeadEntries == 0
    {
      DoubleIsValid(slots.Length);
      slots := Rehash(slots, newSize, contents, keyOf, hashOf);
      numDeadEntries := 0;
    }

    /** Stops on the entry with the key, or on the first gap. */
    method ProbeForMatch(itemHash: nat, matches: D -> bool, ghost k: K) returns (idx: nat)
      requires Valid()
      requires itemHash == hashOf(k) && forall d :: matches(d) <==> keyOf(d) == k
      ensures idx < slots.Length && !slots[idx].Tombstone?
      ensures slots[idx].Live? ==> keyOf(slots[idx].data) == k
      ensures slots[idx].Empty? ==> k !in contents && PathIsFull(slots[..], Home(itemHash, slots.Length), idx)
    {
      idx := Probe(slots, itemHash, (s: Slot<D>) => s.Live? && s.hash == itemHash && matches(s.data));
      if slots[idx].Empty? {
        AbsentKey(slots[..], contents, keyOf, hashOf, k, idx);
      }
    }

    /** mzHashTableLookup with doAdd off. `matches` is the comparison callback applied to
        the loose item. */
    method Find(itemHash: nat, matches: D -> bool, ghost k: K) returns (result: Option<D>)
      requires Valid()
      requires itemHash == hashOf(k) && forall d :: matches(d) <==> keyOf(d) == k
      ensures result == if k in contents then Some(contents[k]) else None
    {
      var idx := ProbeForMatch(itemHash, matches, k);
      result := if slots[idx].Empty? then None else Some(slots[idx].data);
    }

    /** Fills the gap that ended the search; the table may have to grow after that. */
    method AddAt(idx: nat, itemHash: nat, item: D)
      requires Valid() && idx < slots.Length && slots[idx].Empty? && keyOf(item) !in contents
      requires itemHash == hashOf(keyOf(item)) && PathIsFull(slots[..], Home(itemHash, slots.Length), idx)
      modifies this`numEntries, this`contents, slots
      ensures Reachable(slots[..]) && Holds(slots[..], contents, keyOf, hashOf)
      ensures numEntries == CountLive(slots[..]) == |contents| && numDeadEntries == CountDead(slots[..])
      ensures contents == old(contents)[keyOf(item) := item] && numEntries == old(numEntries) + 1
    {
      InsertKeepsReachable(slots[..], idx, itemHash, item);
      HoldsInsert(slots[..], contents, keyOf, hashOf, idx, item);
      CountUpdate(slots[..], idx, Live(itemHash, item));
      slots[idx] := Live(itemHash, item);
      assert slots[..] == old(slots[..])[idx := Live(itemHash, item)];
      numEntries := numEntries + 1;
      contents := contents[keyOf(item) := item];
    }

    /** mzHashTableLookup with doAdd on: the entry already there, or else the item itself. */
    method LookupOrAdd(itemHash: nat, item: D, matches: D -> bool, ghost k: K) returns (result: D)
      requires Valid() && keyOf(item) == k
      requires itemHash == hashOf(k) && forall d :: matches(d) <==> keyOf(d) == k
      modifies this, slots
      ensures Valid() && (slots == old(slots) || fresh(slots))
      ensures k in old(contents) ==> result == old(contents)[k] && contents == old(contents)
      ensures k !in old(contents) ==> result == item && contents == old(contents)[k := item]
      ensures old(numEntries + numDeadEntries + 1) * LOAD_DENOM <= old(slots.Length) * LOAD_NUMER
        ==> slots == old(slots) && numDeadEntries == old(numDeadEntries)
      ensures k !in old(contents) ==>
        slots.Length == old(slots.Length) * (if 8 * old(numEntries + numDeadEntries + 1) > 5 * old(slots.Length) then 2 else 1)
    {
      var idx := ProbeForMatch(itemHash, matches, k);
      if slots[idx].Empty? {
        AddAt(idx, itemHash, item);
        if (numEntries + numDeadEntries) * LOAD_DENOM > slots.Length * LOAD_NUMER {
          Resize(slots.Length * 2);
        }
        result := item;
      } else {
        result := slots[idx].data;
      }
    }

    /** Stops on the item itself, or on the first gap. */
    method ProbeForItem(itemHash: nat, item: D) returns (idx: nat)
      requires Valid() && itemHash == hashOf(keyOf(item))
      ensures idx < slots.Length && !slots[idx].Tombstone?
      ensures slots[idx].Live? ==> slots[idx].data == item
      ensures slots[idx].Empty? ==> !(keyOf(item) in contents && contents[keyOf(item)] == item)
    {
      idx := Probe(slots, itemHash, (s: Slot<D>) => s.Live? && s.data == item);
      if slots[idx].Empty? {
        AbsentItem(slots[..], contents, keyOf, hashOf, item, idx);
      }
    }

    /** mzHashTableRemove: finds the item by identity, along the probe path of the hash it
        was added under. */
    method Remove(itemHash: nat, item: D) returns (removed: bool)
      requires Valid() && itemHash == hashOf(keyOf(item))
      modifies this, slots
      ensures Valid() && slots == old(slots)
      ensures removed <==> keyOf(item) in old(contents) && old(contents)[keyOf(item)] == item
      ensures contents == if removed then old(contents) - {keyOf(item)} else old(contents)
    {
      var idx := ProbeForItem(itemHash, item);
      removed := !slots[idx].Empty?;
      if removed {
        HoldsRemove(slots[..], contents, keyOf, hashOf, idx);
        RemoveKeepsReachable(slots[..], idx);
        CountUpdate(slots[..], idx, Tombstone);
        slots[idx] := Tombstone;
        assert slots[..] == old(slots[..])[idx := Tombstone];
        numEntries, numDeadEntries := numEntries - 1, numDeadEntries + 1;
        contents := contents - {keyOf(item)};
      }
    }

    /** mzHashForeach: the callback sees the live data in slot order until it returns
        something other than 0, which is then the result. */
    method Foreach(func: D -> int) returns (val: int)
      requires Valid()
      ensures val == FirstNonZero(LiveData(slots[..]), func)
    {
      ghost var s := slots[..];
      assert LiveData(s[..0]) == [] && FirstNonZero([], func) == 0;
      hide Valid, LiveData, FirstNonZero;
      for i := 0 to slots.Length
        invariant FirstNonZero(LiveData(s[..i]), func) == 0
      {
        LiveDataStep(s, i);
        if slots[i].Live? {
          val := func(slots[i].data);
          FirstNonZeroPush(LiveData(s[..i]), slots[i].data, func);
          if val != 0 {
            LiveDataPrefix(s, i + 1);
            FirstNonZeroStays(LiveData(s[..i+1]), LiveData(s), func);
            return;
          }
        }
      }
      assert s[..slots.Length] == s;
      val := 0;
    }
  }

  lemma LiveDataStep<D>(s: seq<Slot<D>>, i: nat)
    requires i < |s|
    ensures s[i].Live? ==> LiveData(s[..i+1]) == LiveData(s[..i]) + [s[i].data]
    ensures !s[i].Live? ==> LiveData(s[..i+1]) == LiveData(s[..i])
  {
    assert s[..i+1][..i] == s[..i];
  }

  lemma FirstNonZeroPush<D>(ds: seq<D>, d: D, func: D -> int)
    requires FirstNonZero(ds, func) == 0
    ensures FirstNonZero(ds + [d], func) == func(d)
  {
    assert (ds + [d])[..|ds|] == ds;
  }

  /** What a callback first returns other than 0 when it is called for each in turn. */
  function FirstNonZero<D>(ds: seq<D>, func: D -> int): int {
    if ds == [] then 0
    else
      var before := FirstNonZero(ds[..|ds|-1], func);
      if before != 0 then before else func(ds[|ds|-1])
  }

  lemma {:induction false} FirstNonZeroStays<D>(a: seq<D>, b: seq<D>, func: D -> int)
    requires a <= b && FirstNonZero(a, func) != 0
    ensures FirstNonZero(b, func) == FirstNonZero(a, func)
  {
    if |a| < |b| {
      FirstNonZeroStays(a, b[..|b|-1], func);
    } else {
      assert a == b;
    }
  }

  lemma {:induction false} LiveDataPrefix<D>(s: seq<Slot<D>>, n: nat)
    requires n <= |s|
    ensures LiveData(s[..n]) <= LiveData(s)
    decreases |s|
  {
    if n < |s| {
      LiveDataPrefix(s[..|s|-1], n);
      assert s[..|s|-1][..n] == s[..n];
    } else {
      assert s[..n] == s;
    }
  }

  /** The live data are in slot order: each stands behind as many as there are live slots
      before its own. */
  lemma LiveDataInOrder<D>(s: seq<Slot<D>>, i: nat)
    requires i < |s| && s[i].Live?
    ensures CountLive(s[..i]) < |LiveData(s)| && LiveData(s)[CountLive(s[..i])] == s[i].data
  {
    LiveDataCount(s[..i]);
    LiveDataStep(s, i);
    LiveDataPrefix(s, i + 1);
  }

  /** The result of calling back for each in turn: 0 if every call gives that, and otherwise
      what the first call gives that does not. */
  lemma {:induction false} FirstNonZeroIs<D>(ds: seq<D>, func: D -> int)
    ensures var v := FirstNonZero(ds, func);
      if v == 0 then forall i | 0 <= i < |ds| :: func(ds[i]) == 0
      else exists i | 0 <= i < |ds| :: func(ds[i]) == v && forall j | 0 <= j < i :: func(ds[j]) == 0
  {
    if ds != [] {
      var front := ds[..|ds|-1];
      FirstNonZeroIs(front, func);
      if FirstNonZero(front, func) != 0 {
        var i :| 0 <= i < |front| && func(front[i]) == FirstNonZero(front, func) && forall j | 0 <= j < i :: func(front[j]) == 0;
        assert ds[i] == front[i];
        assert forall j | 0 <= j < i :: func(ds[j]) == func(front[j]);
      } else {
        assert forall j | 0 <= j < |front| :: func(ds[j]) == func(front[j]);
      }
    }
  }

  // ---------------------------------------------------------------- whole runs

  datatype Operation<K, D> = Look(key: K) | Add(item: D) | Drop(item: D) | Wipe

  datatype Answer<D> = Found(found: Option<D>) | Added(entry: D) | Dropped(removed: bool) | Wiped

  /** The same operation on a finite map. */
  function OnMap<K, D(==)>(m: map<K, D>, op: Operation<K, D>, keyOf: D -> K): (Answer<D>, map<K, D>) {
    match op
    case Look(k) => (Found(if k in m then Some(m[k]) else None), m)
    case Add(item) =>
      var k := keyOf(item);
      if k in m then (Added(m[k]), m) else (Added(item), m[k := item])
    case Drop(item) =>
      var k := keyOf(item);
      if k in m && m[k] == item then (Dropped(true), m - {k}) else (Dropped(false), m)
    case Wipe => (Wiped, map[])
  }

  /** Answers and final map of a run. */
  function RunOnMap<K, D(==)>(m: map<K, D>, ops: seq<Operation<K, D>>, keyOf: D -> K): (seq<Answer<D>>, map<K, D>) {
    if ops == [] then ([], m)
    else
      var (answers, m1) := RunOnMap(m, ops[..|ops|-1], keyOf);
      var (answer, m2) := OnMap(m1, ops[|ops|-1], keyOf);
      (answers + [answer], m2)
  }

  method Perform<K(==, !new), D(==, !new)>(table: HashTable<K, D>, op: Operation<K, D>, keyOf: D -> K, hashOf: K -> nat)
      returns (answer: Answer<D>)
    requires table.Valid() && table.keyOf == keyOf && table.hashOf == hashOf
    modifies table, table.slots
    ensures table.Valid() && (table.slots == old(table.slots) || fresh(table.slots))
    ensures (answer, table.contents) == OnMap(old(table.contents), op, keyOf)
  {
    hide HashTable.Valid;
    match op
    case Look(k) =>
      var r := table.Find(hashOf(k), (d: D) => keyOf(d) == k, k);
      answer := Found(r);
    case Add(item) =>
      var k := keyOf(item);
      var r := table.LookupOrAdd(hashOf(k), item, (d: D) => keyOf(d) == k, k);
      answer := Added(r);
    case Drop(item) =>
      var r := table.Remove(hashOf(keyOf(item)), item);
      answer := Dropped(r);
    case Wipe =>
      var _ := table.Clear();
      answer := Wiped;
  }

  /** Whatever is done with a table, in whatever order, it answers like a finite map. */
  method PerformAll<K(==, !new), D(==, !new)>(table: HashTable<K, D>, ops: seq<Operation<K, D>>, keyOf: D -> K,
      hashOf: K -> nat)
      returns (answers: seq<Answer<D>>)
    requires table.Valid() && table.keyOf == keyOf && table.hashOf == hashOf
    modifies table, table.slots
    ensures table.Valid()
    ensures (answers, table.contents) == RunOnMap(old(table.contents), ops, keyOf)
  {
    hide HashTable.Valid, OnMap;
    answers := [];
    for i := 0 to |ops|
      invariant table.Valid() && (table.slots == old(table.slots) || fresh(table.slots))
      invariant (answers, table.contents) == RunOnMap(old(table.contents), ops[..i], keyOf)
    {
      assert ops[..i+1][..i] == ops[..i];
      var answer := Perform(table, ops[i], keyOf, hashOf);
      answers := answers + [answer];
    }
    assert ops[..|ops|] == ops;
  }
}
