/** Bitwise operators of C on non-negative values, bit by bit from the low end, and the
    two facts the hash table needs of them: masking with 2^k - 1 is reduction modulo
    2^k, and OR-ing a word with its own right shifts fills it with ones. */
module Words {

  function Pow2(k: nat): (p: nat)
    ensures p > 0
  {
    if k == 0 then 1 else 2 * Pow2(k - 1)
  }

  function Or(a: nat, b: nat): nat {
    if a == 0 && b == 0 then 0
    else (if a % 2 == 1 || b % 2 == 1 then 1 else 0) + 2 * Or(a / 2, b / 2)
  }

  function And(a: nat, b: nat): (r: nat)
    ensures r <= a && r <= b
  {
    if a == 0 || b == 0 then 0
    else (if a % 2 == 1 && b % 2 == 1 then 1 else 0) + 2 * And(a / 2, b / 2)
  }

  function Shr(a: nat, k: nat): nat {
    if k == 0 then a else Shr(a / 2, k - 1)
  }

  /** Number of significant bits. */
  ghost function BitLength(v: nat): nat {
    if v == 0 then 0 else 1 + BitLength(v / 2)
  }

  lemma {:induction false} Pow2Monotone(j: nat, k: nat)
    requires j <= k
    ensures Pow2(j) <= Pow2(k)
  {
    if j < k { Pow2Monotone(j, k - 1); }
  }

  lemma Pow2Of32()
    ensures Pow2(31) == 0x8000_0000 && Pow2(32) == 0x1_0000_0000
  {
    assert Pow2(8) == 256;
    assert Pow2(16) == 65536;
    assert Pow2(24) == 16777216;
  }

  /** x & (2^k - 1) == x % 2^k */
  lemma {:induction false} MaskIsMod(x: nat, k: nat)
    ensures And(x, Pow2(k) - 1) == x % Pow2(k)
  {
    if k == 0 {
      assert And(x, 0) == 0;
      assert Pow2(0) == 1;
    } else if x == 0 {
      assert And(0, Pow2(k) - 1) == 0;
      DivisionUnique(0, Pow2(k), 0, 0);
    } else {
      var m := Pow2(k - 1);
      MaskIsMod(x / 2, k - 1);
      MaskStep(x, m);
      ModHalves(x, m);
      assert Pow2(k) == 2 * m;
      hide And, Pow2;
    }
  }

  /** The low bit of an odd mask passes, the others are masked one place further down. */
  lemma MaskStep(x: nat, m: nat)
    requires x > 0 && m > 0
    ensures And(x, 2 * m - 1) == x % 2 + 2 * And(x / 2, m - 1)
  {
    var mask := 2 * m - 1;
    assert mask / 2 == m - 1 && mask % 2 == 1;
    assert And(x, mask) == (if x % 2 == 1 then 1 else 0) + 2 * And(x / 2, mask / 2);
    hide And;
  }

  lemma ModHalves(x: nat, m: nat)
    requires m > 0
    ensures x % (2 * m) == x % 2 + 2 * ((x / 2) % m)
  {
    var q, r := (x / 2) / m, (x / 2) % m;
    assert x / 2 == m * q + r;
    assert 2 * (m * q) == (2 * m) * q;
    DivisionUnique(x, 2 * m, q, 2 * r + x % 2);
  }

  lemma MulAtLeast(d: nat, n: int)
    requires n >= 1
    ensures d * n >= d
  {
  }

  lemma DivisionUnique(x: nat, d: nat, q: nat, r: nat)
    requires d > 0 && r < d && x == d * q + r
    ensures x % d == r
  {
    var q', r' := x / d, x % d;
    assert x == d * q' + r' && 0 <= r' < d;
    if q > q' {
      MulAtLeast(d, q - q');
      assert false;
    }
    if q < q' {
      MulAtLeast(d, q' - q);
      assert false;
    }
  }

  // ---------------------------------------------------------------- smearing

  /** The top `c` significant bits of v are all ones. */
  ghost predicate TopOnes(v: nat, c: nat)
    decreases v
  {
    if BitLength(v) <= c then v == Pow2(BitLength(v)) - 1
    else TopOnes(v / 2, c)
  }

  lemma {:induction false} TopBitIsOne(v: nat)
    ensures TopOnes(v, 1)
  {
    if BitLength(v) > 1 {
      TopBitIsOne(v / 2);
    } else if v > 0 {
      assert BitLength(v / 2) == 0;
      assert v / 2 == 0;
      assert Pow2(1) == 2;
    }
  }

  lemma {:induction false} OrZero(v: nat)
    ensures Or(v, 0) == v
  {
    if v > 0 { OrZero(v / 2); }
  }

  lemma {:induction false} ShrOfOnes(n: nat, k: nat)
    ensures Shr(Pow2(n) - 1, k) == if k >= n then 0 else Pow2(n - k) - 1
    decreases k
  {
    if k > 0 {
      if n == 0 {
        ShrOfOnes(0, k - 1);
      } else {
        assert (Pow2(n) - 1) / 2 == Pow2(n - 1) - 1;
        ShrOfOnes(n - 1, k - 1);
      }
    }
  }

  lemma {:induction false} ShrHalves(v: nat, k: nat)
    ensures Shr(v, k) / 2 == Shr(v / 2, k) == Shr(v, k + 1)
  {
    if k > 0 { ShrHalves(v / 2, k - 1); }
  }

  /** The low m bits of v come from the second operand, the n bits above from the first. */
  lemma {:induction false} OrFills(v: nat, m: nat, n: nat)
    requires Shr(v, m) == Pow2(n) - 1
    ensures Or(v, Pow2(m) - 1) == Pow2(m + n) - 1
    decreases m
  {
    if m == 0 {
      OrZero(v);
    } else {
      OrFills(v / 2, m - 1, n);
      assert (Pow2(m) - 1) / 2 == Pow2(m - 1) - 1;
    }
  }

  /** Dropping low bits down to exactly c leaves c ones. */
  lemma {:induction false} TopOnesShr(v: nat, c: nat)
    requires TopOnes(v, c) && BitLength(v) >= c
    ensures Shr(v, BitLength(v) - c) == Pow2(c) - 1
    decreases v
  {
    var l := BitLength(v);
    if l > c {
      TopOnesShr(v / 2, c);
      assert Shr(v, l - c) == Shr(v / 2, l - 1 - c);
      hide Shr, TopOnes, Pow2;
    } else {
      assert Shr(v, 0) == v;
      hide Shr, Pow2;
    }
  }

  lemma {:induction false} TopOnesShrWhole(v: nat, c: nat)
    requires TopOnes(v, c) && c <= BitLength(v) <= 2 * c
    ensures Shr(v, c) == Pow2(BitLength(v) - c) - 1
  {
    hide BitLength, TopOnes, Shr;
    var l := BitLength(v);
    TopOnesShr(v, c);
    ShrOfOnes(c, 2 * c - l);
    ShrAdds(v, l - c, 2 * c - l);
  }

  lemma {:induction false} ShrAdds(v: nat, j: nat, k: nat)
    ensures Shr(Shr(v, j), k) == Shr(v, j + k)
    decreases j
  {
    if j > 0 { ShrAdds(v / 2, j - 1, k); }
  }

  lemma {:induction false} BitLengthOfOnes(n: nat)
    ensures BitLength(Pow2(n) - 1) == n
  {
    if n > 0 {
      assert (Pow2(n) - 1) / 2 == Pow2(n - 1) - 1;
      BitLengthOfOnes(n - 1);
    }
  }

  lemma SmearOfOnes(v: nat, c: nat)
    requires TopOnes(v, c) && BitLength(v) <= c
    ensures Or(v, Shr(v, c)) == v == Pow2(BitLength(v)) - 1
  {
    ShrOfOnes(BitLength(v), c);
    OrZero(v);
  }

  lemma SmearFills(v: nat, c: nat)
    requires TopOnes(v, c) && c <= BitLength(v) <= 2 * c
    ensures Or(v, Shr(v, c)) == Pow2(BitLength(v)) - 1
  {
    hide *;
    TopOnesShrWhole(v, c);
    TopOnesShr(v, c);
    OrFills(v, BitLength(v) - c, c);
  }

  /** One smearing step doubles the run of leading ones and keeps the length. */
  lemma {:induction false} Smear(v: nat, c: nat)
    requires c > 0 && TopOnes(v, c)
    ensures TopOnes(Or(v, Shr(v, c)), 2 * c)
    ensures BitLength(Or(v, Shr(v, c))) == BitLength(v)
    decreases v
  {
    var l, o := BitLength(v), Or(v, Shr(v, c));
    if l <= 2 * c {
      if l <= c { SmearOfOnes(v, c); } else { SmearFills(v, c); }
      BitLengthOfOnes(l);
    } else {
      assert TopOnes(v / 2, c);
      Smear(v / 2, c);
      ShrHalves(v, c);
      assert o / 2 == Or(v / 2, Shr(v / 2, c));
      assert o > 0;
      assert BitLength(o) == 1 + BitLength(o / 2);
    }
  }

  lemma {:induction false} BitLengthBounds(v: nat)
    ensures v < Pow2(BitLength(v))
    ensures v > 0 ==> Pow2(BitLength(v) - 1) <= v
  {
    if v > 1 { BitLengthBounds(v / 2); }
    if v == 1 { assert BitLength(0) == 0; assert Pow2(1) == 2; }
  }
}
