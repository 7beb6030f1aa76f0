/** Entry names of a zip archive and their order: plain byte order with a shorter name
    before its extensions, as computed by the comparison inside the central directory
    parser (minzip/Zip.c). */
module ZipNames {

  import opened Bytes

  function Min(a: nat, b: nat): nat { if a < b then a else b }

  /** strncmp over n bytes that both names have; stops at a NUL. */
  function Strncmp(a: seq<byte>, b: seq<byte>, n: nat): int
    requires n <= |a| && n <= |b|
  {
    if n == 0 then 0
    else if a[0] != b[0] then a[0] as int - b[0] as int
    else if a[0] == 0 then 0
    else Strncmp(a[1..], b[1..], n - 1)
  }

  /** The comparison of the binary search: common length first, then the lengths. */
  function CompareNames(a: seq<byte>, b: seq<byte>): int {
    var diff := Strncmp(a, b, Min(|a|, |b|));
    if diff == 0 then |a| - |b| else diff
  }

  /** Lexicographic order, prefixes first. */
  predicate LexLe(a: seq<byte>, b: seq<byte>) {
    a == [] || (b != [] && (a[0] < b[0] || (a[0] == b[0] && LexLe(a[1..], b[1..]))))
  }

  predicate NoNul(a: seq<byte>) {
    forall i | 0 <= i < |a| :: a[i] != 0
  }

  lemma {:induction false} LexLeReflexive(a: seq<byte>)
    ensures LexLe(a, a)
  {
    if a != [] { LexLeReflexive(a[1..]); }
  }

  lemma {:induction false} LexLeTransitive(a: seq<byte>, b: seq<byte>, c: seq<byte>)
    requires LexLe(a, b) && LexLe(b, c)
    ensures LexLe(a, c)
  {
    if a != [] && a[0] == b[0] == c[0] { LexLeTransitive(a[1..], b[1..], c[1..]); }
  }

  lemma {:induction false} LexLeAntisymmetric(a: seq<byte>, b: seq<byte>)
    requires LexLe(a, b) && LexLe(b, a)
    ensures a == b
  {
    if a != [] {
      LexLeAntisymmetric(a[1..], b[1..]);
      assert a == [a[0]] + a[1..] && b == [b[0]] + b[1..];
    }
  }

  /** On names without NUL the sign of the comparison is the lexicographic order. */
  lemma {:induction false} CompareIsLex(a: seq<byte>, b: seq<byte>)
    requires NoNul(a) && NoNul(b)
    ensures CompareNames(a, b) <= 0 <==> LexLe(a, b)
    ensures CompareNames(a, b) >= 0 <==> LexLe(b, a)
  {
    if a != [] && b != [] && a[0] == b[0] {
      CompareIsLex(a[1..], b[1..]);
      assert Strncmp(a, b, Min(|a|, |b|)) == Strncmp(a[1..], b[1..], Min(|a[1..]|, |b[1..]|));
    }
  }

  /** Names that begin with p form an interval of the order. */
  lemma {:induction false} PrefixIsConvex(p: seq<byte>, a: seq<byte>, b: seq<byte>, c: seq<byte>)
    requires LexLe(a, b) && LexLe(b, c) && p <= a && p <= c
    ensures p <= b
  {
    if p != [] {
      assert a[0] == b[0] == c[0] == p[0];
      PrefixIsConvex(p[1..], a[1..], b[1..], c[1..]);
      assert b == [b[0]] + b[1..] && p == [p[0]] + p[1..];
    }
  }
}
