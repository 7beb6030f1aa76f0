/** The function table of edify/expr.c: an array that grows as functions are registered,
    sorted once, and then searched by halving. */
module FunctionTables {
  import opened Wrappers  // Option
  import opened Bytes
  import opened ZipNames  // names compared as strings

  // A name is a C string; a function is known by its number.
  datatype NamedFunction = NamedFunction(name: seq<byte>, fn: nat)

  ghost predicate Sorted(t: seq<NamedFunction>) {
    forall i, j | 0 <= i < j < |t| :: LexLe(t[i].name, t[j].name)
  }

  ghost predicate CNames(t: seq<NamedFunction>) {
    forall i | 0 <= i < |t| :: NoNul(t[i].name)
  }

  ghost predicate DistinctNames(t: seq<NamedFunction>) {
    forall i, j | 0 <= i < j < |t| :: t[i].name != t[j].name
  }

  // ---------------------------------------------------------------- sorting

  function Place(t: seq<NamedFunction>, f: NamedFunction): (k: nat)
    ensures k <= |t|
    ensures forall i | 0 <= i < k :: LexLe(t[i].name, f.name)
    ensures k < |t| ==> !LexLe(t[k].name, f.name)
  {
    if t == [] || !LexLe(t[0].name, f.name) then 0
    else
      var k := Place(t[1..], f);
      assert forall i | 1 <= i < 1 + k :: t[i] == t[1..][i - 1];
      1 + k
  }

  /** A sorted arrangement, as qsort leaves it. */
  function Arranged(t: seq<NamedFunction>): seq<NamedFunction> {
    if t == [] then []
    else
      var front, last := Arranged(t[..|t|-1]), t[|t|-1];
      front[..Place(front, last)] + [last] + front[Place(front, last)..]
  }

  lemma {:induction false} LexLeTotal(a: seq<byte>, b: seq<byte>)
    ensures LexLe(a, b) || LexLe(b, a)
  {
    if a != [] && b != [] && a[0] == b[0] { LexLeTotal(a[1..], b[1..]); }
  }

  lemma InsertedIsSorted(t: seq<NamedFunction>, k: nat, f: NamedFunction)
    requires Sorted(t) && k <= |t|
    requires forall i | 0 <= i < k :: LexLe(t[i].name, f.name)
    requires forall i | k <= i < |t| :: LexLe(f.name, t[i].name)
    ensures Sorted(t[..k] + [f] + t[k..]) && multiset(t[..k] + [f] + t[k..]) == multiset(t) + multiset{f}
  {
    hide LexLe;
    assert t == t[..k] + t[k..];
  }

  lemma PlaceSplits(t: seq<NamedFunction>, f: NamedFunction)
    requires Sorted(t)
    ensures forall i | Place(t, f) <= i < |t| :: LexLe(f.name, t[i].name)
  {
    var k := Place(t, f);
    hide LexLe;
    forall i | k <= i < |t| ensures LexLe(f.name, t[i].name) {
      LexLeTotal(t[k].name, f.name);
      if k < i { LexLeTransitive(f.name, t[k].name, t[i].name); }
    }
  }

  lemma {:induction false} ArrangedIsSorted(t: seq<NamedFunction>)
    ensures Sorted(Arranged(t)) && multiset(Arranged(t)) == multiset(t) && |Arranged(t)| == |t|
  {
    if t != [] {
      var front, last := Arranged(t[..|t|-1]), t[|t|-1];
      ArrangedIsSorted(t[..|t|-1]);
      PlaceSplits(front, last);
      InsertedIsSorted(front, Place(front, last), last);
      assert t == t[..|t|-1] + [last];
      hide Sorted, LexLe, Place;
    }
  }

  // ---------------------------------------------------------------- searching

  /** The function first registered under a name, found the slow way. */
  function LinearSearch(t: seq<NamedFunction>, name: seq<byte>): Option<nat> {
    if t == [] then None
    else
      match LinearSearch(t[..|t|-1], name)
      case Some(fn) => Some(fn)
      case None => if t[|t|-1].name == name then Some(t[|t|-1].fn) else None
  }

  ghost predicate Finds(t: seq<NamedFunction>, name: seq<byte>, r: Option<nat>) {
    if r.None? then forall i | 0 <= i < |t| :: t[i].name != name
    else NamedFunction(name, r.value) in t
  }

  lemma {:induction false} LinearSearchFinds(t: seq<NamedFunction>, name: seq<byte>)
    ensures Finds(t, name, LinearSearch(t, name))
  {
    if t != [] {
      LinearSearchFinds(t[..|t|-1], name);
      assert t == t[..|t|-1] + [t[|t|-1]];
    }
  }

  /** With distinct names there is only one answer, in whatever order the table is. */
  lemma OneAnswer(a: seq<NamedFunction>, b: seq<NamedFunction>, name: seq<byte>, r: Option<nat>)
    requires multiset(a) == multiset(b) && DistinctNames(a) && Finds(b, name, r)
    ensures r == LinearSearch(a, name)
  {
    LinearSearchFinds(a, name);
    forall f | f in a ensures f in b { assert f in multiset(a); }
    forall f | f in b ensures f in a { assert f in multiset(b); }
  }

  class FunctionTable {
    var table: array<NamedFunction>
    var entries: nat
    ghost var registered: seq<NamedFunction>  // in order of registration

    ghost predicate Valid()
      reads this, table
    {
      && entries <= table.Length && CNames(table[..entries])
      && multiset(table[..entries]) == multiset(registered)
    }

    constructor ()
      ensures Valid() && registered == [] && entries == 0 && fresh(table)
    {
      table, entries, registered := new NamedFunction[0], 0, [];
    }

    /** RegisterFunction */
    method Register(name: seq<byte>, fn: nat)
      requires Valid() && NoNul(name)
      modifies this, table
      ensures Valid() && registered == old(registered) + [NamedFunction(name, fn)]
      ensures table == old(table) || fresh(table)
    {
      ghost var before := table[..entries];
      if entries >= table.Length {
        var larger := new NamedFunction[table.Length * 2 + 1](_ => NamedFunction([], 0));
        forall i | 0 <= i < entries { larger[i] := table[i]; }
        table := larger;
      }
      table[entries] := NamedFunction(name, fn);
      entries := entries + 1;
      registered := registered + [NamedFunction(name, fn)];
      assert table[..entries] == before + [NamedFunction(name, fn)];
    }

    /** FinishRegistration: the same functions, sorted by name. */
    method FinishRegistration()
      requires Valid()
      modifies table
      ensures Valid() && Sorted(table[..entries]) && entries == old(entries) && table == old(table)
      ensures multiset(table[..entries]) == multiset(old(table[..entries]))
    {
      var sorted := Arranged(table[..entries]);
      ArrangedIsSorted(table[..entries]);
      forall i | 0 <= i < entries ensures NoNul(sorted[i].name) {
        assert sorted[i] in multiset(sorted);
        assert sorted[i] in table[..entries];
      }
      forall i | 0 <= i < entries { table[i] := sorted[i]; }
      assert table[..entries] == sorted;
    }

    /** FindFunction: halving the sorted table finds what a search through the registered
        functions finds, if no name was registered twice. */
    method FindFunction(name: seq<byte>) returns (r: Option<nat>)
      requires Valid() && Sorted(table[..entries]) && NoNul(name)
      ensures Finds(table[..entries], name, r)
      ensures DistinctNames(registered) ==> r == LinearSearch(registered, name)
    {
      ghost var t := table[..entries];
      var low, high := 0, entries;
      r := None;
      while low < high
        invariant 0 <= low <= high <= entries
        invariant forall i | 0 <= i < low :: t[i].name != name
        invariant forall i | high <= i < entries :: t[i].name != name
      {
        var mid := (low + high) / 2;
        CompareIsLex(name, t[mid].name);
        var diff := CompareNames(name, table[mid].name);
        if diff == 0 {
          LexLeAntisymmetric(name, t[mid].name);
          r := Some(table[mid].fn);
          assert t[mid] == NamedFunction(name, r.value);
          break;
        } else if diff < 0 {
          NotAbove(t, mid, name);
          high := mid;
        } else {
          NotBelow(t, mid, name);
          low := mid + 1;
        }
      }
      if DistinctNames(registered) { OneAnswer(registered, t, name, r); }
    }
  }

  lemma NotAbove(t: seq<NamedFunction>, mid: nat, name: seq<byte>)
    requires Sorted(t) && mid < |t| && !LexLe(t[mid].name, name)
    ensures forall i | mid <= i < |t| :: t[i].name != name
  {
    LexLeReflexive(name);
    hide LexLe;
  }

  lemma NotBelow(t: seq<NamedFunction>, mid: nat, name: seq<byte>)
    requires Sorted(t) && mid < |t| && !LexLe(name, t[mid].name)
    ensures forall i | 0 <= i <= mid :: t[i].name != name
  {
    LexLeReflexive(name);
    hide LexLe;
  }
}
