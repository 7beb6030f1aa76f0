/** strtok of the C library: the pieces between separators, empty ones left out. */
module Strtok {
  import opened Wrappers  // Option

  ghost predicate NoneOf<T(!new)>(s: seq<T>, isSeparator: T -> bool) {
    forall i | 0 <= i < |s| :: !isSeparator(s[i])
  }

  function PieceLength<T(!new)>(s: seq<T>, isSeparator: T -> bool): (n: nat)
    ensures n <= |s| && NoneOf(s[..n], isSeparator) && (n < |s| ==> isSeparator(s[n]))
  {
    if s == [] || isSeparator(s[0]) then 0
    else
      var n := PieceLength(s[1..], isSeparator);
      assert s[..n + 1] == [s[0]] + s[1..][..n];
      n + 1
  }

  function Split<T(!new)>(s: seq<T>, isSeparator: T -> bool): seq<seq<T>> {
    if s == [] then []
    else if isSeparator(s[0]) then Split(s[1..], isSeparator)
    else
      var n := PieceLength(s, isSeparator);
      [s[..n]] + Split(s[n..], isSeparator)
  }

  lemma {:induction false} PieceAlone<T(!new)>(a: seq<T>, rest: seq<T>, isSeparator: T -> bool)
    requires NoneOf(a, isSeparator) && (rest == [] || isSeparator(rest[0]))
    ensures PieceLength(a + rest, isSeparator) == |a|
  {
    if a == [] {
      assert a + rest == rest;
    } else {
      assert (a + rest)[1..] == a[1..] + rest;
      assert (a + rest)[0] == a[0];
      PieceAlone(a[1..], rest, isSeparator);
    }
  }

  lemma FirstPiece<T(!new)>(a: seq<T>, rest: seq<T>, isSeparator: T -> bool)
    requires a != [] && NoneOf(a, isSeparator) && (rest == [] || isSeparator(rest[0]))
    ensures Split(a + rest, isSeparator) == [a] + Split(rest, isSeparator)
  {
    PieceAlone(a, rest, isSeparator);
    assert (a + rest)[0] == a[0];
    assert (a + rest)[..|a|] == a && (a + rest)[|a|..] == rest;
  }

  lemma SkipSeparator<T(!new)>(s: seq<T>, at: nat, isSeparator: T -> bool)
    requires at < |s| && isSeparator(s[at])
    ensures Split(s[at..], isSeparator) == Split(s[at + 1..], isSeparator)
  {
    assert s[at..][1..] == s[at + 1..];
  }

  lemma PieceAt<T(!new)>(s: seq<T>, start: nat, next: nat, isSeparator: T -> bool)
    requires start < next <= |s| && NoneOf(s[start..next], isSeparator) && (next < |s| ==> isSeparator(s[next]))
    ensures Split(s[start..], isSeparator) == [s[start..next]] + Split(s[next..], isSeparator)
  {
    assert s[start..] == s[start..next] + s[next..];
    FirstPiece(s[start..next], s[next..], isSeparator);
  }

  /** The next piece from a cursor on. */
  method NextPiece<T(!new)>(s: seq<T>, pos: nat, isSeparator: T -> bool) returns (piece: Option<seq<T>>, next: nat)
    requires pos <= |s|
    ensures pos <= next <= |s|
    ensures piece.None? ==> Split(s[pos..], isSeparator) == [] && next == |s|
    ensures piece.Some? ==> Split(s[pos..], isSeparator) == [piece.value] + Split(s[next..], isSeparator) && next > pos
  {
    hide Split, PieceLength;
    var start := pos;
    while start < |s| && isSeparator(s[start])
      invariant pos <= start <= |s| && Split(s[pos..], isSeparator) == Split(s[start..], isSeparator)
    {
      SkipSeparator(s, start, isSeparator);
      start := start + 1;
    }
    if start == |s| {
      NothingLeft(s[start..], isSeparator);
      return None, start;
    }
    next := start;
    while next < |s| && !isSeparator(s[next])
      invariant start <= next <= |s| && NoneOf(s[start..next], isSeparator)
    {
      assert s[start..next + 1] == s[start..next] + [s[next]];
      next := next + 1;
    }
    piece := Some(s[start..next]);
    PieceAt(s, start, next, isSeparator);
  }

  lemma NothingLeft<T(!new)>(s: seq<T>, isSeparator: T -> bool)
    requires s == []
    ensures Split(s, isSeparator) == []
  {
  }
}
