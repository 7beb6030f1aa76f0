/** edify/expr.c: evaluation of update scripts. A value is NULL when evaluation has
    failed; functions of the application are leaves with arbitrary effects on a world. */
module Edify {
  import opened Wrappers  // Option

  datatype Value = Str(text: string) | Blob(data: string)

  datatype Fn =
    | Literal | Concat | IfElse | Abort | Assert | And | Or | Not
    | Substring | Equality | Inequality | Sequence | LessThanInt | GreaterThanInt
    | Leaf

  // `source` is the text of the expression in the script, `start` where it begins there.
  datatype Expr = Expr(fn: Fn, name: string, argv: seq<Expr>, source: string, start: nat)

  // One leaf called, by its place in the script, and whether it returned NULL.
  datatype Called = Called(start: nat, isNull: bool)

  datatype State<W> = State(world: W, errmsg: Option<string>, trace: seq<Called>)

  datatype Library<!W> = Library(
    leaf: (string, W, Option<string>) -> (Option<Value>, W, Option<string>),
    number: string -> Option<int>)  // what strtol makes of a whole string

  const EXPECTING_STRING := "expecting string, got value type 2"
  const IFELSE_ARGS := "ifelse expects 2 or 3 arguments"
  const LESS_THAN_ARGS := "less_than_int expects 2 arguments"
  const GREATER_THAN_ARGS := "greater_than_int expects 2 arguments"
  const CALLED_ABORT := "called abort()"
  const ASSERT_FAILED := "assert failed: "

  /** What the functions that do not count their arguments rely on. */
  predicate WellFormed(e: Expr) {
    && (e.fn.And? || e.fn.Or? || e.fn.Substring? || e.fn.Equality? || e.fn.Inequality? || e.fn.Sequence? ==> |e.argv| >= 2)
    && (e.fn.Not? ==> |e.argv| >= 1)
    && forall i | 0 <= i < |e.argv| :: WellFormed(e.argv[i])
  }

  function Truth(b: bool): Option<Value> { Some(Str(if b then "t" else "")) }

  predicate Contains(haystack: string, needle: string) {
    exists i | 0 <= i <= |haystack| :: needle <= haystack[i..]
  }

  function Join(strings: seq<string>): string {
    if strings == [] then "" else Join(strings[..|strings|-1]) + strings[|strings|-1]
  }

  function Less(lib: Library, left: string, right: string): bool {
    lib.number(left).Some? && lib.number(right).Some? && lib.number(left).value < lib.number(right).value
  }

  // ---------------------------------------------------------------- meaning

  /** EvaluateValue */
  function Eval<W>(lib: Library<W>, e: Expr, s: State<W>): (Option<Value>, State<W>)
    requires WellFormed(e)
    decreases e, 1, 0
  {
    match e.fn
    case Literal => (Some(Str(e.name)), s)
    case Leaf =>
      var (v, world, errmsg) := lib.leaf(e.name, s.world, s.errmsg);
      (v, State(world, errmsg, s.trace + [Called(e.start, v.None?)]))
    case Concat =>
      var (all, s1) := EvalStrings(lib, e, |e.argv|, s);
      (if all.None? then None else Some(Str(Join(all.value))), s1)
    case IfElse =>
      if |e.argv| != 2 && |e.argv| != 3 then (None, s.(errmsg := Some(IFELSE_ARGS)))
      else
        var (cond, s1) := EvalString(lib, e.argv[0], s);
        if cond.None? then (None, s1)
        else if cond.value != "" then Eval(lib, e.argv[1], s1)
        else if |e.argv| == 3 then Eval(lib, e.argv[2], s1)
        else (Some(Str(cond.value)), s1)
    case Abort =>
      var (msg, s1) := if e.argv == [] then (None, s) else EvalString(lib, e.argv[0], s);
      (None, s1.(errmsg := Some(if msg.Some? then msg.value else CALLED_ABORT)))
    case Assert =>
      var (ok, s1) := EvalAssertions(lib, e, |e.argv|, s);
      (if ok then Some(Str("")) else None, s1)
    case And =>
      var (left, s1) := EvalString(lib, e.argv[0], s);
      if left.None? then (None, s1)
      else if left.value != "" then Eval(lib, e.argv[1], s1)
      else (Some(Str(left.value)), s1)
    case Or =>
      var (left, s1) := EvalString(lib, e.argv[0], s);
      if left.None? then (None, s1)
      else if left.value == "" then Eval(lib, e.argv[1], s1)
      else (Some(Str(left.value)), s1)
    case Not =>
      var (val, s1) := EvalString(lib, e.argv[0], s);
      (if val.None? then None else Truth(val.value == ""), s1)
    case Sequence =>
      var (left, s1) := Eval(lib, e.argv[0], s);
      if left.None? then (None, s1) else Eval(lib, e.argv[1], s1)
    case Substring =>
      var (both, s1) := EvalStrings(lib, e, 2, s);
      (if both.None? then None else Truth(Contains(both.value[1], both.value[0])), s1)
    case Equality =>
      var (both, s1) := EvalStrings(lib, e, 2, s);
      (if both.None? then None else Truth(both.value[0] == both.value[1]), s1)
    case Inequality =>
      var (both, s1) := EvalStrings(lib, e, 2, s);
      (if both.None? then None else Truth(both.value[0] != both.value[1]), s1)
    case LessThanInt =>
      if |e.argv| != 2 then (None, s.(errmsg := Some(LESS_THAN_ARGS)))
      else
        var (both, s1) := EvalStrings(lib, e, 2, s);
        (if both.None? then None else Truth(Less(lib, both.value[0], both.value[1])), s1)
    case GreaterThanInt =>
      if |e.argv| != 2 then (None, s.(errmsg := Some(GREATER_THAN_ARGS)))
      else
        // the arguments change places before they are evaluated
        var (right, s1) := EvalString(lib, e.argv[1], s);
        if right.None? then (None, s1)
        else
          var (left, s2) := EvalString(lib, e.argv[0], s1);
          (if left.None? then None else Truth(Less(lib, right.value, left.value)), s2)
  }

  /** Evaluate: only a string will do. */
  function EvalString<W>(lib: Library<W>, e: Expr, s: State<W>): (Option<string>, State<W>)
    requires WellFormed(e)
    decreases e, 2, 0
  {
    var (v, s1) := Eval(lib, e, s);
    match v
    case None => (None, s1)
    case Some(Str(text)) => (Some(text), s1)
    case Some(Blob(_)) => (None, s1.(errmsg := Some(EXPECTING_STRING)))
  }

  /** The first n arguments, from the left, up to the first that fails. */
  function EvalStrings<W>(lib: Library<W>, e: Expr, n: nat, s: State<W>): (r: (Option<seq<string>>, State<W>))
    requires WellFormed(e) && n <= |e.argv|
    ensures r.0.Some? ==> |r.0.value| == n
    decreases e, 0, n
  {
    if n == 0 then (Some([]), s)
    else
      var (before, s1) := EvalStrings(lib, e, n - 1, s);
      if before.None? then (None, s1)
      else
        var (last, s2) := EvalString(lib, e.argv[n - 1], s1);
        (if last.None? then None else Some(before.value + [last.value]), s2)
  }

  function EvalAssertions<W>(lib: Library<W>, e: Expr, n: nat, s: State<W>): (bool, State<W>)
    requires WellFormed(e) && n <= |e.argv|
    decreases e, 0, n
  {
    if n == 0 then (true, s)
    else
      var (ok, s1) := EvalAssertions(lib, e, n - 1, s);
      if !ok then (false, s1)
      else
        var (v, s2) := EvalString(lib, e.argv[n - 1], s1);
        if v.None? then (false, s2)
        else if v.value == "" then (false, s2.(errmsg := Some(ASSERT_FAILED + e.argv[n - 1].source)))
        else (true, s2)
  }

  // ---------------------------------------------------------------- order of evaluation

  /** The places of an expression's leaves in the order in which they may be called. */
  function Order(e: Expr): seq<nat>
    decreases e, 1, 0
  {
    if e.fn.Leaf? then [e.start]
    else if e.fn.GreaterThanInt? && |e.argv| == 2 then Order(e.argv[1]) + Order(e.argv[0])
    else OrderOf(e, |e.argv|)
  }

  function OrderOf(e: Expr, n: nat): seq<nat>
    requires n <= |e.argv|
    decreases e, 0, n
  {
    if n == 0 then [] else OrderOf(e, n - 1) + Order(e.argv[n - 1])
  }

  /** a can be had from b by leaving elements out. */
  ghost predicate Subsequence(a: seq<nat>, b: seq<nat>) {
    a == [] || (b != [] && (Subsequence(a, b[..|b|-1]) || (a[|a|-1] == b[|b|-1] && Subsequence(a[..|a|-1], b[..|b|-1]))))
  }

  lemma {:induction false} SubsequenceLonger(a: seq<nat>, b: seq<nat>, c: seq<nat>)
    requires Subsequence(a, b)
    ensures Subsequence(a, b + c)
  {
    if c == [] {
      assert b + c == b;
    } else {
      assert (b + c)[..|b + c| - 1] == b + c[..|c|-1];
      SubsequenceLonger(a, b, c[..|c|-1]);
    }
  }

  lemma {:induction false} SubsequenceAppend(a: seq<nat>, b: seq<nat>, c: seq<nat>, d: seq<nat>)
    requires Subsequence(a, b) && Subsequence(c, d)
    ensures Subsequence(a + c, b + d)
    decreases |d|
  {
    if c == [] {
      assert a + c == a;
      SubsequenceLonger(a, b, d);
    } else {
      assert (a + c)[..|a + c| - 1] == a + c[..|c|-1];
      assert (b + d)[..|b + d| - 1] == b + d[..|d|-1];
      if Subsequence(c, d[..|d|-1]) {
        SubsequenceAppend(a, b, c, d[..|d|-1]);
      } else {
        SubsequenceAppend(a, b, c[..|c|-1], d[..|d|-1]);
      }
    }
  }

  function Places(t: seq<Called>): seq<nat> {
    if t == [] then [] else Places(t[..|t|-1]) + [t[|t|-1].start]
  }

  lemma {:induction false} PlacesAppend(a: seq<Called>, b: seq<Called>)
    ensures Places(a + b) == Places(a) + Places(b)
  {
    if b == [] {
      assert a + b == a;
    } else {
      assert (a + b)[..|a + b| - 1] == a + b[..|b|-1];
      PlacesAppend(a, b[..|b|-1]);
    }
  }

  /** The calls between two states are some of these leaves in this order, and nothing was
      called after one that returned NULL. */
  ghost predicate Ordered(before: seq<Called>, after: seq<Called>, order: seq<nat>, failed: bool) {
    before <= after &&
    var calls := after[|before|..];
    && Subsequence(Places(calls), order)
    && (forall i | 0 <= i < |calls| :: calls[i].isNull ==> i == |calls| - 1 && failed)
  }

  lemma OrderedNothing(t: seq<Called>, order: seq<nat>, failed: bool)
    ensures Ordered(t, t, order, failed)
  {
    assert t[|t|..] == [];
  }

  lemma OrderedLeaf(t: seq<Called>, c: Called)
    ensures Ordered(t, t + [c], [c.start], c.isNull)
  {
    assert (t + [c])[|t|..] == [c];
    assert [c][..0] == [];
    assert Places([c]) == [c.start];
    assert [c.start][..0] == [];
  }

  lemma OrderedThen(t0: seq<Called>, t1: seq<Called>, t2: seq<Called>, o1: seq<nat>, o2: seq<nat>, failed: bool)
    requires Ordered(t0, t1, o1, false) && Ordered(t1, t2, o2, failed)
    ensures Ordered(t0, t2, o1 + o2, failed)
  {
    var a, b := t1[|t0|..], t2[|t1|..];
    assert t2[|t0|..] == a + b;
    PlacesAppend(a, b);
    SubsequenceAppend(Places(a), o1, Places(b), o2);
  }

  lemma OrderedSkip(t0: seq<Called>, t1: seq<Called>, o1: seq<nat>, o2: seq<nat>, failed: bool)
    requires Ordered(t0, t1, o1, failed)
    ensures Ordered(t0, t1, o1 + o2, failed)
  {
    SubsequenceLonger(Places(t1[|t0|..]), o1, o2);
  }

  lemma {:induction false} OrderOfLonger(e: Expr, n: nat, m: nat, t0: seq<Called>, t1: seq<Called>, failed: bool)
    requires n <= m <= |e.argv| && Ordered(t0, t1, OrderOf(e, n), failed)
    ensures Ordered(t0, t1, OrderOf(e, m), failed)
    decreases m
  {
    if n < m {
      OrderOfLonger(e, n, m - 1, t0, t1, failed);
      hide Ordered;
      OrderedSkip(t0, t1, OrderOf(e, m - 1), Order(e.argv[m - 1]), failed);
    }
  }

  lemma OrderOfTwo(e: Expr)
    ensures OrderOf(e, 0) == []
    ensures |e.argv| >= 1 ==> OrderOf(e, 1) == Order(e.argv[0])
    ensures |e.argv| >= 2 ==> OrderOf(e, 2) == Order(e.argv[0]) + Order(e.argv[1])
    ensures |e.argv| >= 3 ==> OrderOf(e, 3) == OrderOf(e, 2) + Order(e.argv[2])
  {
  }

  /** Evaluation calls leaves from the left (greater_than_int from the right), and nothing
      after a NULL. */
  lemma {:induction false} EvalInOrder<W>(lib: Library<W>, e: Expr, s: State<W>)
    requires WellFormed(e)
    ensures Ordered(s.trace, Eval(lib, e, s).1.trace, Order(e), Eval(lib, e, s).0.None?)
    decreases e, 1, 0
  {
    hide Ordered, Order, OrderOf;
    OrderOfTwo(e);
    OrderNow(e);
    var n, r := |e.argv|, Eval(lib, e, s);
    OrderedNothing(s.trace, OrderOf(e, n), true);
    OrderedNothing(s.trace, OrderOf(e, n), false);
    match e.fn
    case Literal =>
    case Leaf =>
      var (v, world, errmsg) := lib.leaf(e.name, s.world, s.errmsg);
      OrderedLeaf(s.trace, Called(e.start, v.None?));
    case Concat => StringsInOrder(lib, e, n, s);
    case Assert => AssertionsInOrder(lib, e, n, s);
    case Abort =>
      if n > 0 {
        StringInOrder(lib, e.argv[0], s);
        if EvalString(lib, e.argv[0], s).0.Some? { OrderedLast(s.trace, r.1.trace, OrderOf(e, 1)); }
        OrderOfLonger(e, 1, n, s.trace, r.1.trace, true);
      }
    case IfElse => if n == 2 || n == 3 { BranchesInOrder(lib, e, s); }
    case And => BranchesInOrder(lib, e, s);
    case Or => BranchesInOrder(lib, e, s);
    case Not =>
      StringInOrder(lib, e.argv[0], s);
      OrderOfLonger(e, 1, n, s.trace, r.1.trace, r.0.None?);
    case Sequence =>
      EvalInOrder(lib, e.argv[0], s);
      var (left, s1) := Eval(lib, e.argv[0], s);
      if left.Some? { ThenInOrder(lib, e, 1, s, s1); } else { OrderOfLonger(e, 1, n, s.trace, s1.trace, true); }
    case Substring => StringsInOrder(lib, e, 2, s); OrderOfLonger(e, 2, n, s.trace, r.1.trace, r.0.None?);
    case Equality => StringsInOrder(lib, e, 2, s); OrderOfLonger(e, 2, n, s.trace, r.1.trace, r.0.None?);
    case Inequality => StringsInOrder(lib, e, 2, s); OrderOfLonger(e, 2, n, s.trace, r.1.trace, r.0.None?);
    case LessThanInt => if n == 2 { StringsInOrder(lib, e, 2, s); }
    case GreaterThanInt =>
      if n == 2 {
        StringInOrder(lib, e.argv[1], s);
        var (right, s1) := EvalString(lib, e.argv[1], s);
        if right.Some? {
          StringInOrder(lib, e.argv[0], s1);
          OrderedThen(s.trace, s1.trace, r.1.trace, Order(e.argv[1]), Order(e.argv[0]), r.0.None?);
        } else {
          OrderedSkip(s.trace, s1.trace, Order(e.argv[1]), Order(e.argv[0]), true);
        }
      }
  }

  lemma OrderNow(e: Expr)
    ensures e.fn.Leaf? ==> Order(e) == [e.start]
    ensures e.fn.GreaterThanInt? && |e.argv| == 2 ==> Order(e) == Order(e.argv[1]) + Order(e.argv[0])
    ensures !e.fn.Leaf? && !(e.fn.GreaterThanInt? && |e.argv| == 2) ==> Order(e) == OrderOf(e, |e.argv|)
  {
  }

  lemma OrderedLast(t0: seq<Called>, t1: seq<Called>, order: seq<nat>)
    requires Ordered(t0, t1, order, false)
    ensures Ordered(t0, t1, order, true)
  {
  }

  /** Argument k after what came before it, skipping those in between. */
  lemma {:induction false} ThenInOrder<W>(lib: Library<W>, e: Expr, k: nat, s: State<W>, s1: State<W>)
    requires WellFormed(e) && 0 < k < |e.argv| && Ordered(s.trace, s1.trace, OrderOf(e, 1), false)
    ensures Ordered(s.trace, Eval(lib, e.argv[k], s1).1.trace, OrderOf(e, |e.argv|), Eval(lib, e.argv[k], s1).0.None?)
    decreases e, 0, 1
  {
    hide Ordered;
    var r := Eval(lib, e.argv[k], s1);
    OrderOfLonger(e, 1, k, s.trace, s1.trace, false);
    EvalInOrder(lib, e.argv[k], s1);
    hide Eval;
    OrderedThen(s.trace, s1.trace, r.1.trace, OrderOf(e, k), Order(e.argv[k]), r.0.None?);
    OrderOfLonger(e, k + 1, |e.argv|, s.trace, r.1.trace, r.0.None?);
  }

  lemma {:induction false} BranchesInOrder<W>(lib: Library<W>, e: Expr, s: State<W>)
    requires WellFormed(e) && (e.fn.And? || e.fn.Or? || (e.fn.IfElse? && 2 <= |e.argv| <= 3))
    ensures Ordered(s.trace, Eval(lib, e, s).1.trace, OrderOf(e, |e.argv|), Eval(lib, e, s).0.None?)
    decreases e, 0, 2
  {
    hide Ordered, Order;
    OrderOfTwo(e);
    StringInOrder(lib, e.argv[0], s);
    var (cond, s1) := EvalString(lib, e.argv[0], s);
    OrderOfLonger(e, 1, |e.argv|, s.trace, s1.trace, cond.None?);
    if cond.Some? {
      ThenInOrder(lib, e, 1, s, s1);
      if |e.argv| == 3 { ThenInOrder(lib, e, 2, s, s1); }
    }
  }

  lemma {:induction false} StringInOrder<W>(lib: Library<W>, e: Expr, s: State<W>)
    requires WellFormed(e)
    ensures Ordered(s.trace, EvalString(lib, e, s).1.trace, Order(e), EvalString(lib, e, s).0.None?)
    decreases e, 2, 0
  {
    hide Order;
    EvalInOrder(lib, e, s);
  }

  lemma {:induction false} StringsInOrder<W>(lib: Library<W>, e: Expr, n: nat, s: State<W>)
    requires WellFormed(e) && n <= |e.argv|
    ensures Ordered(s.trace, EvalStrings(lib, e, n, s).1.trace, OrderOf(e, n), EvalStrings(lib, e, n, s).0.None?)
    decreases e, 0, n
  {
    hide Ordered, Order;
    if n == 0 {
      OrderedNothing(s.trace, OrderOf(e, 0), false);
    } else {
      StringsInOrder(lib, e, n - 1, s);
      var (before, s1) := EvalStrings(lib, e, n - 1, s);
      if before.None? {
        OrderedSkip(s.trace, s1.trace, OrderOf(e, n - 1), Order(e.argv[n - 1]), true);
      } else {
        StringInOrder(lib, e.argv[n - 1], s1);
        var r := EvalString(lib, e.argv[n - 1], s1);
        OrderedThen(s.trace, s1.trace, r.1.trace, OrderOf(e, n - 1), Order(e.argv[n - 1]), r.0.None?);
      }
    }
  }

  lemma {:induction false} AssertionsInOrder<W>(lib: Library<W>, e: Expr, n: nat, s: State<W>)
    requires WellFormed(e) && n <= |e.argv|
    ensures Ordered(s.trace, EvalAssertions(lib, e, n, s).1.trace, OrderOf(e, n), !EvalAssertions(lib, e, n, s).0)
    decreases e, 0, n
  {
    hide Ordered, Order;
    if n == 0 {
      OrderedNothing(s.trace, OrderOf(e, 0), false);
    } else {
      AssertionsInOrder(lib, e, n - 1, s);
      var (ok, s1) := EvalAssertions(lib, e, n - 1, s);
      if !ok {
        OrderedSkip(s.trace, s1.trace, OrderOf(e, n - 1), Order(e.argv[n - 1]), true);
      } else {
        StringInOrder(lib, e.argv[n - 1], s1);
        var r := EvalString(lib, e.argv[n - 1], s1);
        OrderedThen(s.trace, s1.trace, r.1.trace, OrderOf(e, n - 1), Order(e.argv[n - 1]), r.0.None?);
        if r.0.Some? { OrderedLast(s.trace, r.1.trace, OrderOf(e, n)); }
      }
    }
  }

  ghost predicate Distinct(places: seq<nat>) {
    forall i, j | 0 <= i < j < |places| :: places[i] != places[j]
  }

  lemma {:induction false} SubsequenceMember(a: seq<nat>, b: seq<nat>, x: nat)
    requires Subsequence(a, b) && x in a
    ensures x in b
    decreases |b|
  {
    var front := b[..|b|-1];
    if Subsequence(a, front) {
      SubsequenceMember(a, front, x);
    } else if x != b[|b|-1] {
      SubsequenceMember(a[..|a|-1], front, x);
    }
  }

  lemma {:induction false} SubsequenceDistinct(a: seq<nat>, b: seq<nat>)
    requires Subsequence(a, b) && Distinct(b)
    ensures Distinct(a)
    decreases |b|
  {
    if a != [] {
      var front := b[..|b|-1];
      if Subsequence(a, front) {
        SubsequenceDistinct(a, front);
      } else {
        SubsequenceDistinct(a[..|a|-1], front);
        if a[|a|-1] in a[..|a|-1] { SubsequenceMember(a[..|a|-1], front, a[|a|-1]); }
      }
    }
  }

  /** Each place in the script is called at most once. */
  lemma EvalOnce<W>(lib: Library<W>, e: Expr, s: State<W>)
    requires WellFormed(e) && Distinct(Order(e))
    ensures s.trace <= Eval(lib, e, s).1.trace && Distinct(Places(Eval(lib, e, s).1.trace[|s.trace|..]))
  {
    EvalInOrder(lib, e, s);
    SubsequenceDistinct(Places(Eval(lib, e, s).1.trace[|s.trace|..]), Order(e));
  }

  // ---------------------------------------------------------------- laws

  function Call(fn: Fn, argv: seq<Expr>): Expr { Expr(fn, "(operator)", argv, "", 0) }

  /** e1 + e2 + ... + en as the parser builds it. */
  function PlusChain(es: seq<Expr>): Expr
    requires |es| >= 2
  {
    Call(Concat, [if |es| == 2 then es[0] else PlusChain(es[..|es|-1]), es[|es|-1]])
  }

  ghost predicate AllWellFormed(es: seq<Expr>) {
    forall i | 0 <= i < |es| :: WellFormed(es[i])
  }

  lemma {:induction false} PlusChainWellFormed(es: seq<Expr>)
    requires |es| >= 2 && AllWellFormed(es)
    ensures WellFormed(PlusChain(es)) && WellFormed(Call(Concat, es))
  {
    if |es| > 2 { PlusChainWellFormed(es[..|es|-1]); }
  }

  lemma JoinOne(a: string)
    ensures Join([a]) == a
  {
    assert [a][..0] == [];
  }

  lemma JoinTwo(a: string, b: string)
    ensures Join([a, b]) == a + b
  {
    assert [a, b][..1] == [a];
    JoinOne(a);
  }

  /** Evaluating some of the arguments does not depend on the others. */
  lemma {:induction false} StringsOfPrefix<W>(lib: Library<W>, a: Expr, b: Expr, n: nat, s: State<W>)
    requires WellFormed(a) && WellFormed(b) && n <= |a.argv| && n <= |b.argv| && a.argv[..n] == b.argv[..n]
    ensures EvalStrings(lib, a, n, s) == EvalStrings(lib, b, n, s)
  {
    if n > 0 {
      assert a.argv[..n - 1] == a.argv[..n][..n - 1] && b.argv[..n - 1] == b.argv[..n][..n - 1];
      assert a.argv[n - 1] == a.argv[..n][n - 1] && b.argv[n - 1] == b.argv[..n][n - 1];
      StringsOfPrefix(lib, a, b, n - 1, s);
    }
  }

  lemma TwoStrings<W>(lib: Library<W>, e: Expr, s: State<W>)
    requires WellFormed(e) && |e.argv| >= 2
    ensures var (left, s1) := EvalString(lib, e.argv[0], s);
      EvalStrings(lib, e, 2, s) ==
        if left.None? then (None, s1)
        else
          var (right, s2) := EvalString(lib, e.argv[1], s1);
          (if right.None? then None else Some([left.value, right.value]), s2)
  {
    hide EvalString;
    assert EvalStrings(lib, e, 0, s) == (Some([]), s);
    var (left, s1) := EvalString(lib, e.argv[0], s);
    if left.Some? { assert [] + [left.value] == [left.value]; }
    assert EvalStrings(lib, e, 1, s) == (if left.None? then None else Some([left.value]), s1);
    if left.Some? {
      var (right, s2) := EvalString(lib, e.argv[1], s1);
      if right.Some? { assert [left.value] + [right.value] == [left.value, right.value]; }
    }
  }

  /** A chain of + is one concat of all its operands, effects and errors included. */
  lemma {:induction false} PlusChainIsConcat<W>(lib: Library<W>, es: seq<Expr>, s: State<W>)
    requires |es| >= 2 && AllWellFormed(es)
    requires WellFormed(PlusChain(es)) && WellFormed(Call(Concat, es))
    ensures Eval(lib, PlusChain(es), s) == Eval(lib, Call(Concat, es), s)
    decreases |es|
  {
    var chain, all, n := PlusChain(es), Call(Concat, es), |es|;
    if n == 2 {
      assert chain.argv == es;
    } else {
      var front := es[..n - 1];
      var inner := Call(Concat, front);
      PlusChainWellFormed(front);
      PlusChainIsConcat(lib, front, s);
      assert inner.argv[..n - 1] == all.argv[..n - 1];
      StringsOfPrefix(lib, inner, all, n - 1, s);
      TwoStrings(lib, chain, s);
      ChainStep(lib, es, s);
    }
  }

  lemma ChainStep<W>(lib: Library<W>, es: seq<Expr>, s: State<W>)
    requires |es| >= 3 && WellFormed(PlusChain(es)) && WellFormed(Call(Concat, es)) && WellFormed(Call(Concat, es[..|es|-1]))
    requires WellFormed(PlusChain(es[..|es|-1])) && WellFormed(es[|es|-1])
    requires Eval(lib, PlusChain(es[..|es|-1]), s) == Eval(lib, Call(Concat, es[..|es|-1]), s)
    requires EvalStrings(lib, Call(Concat, es[..|es|-1]), |es| - 1, s) == EvalStrings(lib, Call(Concat, es), |es| - 1, s)
    ensures Eval(lib, PlusChain(es), s) == Eval(lib, Call(Concat, es), s)
  {
    var chain, all, n := PlusChain(es), Call(Concat, es), |es|;
    TwoStrings(lib, chain, s);
    var (before, s1) := EvalStrings(lib, all, n - 1, s);
    assert EvalString(lib, chain.argv[0], s) == (if before.None? then None else Some(Join(before.value)), s1);
    if before.Some? {
      var last := EvalString(lib, es[n - 1], s1).0;
      if last.Some? {
        JoinTwo(Join(before.value), last.value);
        assert (before.value + [last.value])[..n - 1] == before.value;
      }
    }
  }

  /** assert(c) is ifelse(c, "", abort()) except for the text of the error. */
  lemma AssertIsIfElse<W>(lib: Library<W>, c: Expr, s: State<W>)
    requires WellFormed(c)
    ensures var e1, e2 := Call(Assert, [c]), Call(IfElse, [c, Expr(Literal, "", [], "", 0), Call(Abort, [])]);
      WellFormed(e1) && WellFormed(e2) &&
      var (v1, s1) := Eval(lib, e1, s);
      var (v2, s2) := Eval(lib, e2, s);
      v1 == v2 && s1.world == s2.world && s1.trace == s2.trace && (v1.Some? ==> s1 == s2)
  {
    var e1 := Call(Assert, [c]);
    assert EvalAssertions(lib, e1, 0, s) == (true, s);
  }

  lemma {:induction false} AssertionsOfPrefix<W>(lib: Library<W>, a: Expr, b: Expr, n: nat, s: State<W>)
    requires WellFormed(a) && WellFormed(b) && n <= |a.argv| && n <= |b.argv| && a.argv[..n] == b.argv[..n]
    ensures EvalAssertions(lib, a, n, s) == EvalAssertions(lib, b, n, s)
  {
    if n > 0 {
      assert a.argv[..n - 1] == a.argv[..n][..n - 1] && b.argv[..n - 1] == b.argv[..n][..n - 1];
      assert a.argv[n - 1] == a.argv[..n][n - 1] && b.argv[n - 1] == b.argv[..n][n - 1];
      AssertionsOfPrefix(lib, a, b, n - 1, s);
    }
  }

  /** An assert of several conditions is the assert of all but the last, and then the assert of
      the last, so that nothing is evaluated behind one that fails. */
  lemma AssertInSteps<W>(lib: Library<W>, es: seq<Expr>, s: State<W>)
    requires es != [] && AllWellFormed(es)
    ensures var all := Call(Assert, es);
      var front, last := Call(Assert, es[..|es|-1]), Call(Assert, [es[|es|-1]]);
      && WellFormed(all) && WellFormed(front) && WellFormed(last) && WellFormed(Call(Sequence, [front, last]))
      && Eval(lib, all, s) == Eval(lib, Call(Sequence, [front, last]), s)
  {
    var n := |es| - 1;
    var all, front, last := Call(Assert, es), Call(Assert, es[..n]), Call(Assert, [es[n]]);
    AssertionsOfPrefix(lib, all, front, n, s);
    var (ok, s1) := EvalAssertions(lib, front, n, s);
    assert last.argv[0] == es[n] && EvalAssertions(lib, last, 0, s1) == (true, s1);
    assert EvalAssertions(lib, last, 1, s1) == EvalAssertions(lib, last, |last.argv|, s1);
    SequenceMeans(lib, front, last, s);
  }

  // ---------------------------------------------------------------- what the operators mean

  function Text(x: string): Expr { Expr(Literal, x, [], "", 0) }

  lemma TextMeans<W>(lib: Library<W>, x: string, s: State<W>)
    ensures WellFormed(Text(x)) && Eval(lib, Text(x), s) == (Some(Str(x)), s) && EvalString(lib, Text(x), s) == (Some(x), s)
  {
  }

  lemma TwoTexts<W>(lib: Library<W>, fn: Fn, x: string, y: string, s: State<W>)
    ensures WellFormed(Call(fn, [Text(x), Text(y)]))
    ensures EvalStrings(lib, Call(fn, [Text(x), Text(y)]), 2, s) == (Some([x, y]), s)
  {
    TextMeans(lib, x, s);
    TextMeans(lib, y, s);
    TwoStrings(lib, Call(fn, [Text(x), Text(y)]), s);
  }

  /** A true left operand of && gives way to the right one; a false one is the result, and the
      right one is not touched. For || it is the other way round. */
  lemma LogicOfText<W>(lib: Library<W>, x: string, e: Expr, s: State<W>)
    requires WellFormed(e)
    ensures var both, either, negated := Call(And, [Text(x), e]), Call(Or, [Text(x), e]), Call(Not, [Text(x)]);
      && WellFormed(both) && WellFormed(either) && WellFormed(negated)
      && (x != "" ==> Eval(lib, both, s) == Eval(lib, e, s) && Eval(lib, either, s) == (Some(Str(x)), s))
      && (x == "" ==> Eval(lib, both, s) == (Some(Str("")), s) && Eval(lib, either, s) == Eval(lib, e, s))
      && Eval(lib, negated, s) == (Some(Str(if x == "" then "t" else "")), s)
  {
    TextMeans(lib, x, s);
  }

  /** A sequence has the effects of both operands and the value of the second; if the first
      fails, its effects and no value. */
  lemma SequenceMeans<W>(lib: Library<W>, a: Expr, b: Expr, s: State<W>)
    requires WellFormed(a) && WellFormed(b)
    ensures var both := Call(Sequence, [a, b]);
      var (v, s1) := Eval(lib, a, s);
      WellFormed(both) && Eval(lib, both, s) == if v.Some? then Eval(lib, b, s1) else (None, s1)
  {
    var both := Call(Sequence, [a, b]);
    var left := Eval(lib, both.argv[0], s);
    assert both.argv[0] == a && both.argv[1] == b && both.fn == Sequence;
    assert Eval(lib, both, s) == if left.0.None? then (None, left.1) else Eval(lib, both.argv[1], left.1);
  }

  /** The left operand comes first, with all its effects: (a; "t") && b is a; b, and
      (a; "") && b is a; "". Likewise for ||. */
  lemma LogicAfter<W>(lib: Library<W>, a: Expr, b: Expr, s: State<W>)
    requires WellFormed(a) && WellFormed(b)
    ensures var yes, no := Call(Sequence, [a, Text("t")]), Call(Sequence, [a, Text("")]);
      var first, none := Call(Sequence, [a, b]), Call(Sequence, [a, Text("")]);
      var always := Call(Sequence, [a, Text("t")]);
      && WellFormed(yes) && WellFormed(no) && WellFormed(first)
      && WellFormed(Call(And, [yes, b])) && WellFormed(Call(And, [no, b]))
      && WellFormed(Call(Or, [yes, b])) && WellFormed(Call(Or, [no, b]))
      && Eval(lib, Call(And, [yes, b]), s) == Eval(lib, first, s)
      && Eval(lib, Call(And, [no, b]), s) == Eval(lib, none, s)
      && Eval(lib, Call(Or, [yes, b]), s) == Eval(lib, always, s)
      && Eval(lib, Call(Or, [no, b]), s) == Eval(lib, first, s)
  {
    var (v, s1) := Eval(lib, a, s);
    TextMeans(lib, "t", s1);
    TextMeans(lib, "", s1);
    SequenceMeans(lib, a, Text("t"), s);
    SequenceMeans(lib, a, Text(""), s);
    SequenceMeans(lib, a, b, s);
  }

  lemma BranchOfText<W>(lib: Library<W>, x: string, a: Expr, b: Expr, s: State<W>)
    requires WellFormed(a) && WellFormed(b)
    ensures var two, three := Call(IfElse, [Text(x), a]), Call(IfElse, [Text(x), a, b]);
      && WellFormed(two) && WellFormed(three)
      && Eval(lib, three, s) == (if x != "" then Eval(lib, a, s) else Eval(lib, b, s))
      && Eval(lib, two, s) == if x != "" then Eval(lib, a, s) else (Some(Str("")), s)
  {
    TextMeans(lib, x, s);
  }

  /** Comparisons of strings: substring asks for its first operand in its second. */
  lemma ComparisonOfTexts<W>(lib: Library<W>, x: string, y: string, s: State<W>)
    ensures var same, other, within := Call(Equality, [Text(x), Text(y)]), Call(Inequality, [Text(x), Text(y)]), Call(Substring, [Text(x), Text(y)]);
      && WellFormed(same) && WellFormed(other) && WellFormed(within)
      && Eval(lib, same, s) == (Some(Str(if x == y then "t" else "")), s)
      && Eval(lib, other, s) == (Some(Str(if x == y then "" else "t")), s)
      && Eval(lib, within, s) == (Some(Str(if IsWithin(x, y) then "t" else "")), s)
  {
    TwoTexts(lib, Equality, x, y, s);
    TwoTexts(lib, Inequality, x, y, s);
    TwoTexts(lib, Substring, x, y, s);
    ContainsIff(y, x);
    hide EvalStrings, Contains, IsWithin;
  }

  ghost predicate IsWithin(needle: string, haystack: string) {
    exists before, after :: haystack == before + needle + after
  }

  lemma ContainsIff(haystack: string, needle: string)
    ensures Contains(haystack, needle) <==> IsWithin(needle, haystack)
  {
    if Contains(haystack, needle) {
      var i :| 0 <= i <= |haystack| && needle <= haystack[i..];
      assert haystack == haystack[..i] + needle + haystack[i + |needle|..];
    }
    if IsWithin(needle, haystack) {
      var before, after :| haystack == before + needle + after;
      assert haystack[|before|..] == needle + after;
    }
  }

  /** Comparisons of numbers: false unless both operands are numbers. */
  lemma ComparisonOfNumbers<W>(lib: Library<W>, x: string, y: string, s: State<W>)
    ensures var less, greater := Call(LessThanInt, [Text(x), Text(y)]), Call(GreaterThanInt, [Text(x), Text(y)]);
      var m, n := lib.number(x), lib.number(y);
      && WellFormed(less) && WellFormed(greater)
      && Eval(lib, less, s) == (Some(Str(if m.Some? && n.Some? && m.value < n.value then "t" else "")), s)
      && Eval(lib, greater, s) == (Some(Str(if m.Some? && n.Some? && m.value > n.value then "t" else "")), s)
  {
    TwoTexts(lib, LessThanInt, x, y, s);
    TextMeans(lib, x, s);
    TextMeans(lib, y, s);
    hide EvalStrings;
  }

  /** Concatenation of strings, and what abort and a failed assert leave as the error. */
  lemma TextsJoinAndFail<W>(lib: Library<W>, x: string, y: string, s: State<W>)
    ensures var joined, ended := Call(Concat, [Text(x), Text(y)]), Call(Abort, [Text(x)]);
      && WellFormed(joined) && WellFormed(ended) && WellFormed(Call(Abort, []))
      && Eval(lib, joined, s) == (Some(Str(x + y)), s)
      && Eval(lib, ended, s) == (None, s.(errmsg := Some(x)))
      && Eval(lib, Call(Abort, []), s) == (None, s.(errmsg := Some("called abort()")))
    ensures var checked := Call(Assert, [Text(x).(source := y)]);
      && WellFormed(checked)
      && Eval(lib, checked, s) == if x != "" then (Some(Str("")), s) else (None, s.(errmsg := Some("assert failed: " + y)))
  {
    TwoTexts(lib, Concat, x, y, s);
    TextMeans(lib, x, s);
    JoinTwo(x, y);
    var checked := Call(Assert, [Text(x).(source := y)]);
    assert Eval(lib, Text(x).(source := y), s) == (Some(Str(x)), s);
    assert checked.argv[0].source == y && EvalAssertions(lib, checked, 0, s) == (true, s);
    assert EvalAssertions(lib, checked, 1, s) ==
      if x != "" then (true, s) else (false, s.(errmsg := Some("assert failed: " + y)));
  }

  /** The errors of wrong use: too few or too many arguments, and a value that is no string. */
  lemma WrongUse<W>(lib: Library<W>, argv: seq<Expr>, s: State<W>)
    requires AllWellFormed(argv)
    ensures |argv| != 2 && |argv| != 3 ==>
      WellFormed(Call(IfElse, argv)) && Eval(lib, Call(IfElse, argv), s) == (None, s.(errmsg := Some("ifelse expects 2 or 3 arguments")))
    ensures |argv| != 2 ==>
      WellFormed(Call(LessThanInt, argv)) && Eval(lib, Call(LessThanInt, argv), s) == (None, s.(errmsg := Some("less_than_int expects 2 arguments")))
    ensures |argv| != 2 ==>
      WellFormed(Call(GreaterThanInt, argv)) && Eval(lib, Call(GreaterThanInt, argv), s) == (None, s.(errmsg := Some("greater_than_int expects 2 arguments")))
    ensures |argv| == 1 && Eval(lib, argv[0], s).0.Some? && Eval(lib, argv[0], s).0.value.Blob? ==>
      WellFormed(Call(Concat, argv)) && Eval(lib, Call(Concat, argv), s) ==
        (None, Eval(lib, argv[0], s).1.(errmsg := Some("expecting string, got value type 2")))
  {
    var e := Call(Concat, argv);
    if |argv| == 1 {
      assert e.argv[0] == argv[0] && EvalStrings(lib, e, 0, s) == (Some([]), s);
    }
  }

  // ---------------------------------------------------------------- the interpreter

  class Interpreter<!W> {
    const lib: Library<W>
    var world: W
    var errmsg: Option<string>
    ghost var trace: seq<Called>

    constructor (lib: Library<W>, world: W)
      ensures this.lib == lib && Now() == State(world, None, [])
    {
      this.lib, this.world, errmsg, trace := lib, world, None, [];
    }

    ghost function Now(): State<W>
      reads this
    {
      State(world, errmsg, trace)
    }

    method SetError(message: string)
      modifies this
      ensures Now() == old(Now()).(errmsg := Some(message))
    {
      errmsg := Some(message);
    }

    method CallLeaf(name: string, start: nat) returns (v: Option<Value>)
      modifies this
      ensures var (v', w, m) := lib.leaf(name, old(world), old(errmsg));
        v == v' && Now() == State(w, m, old(trace) + [Called(start, v.None?)])
    {
      var r := lib.leaf(name, world, errmsg);
      v, world, errmsg := r.0, r.1, r.2;
      trace := trace + [Called(start, v.None?)];
    }

    /** EvaluateValue: the builtin of the expression. */
    method EvaluateValue(e: Expr) returns (v: Option<Value>)
      requires WellFormed(e)
      modifies this
      ensures (v, Now()) == Eval(lib, e, old(Now()))
      decreases e, 1
    {
      match e.fn
      case Literal => v := Some(Str(e.name));
      case Leaf => v := CallLeaf(e.name, e.start);
      case Concat => v := ConcatFn(e);
      case IfElse => v := IfElseFn(e);
      case Abort => v := AbortFn(e);
      case Assert => v := AssertFn(e);
      case And => v := LogicalFn(e);
      case Or => v := LogicalFn(e);
      case Not =>
        var val := Evaluate(e.argv[0]);
        v := if val.None? then None else Truth(val.value == "");
      case Sequence =>
        var left := EvaluateValue(e.argv[0]);
        if left.None? {
          return None;
        }
        v := EvaluateValue(e.argv[1]);
      case Substring => v := CompareFn(e);
      case Equality => v := CompareFn(e);
      case Inequality => v := CompareFn(e);
      case LessThanInt => v := LessThanIntFn(e);
      case GreaterThanInt => v := GreaterThanIntFn(e);
    }

    /** Evaluate */
    method Evaluate(e: Expr) returns (text: Option<string>)
      requires WellFormed(e)
      modifies this
      ensures (text, Now()) == EvalString(lib, e, old(Now()))
      decreases e, 2
    {
      var v := EvaluateValue(e);
      if v.None? {
        return None;
      }
      if !v.value.Str? {
        SetError(EXPECTING_STRING);
        return None;
      }
      text := Some(v.value.text);
    }

    /** ReadArgs, which ConcatFn spells out. */
    method ReadArgs(e: Expr, count: nat) returns (args: Option<seq<string>>)
      requires WellFormed(e) && count <= |e.argv|
      modifies this
      ensures (args, Now()) == EvalStrings(lib, e, count, old(Now()))
      decreases e, 0, 0
    {
      hide EvalString;
      var strings, i := [], 0;
      while i < count
        invariant 0 <= i <= count && (Some(strings), Now()) == EvalStrings(lib, e, i, old(Now()))
      {
        var arg := Evaluate(e.argv[i]);
        if arg.None? {
          StringsStop(lib, e, i + 1, count, old(Now()));
          return None;
        }
        strings, i := strings + [arg.value], i + 1;
      }
      args := Some(strings);
    }

    method ConcatFn(e: Expr) returns (v: Option<Value>)
      requires WellFormed(e) && e.fn.Concat?
      modifies this
      ensures (v, Now()) == Eval(lib, e, old(Now()))
      decreases e, 0, 1
    {
      if e.argv == [] {
        return Some(Str(""));
      }
      var strings := ReadArgs(e, |e.argv|);
      if strings.None? {
        return None;
      }
      var result := "";
      for i := 0 to |strings.value|
        invariant result == Join(strings.value[..i])
      {
        assert strings.value[..i + 1][..i] == strings.value[..i];
        result := result + strings.value[i];
      }
      assert strings.value[..|strings.value|] == strings.value;
      v := Some(Str(result));
    }

    method IfElseFn(e: Expr) returns (v: Option<Value>)
      requires WellFormed(e) && e.fn.IfElse?
      modifies this
      ensures (v, Now()) == Eval(lib, e, old(Now()))
      decreases e, 0, 1
    {
      if |e.argv| != 2 && |e.argv| != 3 {
        SetError(IFELSE_ARGS);
        return None;
      }
      var cond := Evaluate(e.argv[0]);
      if cond.None? {
        return None;
      }
      if cond.value != "" {
        v := EvaluateValue(e.argv[1]);
      } else if |e.argv| == 3 {
        v := EvaluateValue(e.argv[2]);
      } else {
        v := Some(Str(cond.value));
      }
    }

    method AbortFn(e: Expr) returns (v: Option<Value>)
      requires WellFormed(e) && e.fn.Abort?
      modifies this
      ensures (v, Now()) == Eval(lib, e, old(Now()))
      decreases e, 0, 1
    {
      var msg := None;
      if |e.argv| > 0 {
        msg := Evaluate(e.argv[0]);
      }
      SetError(if msg.Some? then msg.value else CALLED_ABORT);
      v := None;
    }

    method AssertFn(e: Expr) returns (v: Option<Value>)
      requires WellFormed(e) && e.fn.Assert?
      modifies this
      ensures (v, Now()) == Eval(lib, e, old(Now()))
      decreases e, 0, 1
    {
      hide EvalString;
      var i := 0;
      while i < |e.argv|
        invariant 0 <= i <= |e.argv| && (true, Now()) == EvalAssertions(lib, e, i, old(Now()))
      {
        var val := Evaluate(e.argv[i]);
        if val.None? {
          AssertionsStop(lib, e, i + 1, |e.argv|, old(Now()));
          return None;
        }
        if val.value == "" {
          SetError(ASSERT_FAILED + e.argv[i].source);
          AssertionsStop(lib, e, i + 1, |e.argv|, old(Now()));
          return None;
        }
        i := i + 1;
      }
      v := Some(Str(""));
    }

    /** LogicalAndFn and LogicalOrFn */
    method LogicalFn(e: Expr) returns (v: Option<Value>)
      requires WellFormed(e) && (e.fn.And? || e.fn.Or?)
      modifies this
      ensures (v, Now()) == Eval(lib, e, old(Now()))
      decreases e, 0, 1
    {
      var left := Evaluate(e.argv[0]);
      if left.None? {
        return None;
      }
      if (left.value != "") == e.fn.And? {
        v := EvaluateValue(e.argv[1]);
      } else {
        v := Some(Str(left.value));
      }
    }

    /** SubstringFn, EqualityFn and InequalityFn */
    method CompareFn(e: Expr) returns (v: Option<Value>)
      requires WellFormed(e) && (e.fn.Substring? || e.fn.Equality? || e.fn.Inequality?)
      modifies this
      ensures (v, Now()) == Eval(lib, e, old(Now()))
      decreases e, 0, 1
    {
      TwoStrings(lib, e, Now());
      hide EvalString, EvalStrings;
      var first := Evaluate(e.argv[0]);
      if first.None? {
        return None;
      }
      var second := Evaluate(e.argv[1]);
      if second.None? {
        return None;
      }
      v := Truth(if e.fn.Substring? then Contains(second.value, first.value)
                 else if e.fn.Equality? then first.value == second.value
                 else first.value != second.value);
    }

    method LessThanIntFn(e: Expr) returns (v: Option<Value>)
      requires WellFormed(e) && e.fn.LessThanInt?
      modifies this
      ensures (v, Now()) == Eval(lib, e, old(Now()))
      decreases e, 0, 1
    {
      if |e.argv| != 2 {
        SetError(LESS_THAN_ARGS);
        return None;
      }
      var args := ReadArgs(e, 2);
      v := if args.None? then None else Truth(Less(lib, args.value[0], args.value[1]));
    }

    /** Evaluates its arguments in changed places. */
    method GreaterThanIntFn(e: Expr) returns (v: Option<Value>)
      requires WellFormed(e) && e.fn.GreaterThanInt?
      modifies this
      ensures (v, Now()) == Eval(lib, e, old(Now()))
      decreases e, 0, 1
    {
      if |e.argv| != 2 {
        SetError(GREATER_THAN_ARGS);
        return None;
      }
      var right := Evaluate(e.argv[1]);
      if right.None? {
        return None;
      }
      var left := Evaluate(e.argv[0]);
      v := if left.None? then None else Truth(Less(lib, right.value, left.value));
    }
  }

  lemma {:induction false} StringsStop<W>(lib: Library<W>, e: Expr, i: nat, n: nat, s: State<W>)
    requires WellFormed(e) && i <= n <= |e.argv| && EvalStrings(lib, e, i, s).0.None?
    ensures EvalStrings(lib, e, n, s) == EvalStrings(lib, e, i, s)
  {
    if i < n { StringsStop(lib, e, i, n - 1, s); }
  }

  lemma {:induction false} AssertionsStop<W>(lib: Library<W>, e: Expr, i: nat, n: nat, s: State<W>)
    requires WellFormed(e) && i <= n <= |e.argv| && !EvalAssertions(lib, e, i, s).0
    ensures EvalAssertions(lib, e, n, s) == EvalAssertions(lib, e, i, s)
  {
    if i < n { AssertionsStop(lib, e, i, n - 1, s); }
  }
}
