/** minzip/DirUtil.c and commands.c: the commands of an update script at work on a file
    tree, system call by system call, any of which may fail. */
module FileTrees {
  import opened Permissions
  import opened Wrappers  // Option

  type Objects = map<Path, Obj>

  /** Everything has a directory for its parent. */
  ghost predicate Rooted(objs: Objects) {
    forall p | p in objs && p != [] :: p[..|p|-1] in objs && objs[p[..|p|-1]].DirObj?
  }

  lemma {:induction false} AncestorIsDir(objs: Objects, p: Path, above: Path)
    requires Rooted(objs) && p in objs && above < p
    ensures above in objs && objs[above].DirObj?
    decreases |p|
  {
    var parent := p[..|p|-1];
    if above != parent { AncestorIsDir(objs, parent, above); }
  }

  function SubtreePaths(objs: Objects, path: Path): set<Path> {
    set p | p in objs && path <= p
  }

  function ChildNames(objs: Objects, path: Path): set<string> {
    set p | p in objs && |p| == |path| + 1 && path <= p :: p[|path|]
  }

  ghost function Recursed(objs: Objects, path: Path, d: Defaults): Objects {
    map p | p in objs :: if path <= p then WithDefaults(objs[p], d) else objs[p]
  }

  function WithOwner(o: Obj, d: Defaults): Obj
    requires !o.LinkObj?
  {
    o.(perm := Perm(d.uid, d.gid, o.perm.mode))
  }

  /** Untouched, or with the new owner, or done. */
  ghost predicate Between(o: Obj, o': Obj, d: Defaults) {
    o' == o || o' == WithDefaults(o, d) || (!o.LinkObj? && o' == WithOwner(o, d))
  }

  ghost predicate HalfDone(objs: Objects, objs': Objects, path: Path, d: Defaults) {
    && objs'.Keys == objs.Keys
    && forall p | p in objs :: if path <= p then Between(objs[p], objs'[p], d) else objs'[p] == objs[p]
  }

  /** The directory itself and all but the remaining children's subtrees are done. */
  ghost predicate AllBut(objs: Objects, objs': Objects, path: Path, d: Defaults, remaining: set<string>) {
    && objs'.Keys == objs.Keys
    && forall p | p in objs ::
      objs'[p] == if path <= p && (p == path || p[|path|] !in remaining) then WithDefaults(objs[p], d) else objs[p]
  }

  lemma ChildDone(objs: Objects, mid: Objects, path: Path, d: Defaults, remaining: set<string>, name: string)
    requires AllBut(objs, mid, path, d, remaining) && name in remaining
    ensures AllBut(objs, Recursed(mid, path + [name], d), path, d, remaining - {name})
  {
    var child, objs' := path + [name], Recursed(mid, path + [name], d);
    forall p | p in objs
      ensures objs'[p] == if path <= p && (p == path || p[|path|] !in remaining - {name}) then WithDefaults(objs[p], d) else objs[p]
    {
      assert child <= p <==> path <= p && p != path && p[|path|] == name;
    }
  }

  lemma ChildHalfDone(objs: Objects, mid: Objects, objs': Objects, path: Path, d: Defaults, remaining: set<string>,
      name: string)
    requires AllBut(objs, mid, path, d, remaining) && name in remaining
    requires HalfDone(mid, objs', path + [name], d)
    ensures HalfDone(objs, objs', path, d)
  {
    forall p | p in objs
      ensures if path <= p then Between(objs[p], objs'[p], d) else objs'[p] == objs[p]
    {
      if path + [name] <= p { assert path <= p && p[|path|] == name; }
    }
  }

  lemma NothingYet(objs: Objects, path: Path, d: Defaults)
    ensures HalfDone(objs, objs, path, d)
  {
  }

  lemma HalfDoneKeys(objs: Objects, objs': Objects, path: Path, d: Defaults)
    requires HalfDone(objs, objs', path, d)
    ensures objs'.Keys == objs.Keys
  {
  }

  lemma NothingBelow(objs: Objects, path: Path, d: Defaults)
    requires Rooted(objs) && path in objs && !objs[path].DirObj?
    ensures Recursed(objs, path, d) == objs[path := WithDefaults(objs[path], d)]
  {
    forall p | p in objs && path <= p ensures p == path {
      if path != p { AncestorIsDir(objs, p, path); }
    }
    assert Recursed(objs, path, d) == objs[path := WithDefaults(objs[path], d)];
  }

  lemma Repainted(objs: Objects, o: Obj, path: Path, d: Defaults)
    requires Rooted(objs) && path in objs && !objs[path].LinkObj?
    requires o == WithOwner(objs[path], d) || o == WithDefaults(objs[path], d)
    ensures Rooted(objs[path := o]) && HalfDone(objs, objs[path := o], path, d)
    ensures Recursed(objs[path := o], path, d) == Recursed(objs, path, d)
    ensures SubtreePaths(objs[path := o], path) == SubtreePaths(objs, path)
  {
    var objs' := objs[path := o];
    assert objs'.Keys == objs.Keys;
    assert Recursed(objs', path, d) == Recursed(objs, path, d);
    assert SubtreePaths(objs', path) == SubtreePaths(objs, path);
  }

  lemma RepaintedRest(objs: Objects, objs': Objects, path: Path, d: Defaults)
    requires path in objs && !objs[path].LinkObj?
    requires HalfDone(objs[path := WithDefaults(objs[path], d)], objs', path, d)
    ensures HalfDone(objs, objs', path, d)
  {
  }

  lemma NoneRemain(objs: Objects, objs': Objects, path: Path, d: Defaults)
    requires AllBut(objs, objs', path, d, {})
    ensures objs' == Recursed(objs, path, d) && HalfDone(objs, objs', path, d)
  {
  }

  lemma AllRemain(objs: Objects, path: Path, d: Defaults)
    requires Rooted(objs) && path in objs && objs[path] == WithDefaults(objs[path], d)
    ensures AllBut(objs, objs, path, d, ChildNames(objs, path))
  {
    forall p | p in objs && path < p ensures p[|path|] in ChildNames(objs, path) {
      var child := p[..|path| + 1];
      if child != p { AncestorIsDir(objs, p, child); }
      assert child in objs && path <= child && child[|path|] == p[|path|];
    }
  }

  lemma ChildIsSmaller(objs: Objects, objs': Objects, path: Path, name: string)
    requires objs'.Keys == objs.Keys && path in objs && name in ChildNames(objs, path)
    ensures path + [name] in objs'
    ensures SubtreePaths(objs', path + [name]) < SubtreePaths(objs, path)
  {
    var p :| p in objs && |p| == |path| + 1 && path <= p && p[|path|] == name;
    assert p == path + [name];
    assert path in SubtreePaths(objs, path) && path !in SubtreePaths(objs', path + [name]);
  }

  lemma SetKeepsRooted(objs: Objects, path: Path, perm: Perm)
    requires Rooted(objs) && path in objs && !objs[path].LinkObj?
    ensures Rooted(objs[path := objs[path].(perm := perm)])
  {
  }

  lemma LinkKeepsRooted(objs: Objects, path: Path, target: string)
    requires Rooted(objs) && path !in objs && path != [] && path[..|path|-1] in objs && objs[path[..|path|-1]].DirObj?
    ensures Rooted(objs[path := LinkObj(target)])
  {
  }

  /** What a command that fails may have done: each object of the subtree is as it was, has
      the new owner, or is done; a single object has the new owner at most; no link is made. */
  ghost predicate Interrupted(objs: Objects, c: Command, objs': Objects) {
    match c
    case SetPermRecursive(d, path) => HalfDone(objs, objs', path, d)
    case SetPerm(perm, path) =>
      || objs' == objs
      || (path in objs && !objs[path].LinkObj? &&
          objs' == objs[path := objs[path].(perm := Perm(perm.uid, perm.gid, objs[path].perm.mode))])
    case Symlink(_, _) => objs' == objs
  }

  class FileTree {
    const works: nat -> bool  // whether the n-th system call succeeds
    var objs: Objects
    var clock: nat

    constructor (objs: Objects, works: nat -> bool)
      ensures this.objs == objs && this.works == works && clock == 0
    {
      this.objs, this.works, clock := objs, works, 0;
    }

    ghost predicate AllWork(from: nat, to: nat) {
      forall n | from <= n < to :: works(n)
    }

    method SystemCall() returns (ok: bool)
      modifies this`clock
      ensures clock == old(clock) + 1 && ok == works(old(clock))
    {
      ok := works(clock);
      clock := clock + 1;
    }

    /** dirSetHierarchyPermissions */
    method SetHierarchy(path: Path, d: Defaults) returns (r: int)
      requires Rooted(objs)
      modifies this
      ensures Rooted(objs) && (r == 0 || r == -1) && clock >= old(clock)
      ensures r == 0 <==> path in old(objs) && AllWork(old(clock), clock)
      ensures r == 0 ==> objs == Recursed(old(objs), path, d)
      ensures HalfDone(old(objs), objs, path, d)
      decreases SubtreePaths(objs, path), 1
    {
      hide Rooted, Recursed, HalfDone;
      NothingYet(objs, path, d);
      var found := SystemCall();  // lstat
      if !found || path !in objs {
        return -1;
      }
      var o := objs[path];
      if o.LinkObj? {
        NothingBelow(objs, path, d);
        return 0;
      }
      var owned := SystemCall();  // chown
      if !owned {
        return -1;
      }
      Repainted(objs, WithOwner(o, d), path, d);
      objs := objs[path := WithOwner(o, d)];
      var moded := SystemCall();  // chmod
      if !moded {
        return -1;
      }
      Repainted(old(objs), WithDefaults(o, d), path, d);
      objs := objs[path := WithDefaults(o, d)];
      assert objs == old(objs)[path := WithDefaults(o, d)];
      if o.DirObj? {
        r := SetChildren(path, d);
        RepaintedRest(old(objs), objs, path, d);
      } else {
        NothingBelow(old(objs), path, d);
        r := 0;
      }
    }

    /** Its loop over a directory; the order of the entries is not specified. */
    method SetChildren(path: Path, d: Defaults) returns (r: int)
      requires Rooted(objs) && path in objs && objs[path].DirObj? && objs[path] == WithDefaults(objs[path], d)
      modifies this
      ensures Rooted(objs) && (r == 0 || r == -1) && clock >= old(clock)
      ensures r == 0 <==> AllWork(old(clock), clock)
      ensures r == 0 ==> objs == Recursed(old(objs), path, d)
      ensures HalfDone(old(objs), objs, path, d)
      decreases SubtreePaths(objs, path), 0
    {
      hide Rooted, Recursed, HalfDone, AllBut;
      NothingYet(objs, path, d);
      var listing := SystemCall();  // opendir
      if !listing {
        return -1;
      }
      var remaining, failed, more := ChildNames(objs, path), false, true;
      AllRemain(objs, path, d);
      while !failed && more
        invariant clock > old(clock) && Rooted(objs) && objs.Keys == old(objs).Keys
        invariant failed <==> !AllWork(old(clock), clock)
        invariant remaining <= ChildNames(old(objs), path) && (!more ==> remaining == {})
        invariant HalfDone(old(objs), objs, path, d)
        invariant !failed ==> AllBut(old(objs), objs, path, d, remaining)
        decreases remaining, more, !failed
      {
        var read := SystemCall();  // readdir
        if !read {
          failed := true;
        } else if remaining == {} {
          more := false;
        } else {
          var name :| name in remaining;
          ghost var before := objs;
          ChildIsSmaller(old(objs), objs, path, name);
          var done := SetHierarchy(path + [name], d);
          HalfDoneKeys(before, objs, path + [name], d);
          ChildHalfDone(old(objs), before, objs, path, d, remaining, name);
          if done == 0 {
            ChildDone(old(objs), before, path, d, remaining, name);
            remaining := remaining - {name};
          } else {
            failed := true;
          }
        }
      }
      var closed := SystemCall();  // closedir
      if failed || !closed {
        return -1;
      }
      NoneRemain(old(objs), objs, path, d);
      r := 0;
    }

    /** One path of set_perm. A link, which chown would follow, is taken to fail. */
    method SetOne(perm: Perm, path: Path) returns (r: int)
      requires Rooted(objs)
      modifies this
      ensures Rooted(objs) && (r == 0 || r == 1) && clock >= old(clock)
      ensures r == 0 <==> Step(old(objs), SetPerm(perm, path)).Some? && AllWork(old(clock), clock)
      ensures r == 0 ==> objs == Step(old(objs), SetPerm(perm, path)).value
      ensures r == 1 ==> Interrupted(old(objs), SetPerm(perm, path), objs)
    {
      hide Rooted;
      var owned := SystemCall();  // chown
      if !owned || path !in objs || objs[path].LinkObj? {
        return 1;
      }
      var o := objs[path];
      SetKeepsRooted(objs, path, Perm(perm.uid, perm.gid, o.perm.mode));
      objs := objs[path := o.(perm := Perm(perm.uid, perm.gid, o.perm.mode))];
      var moded := SystemCall();  // chmod
      if !moded {
        return 1;
      }
      SetKeepsRooted(objs, path, perm);
      objs := objs[path := objs[path].(perm := perm)];
      assert objs == old(objs)[path := o.(perm := perm)];
      r := 0;
    }

    method MakeLink(target: string, path: Path) returns (r: int)
      requires Rooted(objs)
      modifies this
      ensures Rooted(objs) && (r == 0 || r == 1) && clock >= old(clock)
      ensures r == 0 <==> Step(old(objs), Symlink(target, path)).Some? && AllWork(old(clock), clock)
      ensures r == 0 ==> objs == Step(old(objs), Symlink(target, path)).value
      ensures r == 1 ==> objs == old(objs)
    {
      hide Rooted;
      var linked := SystemCall();  // symlink
      if !linked || path in objs || path == [] || path[..|path|-1] !in objs || !objs[path[..|path|-1]].DirObj? {
        return 1;
      }
      LinkKeepsRooted(objs, path, target);
      objs := objs[path := LinkObj(target)];
      r := 0;
    }

    /** cmd_set_perm, for set_perm_recursive and set_perm, and cmd_symlink */
    method Execute(c: Command) returns (r: int)
      requires Rooted(objs)
      modifies this
      ensures Rooted(objs) && (r == 0 || r == 1) && clock >= old(clock)
      ensures r == 0 <==> Step(old(objs), c).Some? && AllWork(old(clock), clock)
      ensures r == 0 ==> objs == Step(old(objs), c).value
      ensures r == 1 ==> Interrupted(old(objs), c, objs)
    {
      hide Rooted, Recursed, HalfDone;
      match c
      case SetPermRecursive(d, path) =>
        var failed := SetHierarchy(path, d);
        r := if failed == 0 then 0 else 1;
      case SetPerm(perm, path) =>
        r := SetOne(perm, path);
      case Symlink(target, path) =>
        r := MakeLink(target, path);
    }

    /** A script stops at its first failing command: what was before it is done, what was
        behind it is not, and it may have done part of its own work. */
    method RunScript(script: seq<Command>) returns (ok: bool)
      requires Rooted(objs)
      modifies this
      ensures Rooted(objs) && clock >= old(clock)
      ensures ok <==> Exec(old(objs), script).Some? && AllWork(old(clock), clock)
      ensures ok ==> Exec(old(objs), script) == Some(objs)
      ensures !ok ==> exists i | 0 <= i < |script| :: StoppedAt(old(objs), script, i, objs)
    {
      ExecNothing(objs);
      assert script[..0] == [];
      hide Step, Exec, Rooted, Interrupted;
      var i := 0;
      while i < |script|
        invariant 0 <= i <= |script| && Rooted(objs) && clock >= old(clock)
        invariant Exec(old(objs), script[..i]) == Some(objs) && AllWork(old(clock), clock)
      {
        ghost var before := objs;
        var failed := Execute(script[i]);
        ExecStep(old(objs), script, i);
        if failed != 0 {
          assert StoppedAt(old(objs), script, i, objs);
          if Step(before, script[i]).None? { ExecFails(old(objs), script, i + 1); }
          return false;
        }
        i := i + 1;
      }
      assert script[..i] == script;
      ok := true;
    }
  }

  // ---------------------------------------------------------------- scripts as a whole

  /** One command when no system call fails. */
  ghost function Step(objs: Objects, c: Command): Option<Objects> {
    match c
    case SetPermRecursive(d, path) =>
      if path in objs then Some(Recursed(objs, path, d)) else None
    case SetPerm(perm, path) =>
      if path in objs && !objs[path].LinkObj? then Some(objs[path := objs[path].(perm := perm)]) else None
    case Symlink(target, path) =>
      if path !in objs && path != [] && path[..|path|-1] in objs && objs[path[..|path|-1]].DirObj? then
        Some(objs[path := LinkObj(target)])
      else None
  }

  ghost function Exec(objs: Objects, script: seq<Command>): Option<Objects> {
    if script == [] then Some(objs)
    else
      match Exec(objs, script[..|script|-1])
      case None => None
      case Some(mid) => Step(mid, script[|script|-1])
  }

  lemma ExecNothing(objs: Objects)
    ensures Exec(objs, []) == Some(objs)
  {
  }

  lemma ExecStep(objs: Objects, script: seq<Command>, i: nat)
    requires i < |script|
    ensures Exec(objs, script[..i + 1]) ==
      match Exec(objs, script[..i]) { case None => None case Some(mid) => Step(mid, script[i]) }
  {
    assert script[..i + 1][..i] == script[..i];
  }

  lemma {:induction false} ExecFails(objs: Objects, script: seq<Command>, i: nat)
    requires i <= |script| && Exec(objs, script[..i]).None?
    ensures Exec(objs, script).None?
    decreases |script|
  {
    if i == |script| {
      assert script[..i] == script;
    } else {
      var front := script[..|script|-1];
      assert front[..i] == script[..i];
      ExecFails(objs, front, i);
    }
  }

  function CellOf(objs: Objects, p: Path): Cell {
    if p in objs then Present(objs[p]) else Absent
  }

  lemma StepAt(objs: Objects, c: Command, p: Path)
    requires Step(objs, c).Some?
    ensures Affect(c, p, CellOf(objs, p)) == CellOf(Step(objs, c).value, p)
  {
  }

  lemma StepFailsAt(objs: Objects, c: Command) returns (p: Path)
    requires Rooted(objs) && [] in objs && Step(objs, c).None?
    ensures Affect(c, p, CellOf(objs, p)) == Failed
  {
    p := c.path;
    if c.Symlink? && p !in objs { p := p[..|p|-1]; }
  }

  lemma {:induction false} FailedStays(script: seq<Command>, p: Path)
    ensures After(script, p, Failed) == Failed
  {
    if script != [] { FailedStays(script[..|script|-1], p); }
  }

  lemma StepKeepsRoot(objs: Objects, c: Command)
    requires Rooted(objs) && [] in objs && Step(objs, c).Some?
    ensures Rooted(Step(objs, c).value) && [] in Step(objs, c).value
  {
  }

  ghost predicate StoppedAt(objs: Objects, script: seq<Command>, i: nat, objs': Objects)
    requires i < |script|
  {
    Exec(objs, script[..i]).Some? && Interrupted(Exec(objs, script[..i]).value, script[i], objs')
  }

  /** A script works exactly when it fails at no path, and does at each path what its
      commands do there. */
  lemma {:induction false} ExecIsPointwise(objs: Objects, script: seq<Command>)
    requires Rooted(objs) && [] in objs
    ensures Exec(objs, script).Some? <==> forall p: Path :: After(script, p, CellOf(objs, p)) != Failed
    ensures Exec(objs, script).Some? ==> forall p: Path :: After(script, p, CellOf(objs, p)) == CellOf(Exec(objs, script).value, p)
    ensures Exec(objs, script).Some? ==> Rooted(Exec(objs, script).value) && [] in Exec(objs, script).value
  {
    if script != [] {
      var front, last := script[..|script|-1], script[|script|-1];
      ExecIsPointwise(objs, front);
      if Exec(objs, front).None? {
        var p :| After(front, p, CellOf(objs, p)) == Failed;
        assert After(script, p, CellOf(objs, p)) == Affect(last, p, Failed);
      } else {
        var mid := Exec(objs, front).value;
        if Step(mid, last).None? {
          var p := StepFailsAt(mid, last);
          assert After(script, p, CellOf(objs, p)) == Failed;
        } else {
          StepKeepsRoot(mid, last);
          forall p: Path ensures After(script, p, CellOf(objs, p)) == CellOf(Step(mid, last).value, p) {
            StepAt(mid, last, p);
          }
        }
      }
    }
  }

  // ---------------------------------------------------------------- the guarantee

  /** The tree has been copied to `path`, without its links, with whatever permissions. */
  ghost predicate Copied(objs: Objects, path: Path, node: Node) {
    forall p | path <= p :: Ready(NodeAt(node, p[|path|..]), NO_DEFAULTS, false, CellOf(objs, p))
  }

  /** Running the compiled script succeeds and leaves every directory and file of the tree
      with exactly its permissions from the table, every link in place, and everything
      else alone; only paths without a command of their own keep what they had. */
  lemma ScriptSetsTable(objs: Objects, cfg: Table, path: Path, node: Node)
    requires Rooted(objs) && [] in objs && node.Dir? && WellFormed(node) && Copied(objs, path, node)
    ensures var r := Exec(objs, Compile(cfg, path, node, NO_DEFAULTS));
      r.Some? && forall p: Path :: CellOf(r.value, p) == Outcome(cfg, path, node, NO_DEFAULTS, false, p, CellOf(objs, p))
  {
    hide Compile, After, Exec, NodeAt, Lost;
    var script := Compile(cfg, path, node, NO_DEFAULTS);
    forall p: Path ensures After(script, p, CellOf(objs, p)) == Outcome(cfg, path, node, NO_DEFAULTS, false, p, CellOf(objs, p))
    {
      if path != [] && p == path[..|path|-1] {
        RootIsDir(node);
        assert path[|path|..] == [];
        AncestorIsDir(objs, path, p);
      }
      CompileSets(cfg, path, node, NO_DEFAULTS, false, p, CellOf(objs, p));
    }
    ExecIsPointwise(objs, script);
  }

  /** The script sets the whole table, whatever permissions the copy has, if and only if it
      has a command for the directory it starts with. That fails exactly if the table has
      -1 for this directory, and for the first of its files or subdirectories if that is a
      file. */
  lemma TableIsSetIff(objs: Objects, cfg: Table, path: Path, node: Node)
    requires Rooted(objs) && [] in objs && node.Dir? && WellFormed(node) && Copied(objs, path, node)
    requires path in objs && objs[path].DirObj? && objs[path].perm != NO_DEFAULTS.OfDir()
    ensures var r := Exec(objs, Compile(cfg, path, node, NO_DEFAULTS));
      && r.Some?
      && ((forall p | path <= p :: CellOf(r.value, p) == Wanted(cfg, p, NodeAt(node, p[|path|..]))) <==>
          Covers(cfg, path, node, NO_DEFAULTS))
    ensures var k := FirstReal(node.entries);
      Covers(cfg, path, node, NO_DEFAULTS) <==>
        || cfg(path, true) != NO_DEFAULTS.OfDir()
        || (k < |node.entries| && node.entries[k].node.File? &&
            cfg(path + [node.entries[k].name], false) != NO_DEFAULTS.OfFile())
  {
    ScriptSetsTable(objs, cfg, path, node);
    RootIsDir(node);
    assert path[|path|..] == [] && path <= path;
    var r := Exec(objs, Compile(cfg, path, node, NO_DEFAULTS)).value;
    if !Covers(cfg, path, node, NO_DEFAULTS) {
      assert CellOf(r, path) == CellOf(objs, path);
      assert cfg(path, true) == NO_DEFAULTS.OfDir();
    } else {
      forall p | path <= p ensures CellOf(r, p) == Wanted(cfg, p, NodeAt(node, p[|path|..])) {
        assert !Lost(cfg, path, node, NO_DEFAULTS, p);
      }
    }
  }

  lemma RootIsDir(node: Node)
    ensures NodeAt(node, []) == Some(node)
  {
  }

  /** With a table that uses the sentinel the compiler can leave out a permission: running
      its script for an empty directory leaves any other permission as it was. */
  lemma SentinelIsLost(perm: Perm)
    requires perm != NO_DEFAULTS.OfDir()
    ensures var cfg: Table := (p, dir) => Perm(UNSET, UNSET, UNSET);
      var objs: Objects := map[[] := DirObj(perm)];
      && Rooted(objs) && WellFormed(Dir([])) && Copied(objs, [], Dir([]))
      && Exec(objs, Compile(cfg, [], Dir([]), NO_DEFAULTS)) == Some(objs)
      && objs[[]].perm != cfg([], true)
  {
    var cfg: Table := (p, dir) => Perm(UNSET, UNSET, UNSET);
    assert Compile(cfg, [], Dir([]), NO_DEFAULTS) == [];
    assert Exec(map[[] := DirObj(perm)], []) == Some(map[[] := DirObj(perm)]);
  }
}
