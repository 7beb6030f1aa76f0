/** tools/ota/make-update-script.c: compiling a directory tree and a permission table
    into a short list of commands, and why running them gives every object exactly its
    permissions from the table.

    Commands are meant as commands.c and minzip/DirUtil.c run them. A command acts on
    every path independently of what is at the others, so a script's meaning is given
    one path at a time. */
module Permissions {
  import opened Words  // And
  import opened Wrappers  // Option

  type Word = w: nat | w < 0x1_0000_0000

  // -1, standing for defaults that match nothing
  const UNSET: Word := 0xFFFF_FFFF

  type Path = seq<string>

  datatype Perm = Perm(uid: Word, gid: Word, mode: Word)

  // A directory tree on the build host, entries in the order readdir gives them and
  // without "." and "..". Whatever is neither directory nor link counts as a file.
  datatype Node =
    | Dir(entries: seq<Entry>)
    | File
    | Link(target: string)
  datatype Entry = Entry(name: string, node: Node)

  // Permissions by path, for a directory or for a file.
  type Table = (Path, bool) -> Perm

  datatype Defaults = Defaults(uid: Word, gid: Word, dirMode: Word, fileMode: Word) {
    function OfDir(): Perm { Perm(uid, gid, dirMode) }

    function OfFile(): Perm { Perm(uid, gid, fileMode) }
  }

  const NO_DEFAULTS := Defaults(UNSET, UNSET, UNSET, UNSET)

  datatype Command =
    | SetPermRecursive(perms: Defaults, path: Path)
    | SetPerm(perm: Perm, path: Path)
    | Symlink(target: string, path: Path)

  // ---------------------------------------------------------------- what commands do

  datatype Obj =
    | DirObj(perm: Perm)
    | FileObj(perm: Perm)
    | LinkObj(target: string)

  // What a script makes of one path; Failed when a command cannot do its work there.
  datatype Cell =
    | Present(obj: Obj)
    | Absent
    | Failed

  function WithDefaults(o: Obj, d: Defaults): Obj {
    match o
    case DirObj(_) => DirObj(d.OfDir())
    case FileObj(_) => FileObj(d.OfFile())
    case LinkObj(_) => o
  }

  function Affect(c: Command, p: Path, cell: Cell): Cell {
    match c
    case SetPermRecursive(d, path) =>
      if cell.Present? && path <= p then Present(WithDefaults(cell.obj, d))
      else if p == path then Failed
      else cell
    case SetPerm(perm, path) =>
      if p != path then cell
      else if cell.Present? && !cell.obj.LinkObj? then Present(cell.obj.(perm := perm))
      else Failed
    case Symlink(target, path) =>
      if p == path then (if cell.Absent? then Present(LinkObj(target)) else Failed)
      else if path != [] && p == path[..|path|-1] && !(cell.Present? && cell.obj.DirObj?) then Failed
      else cell
  }

  /** A script's effect at one path. */
  function After(script: seq<Command>, p: Path, cell: Cell): Cell {
    if script == [] then cell
    else Affect(script[|script|-1], p, After(script[..|script|-1], p, cell))
  }

  lemma {:induction false} AfterAppend(a: seq<Command>, b: seq<Command>, p: Path, cell: Cell)
    ensures After(a + b, p, cell) == After(b, p, After(a, p, cell))
  {
    if b == [] {
      assert a + b == a;
    } else {
      assert (a + b)[..|a + b| - 1] == a + b[..|b|-1];
      AfterAppend(a, b[..|b|-1], p, cell);
    }
  }

  lemma AfterOne(c: Command, p: Path, cell: Cell)
    ensures After([c], p, cell) == Affect(c, p, cell)
  {
    assert [c][..0] == [];
  }

  // ---------------------------------------------------------------- the compiler

  function FirstReal(entries: seq<Entry>): (k: nat)
    ensures k <= |entries| && (forall i | 0 <= i < k :: entries[i].node.Link?)
    ensures k < |entries| ==> !entries[k].node.Link?
  {
    if entries == [] || !entries[0].node.Link? then 0
    else
      var k := FirstReal(entries[1..]);
      assert forall i | 1 <= i < 1 + k :: entries[i] == entries[1..][i - 1];
      1 + k
  }

  /** The first file or directory decides whether new defaults are needed for the whole
      directory... */
  predicate Mismatch(cfg: Table, path: Path, e: Entry, d: Defaults) {
    var dp := cfg(path, true);
    match e.node
    case Link(_) => false
    case Dir(_) => dp != d.OfDir()
    case File =>
      var fp := cfg(path + [e.name], false);
      dp != d.OfDir() || fp != d.OfFile()
  }

  /** A made-up file mode: what the directory and the old default both allow, without
      execute bits. */
  function FileModeUnder(dirMode: Word, fileMode: Word): (m: Word)
    ensures m <= 0x1B6
  {
    And(And(dirMode, fileMode), 0x1B6)
  }

  /** From -1 files get the directory's own mode without execute bits. */
  lemma MadeUpFileMode(dirMode: Word)
    ensures FileModeUnder(dirMode, UNSET) == And(dirMode, 0x1B6)
  {
    Pow2Of32();
    MaskIsMod(dirMode, 32);
    hide And;
    assert And(dirMode, UNSET) == dirMode;
  }

  /** ... and what they are. */
  function Adopt(cfg: Table, path: Path, e: Entry, d: Defaults): Defaults {
    var dp := cfg(path, true);
    if !Mismatch(cfg, path, e, d) then d
    else if e.node.Dir? then Defaults(dp.uid, dp.gid, dp.mode, FileModeUnder(dp.mode, d.fileMode))
    else Defaults(dp.uid, dp.gid, dp.mode, cfg(path + [e.name], false).mode)
  }

  function Announce(cfg: Table, path: Path, e: Entry, d: Defaults): seq<Command> {
    if Mismatch(cfg, path, e, d) then [SetPermRecursive(Adopt(cfg, path, e, d), path)] else []
  }

  function Adjust(perm: Perm, default: Perm, path: Path): seq<Command> {
    if perm != default then [SetPerm(perm, path)] else []
  }

  /** Commands for one object when its subtree may be assumed to be at the defaults d. */
  function Compile(cfg: Table, path: Path, node: Node, d: Defaults): seq<Command>
    decreases node, 1, 0
  {
    match node
    case Link(target) => [Symlink(target, path)]
    case File => Adjust(cfg(path, false), d.OfFile(), path)
    case Dir(entries) =>
      var k := FirstReal(entries);
      var d' := SubtreeDefaults(cfg, path, entries, d);
      CompileEntries(cfg, path, node, 0, k, d) + SubtreeCommands(cfg, path, entries, d) +
        CompileEntries(cfg, path, node, k, |entries|, d') + Adjust(cfg(path, true), d'.OfDir(), path)
  }

  function SubtreeDefaults(cfg: Table, path: Path, entries: seq<Entry>, d: Defaults): Defaults {
    var k := FirstReal(entries);
    if k < |entries| then Adopt(cfg, path, entries[k], d) else d
  }

  function SubtreeCommands(cfg: Table, path: Path, entries: seq<Entry>, d: Defaults): seq<Command> {
    var k := FirstReal(entries);
    if k < |entries| then Announce(cfg, path, entries[k], d) else []
  }

  function CompileEntries(cfg: Table, path: Path, node: Node, i: nat, j: nat, d: Defaults): seq<Command>
    requires node.Dir? && i <= j <= |node.entries|
    decreases node, 0, j
  {
    if i == j then []
    else
      var e := node.entries[j - 1];
      CompileEntries(cfg, path, node, i, j - 1, d) + Compile(cfg, path + [e.name], e.node, d)
  }

  // ---------------------------------------------------------------- how short scripts are

  ghost predicate OnlyLinks(script: seq<Command>) {
    forall i | 0 <= i < |script| :: script[i].Symlink?
  }

  /** The table has these permissions from here on. */
  ghost predicate Uniform(cfg: Table, path: Path, d: Defaults) {
    forall p: Path | path <= p :: cfg(p, true) == d.OfDir() && cfg(p, false) == d.OfFile()
  }

  /** A subtree that is at its permissions needs no commands but for its links. */
  lemma {:induction false} FittingNeedsNothing(cfg: Table, path: Path, node: Node, d: Defaults)
    requires Uniform(cfg, path, d)
    ensures OnlyLinks(Compile(cfg, path, node, d))
    decreases node, 1, 0
  {
    if node.Dir? {
      var k, n := FirstReal(node.entries), |node.entries|;
      EntriesNeedNothing(cfg, path, node, 0, k, d);
      EntriesNeedNothing(cfg, path, node, k, n, d);
    }
  }

  lemma UniformBelow(cfg: Table, path: Path, name: string, d: Defaults)
    requires Uniform(cfg, path, d)
    ensures Uniform(cfg, path + [name], d)
  {
    forall p: Path | path + [name] <= p ensures cfg(p, true) == d.OfDir() && cfg(p, false) == d.OfFile() {
      assert path <= p;
    }
  }

  lemma {:induction false} EntriesNeedNothing(cfg: Table, path: Path, node: Node, i: nat, j: nat, d: Defaults)
    requires node.Dir? && i <= j <= |node.entries| && Uniform(cfg, path, d)
    ensures OnlyLinks(CompileEntries(cfg, path, node, i, j, d))
    decreases node, 0, j
  {
    if i < j {
      var e := node.entries[j - 1];
      EntriesNeedNothing(cfg, path, node, i, j - 1, d);
      UniformBelow(cfg, path, e.name, d);
      FittingNeedsNothing(cfg, path + [e.name], e.node, d);
    }
  }

  ghost predicate OneAmongLinks(script: seq<Command>, i: nat, c: Command)
    requires i < |script|
  {
    script[i] == c && forall j | 0 <= j < |script| && j != i :: script[j].Symlink?
  }

  /** A tree with one permission for all its directories and one for all its files takes one
      recursive command, if its first entry that is no link is a file. */
  lemma UniformTakesOne(cfg: Table, path: Path, node: Node, d: Defaults) returns (i: nat)
    requires node.Dir? && Uniform(cfg, path, d) && d.OfDir() != NO_DEFAULTS.OfDir()
    requires FirstReal(node.entries) < |node.entries| && node.entries[FirstReal(node.entries)].node.File?
    ensures var script := Compile(cfg, path, node, NO_DEFAULTS);
      i < |script| && OneAmongLinks(script, i, SetPermRecursive(d, path))
  {
    var k, n := FirstReal(node.entries), |node.entries|;
    var links, rest := CompileEntries(cfg, path, node, 0, k, NO_DEFAULTS), CompileEntries(cfg, path, node, k, n, d);
    var script := Compile(cfg, path, node, NO_DEFAULTS);
    var child := path + [node.entries[k].name];
    assert path <= child && cfg(child, false) == d.OfFile() && cfg(path, true) == d.OfDir();
    LinksOnly(cfg, path, node, k, NO_DEFAULTS);
    EntriesNeedNothing(cfg, path, node, k, n, d);
    assert SubtreeDefaults(cfg, path, node.entries, NO_DEFAULTS) == d;
    assert SubtreeCommands(cfg, path, node.entries, NO_DEFAULTS) == [SetPermRecursive(d, path)];
    hide CompileEntries, SubtreeCommands, SubtreeDefaults, FirstReal, Uniform;
    assert script == links + [SetPermRecursive(d, path)] + rest;
    assert forall j | |links| < j < |script| :: script[j] == rest[j - |links| - 1];
    i := |links|;
  }

  /** Entries before the first file or directory are links. */
  lemma {:induction false} LinksOnly(cfg: Table, path: Path, node: Node, j: nat, d: Defaults)
    requires node.Dir? && j <= FirstReal(node.entries)
    ensures OnlyLinks(CompileEntries(cfg, path, node, 0, j, d))
    decreases j
  {
    if j > 0 {
      var e := node.entries[j - 1];
      LinksOnly(cfg, path, node, j - 1, d);
      CompiledLink(cfg, path + [e.name], e.node, d);
    }
  }

  /** Output of the compiler. */
  class Script {
    var commands: seq<Command>

    constructor ()
      ensures commands == []
    {
      commands := [];
    }

    method Print(c: Command)
      modifies this
      ensures commands == old(commands) + [c]
    {
      commands := commands + [c];
    }
  }

  /** The output after the first i entries. */
  ghost function Progress(cfg: Table, path: Path, node: Node, d: Defaults, i: nat): seq<Command>
    requires node.Dir? && i <= |node.entries|
  {
    var k := FirstReal(node.entries);
    if i <= k then CompileEntries(cfg, path, node, 0, i, d)
    else
      CompileEntries(cfg, path, node, 0, k, d) + SubtreeCommands(cfg, path, node.entries, d) +
        CompileEntries(cfg, path, node, k, i, SubtreeDefaults(cfg, path, node.entries, d))
  }

  ghost function Announced(cfg: Table, path: Path, node: Node, d: Defaults, i: nat): seq<Command>
    requires node.Dir?
  {
    if i == FirstReal(node.entries) then SubtreeCommands(cfg, path, node.entries, d) else []
  }

  ghost function Current(cfg: Table, path: Path, node: Node, d: Defaults, i: nat): Defaults
    requires node.Dir?
  {
    if i <= FirstReal(node.entries) then d else SubtreeDefaults(cfg, path, node.entries, d)
  }

  lemma ProgressStep(cfg: Table, path: Path, node: Node, d: Defaults, i: nat, before: seq<Command>)
    requires node.Dir? && i < |node.entries|
    ensures var e := node.entries[i];
      before + Progress(cfg, path, node, d, i + 1) ==
      before + Progress(cfg, path, node, d, i) + Announced(cfg, path, node, d, i) +
        Compile(cfg, path + [e.name], e.node, Current(cfg, path, node, d, i + 1))
  {
    hide Compile, SubtreeCommands, SubtreeDefaults, FirstReal;
    var e, k := node.entries[i], FirstReal(node.entries);
    if i < k {
      LinksIgnoreDefaults(cfg, path + [e.name], e.node, d, Current(cfg, path, node, d, i + 1));
    } else if i == k {
      assert CompileEntries(cfg, path, node, k, k, SubtreeDefaults(cfg, path, node.entries, d)) == [];
    }
  }

  lemma LinksIgnoreDefaults(cfg: Table, path: Path, node: Node, d: Defaults, d': Defaults)
    ensures node.Link? ==> Compile(cfg, path, node, d) == Compile(cfg, path, node, d')
  {
  }

  /** The two conditions under which the first file or subdirectory changes the defaults. */
  method AdoptDefaults(script: Script, cfg: Table, path: Path, e: Entry, defaults: Defaults) returns (d: Defaults)
    requires !e.node.Link?
    modifies script
    ensures d == Adopt(cfg, path, e, defaults)
    ensures script.commands == old(script.commands) + Announce(cfg, path, e, defaults)
  {
    d := defaults;
    var dirPerm := cfg(path, true);
    if e.node.Dir? {
      if dirPerm.mode != d.dirMode || dirPerm.uid != d.uid || dirPerm.gid != d.gid {
        d := Defaults(dirPerm.uid, dirPerm.gid, dirPerm.mode, FileModeUnder(dirPerm.mode, d.fileMode));
        script.Print(SetPermRecursive(d, path));
      }
    } else {
      var filePerm := cfg(path + [e.name], false);
      if dirPerm.mode != d.dirMode || filePerm.mode != d.fileMode ||
         dirPerm.uid != d.uid || filePerm.uid != d.uid ||
         dirPerm.gid != d.gid || filePerm.gid != d.gid {
        d := Defaults(dirPerm.uid, dirPerm.gid, dirPerm.mode, filePerm.mode);
        script.Print(SetPermRecursive(d, path));
      }
    }
  }

  method AdjustPerm(script: Script, perm: Perm, uid: Word, gid: Word, mode: Word, path: Path)
    modifies script
    ensures script.commands == old(script.commands) + Adjust(perm, Perm(uid, gid, mode), path)
  {
    if perm.mode != mode || perm.uid != uid || perm.gid != gid {
      script.Print(SetPerm(perm, path));
    }
  }

  /** walk_files */
  method WalkFiles(script: Script, cfg: Table, path: Path, node: Node, defaults: Defaults)
    requires node.Dir?
    modifies script
    ensures script.commands == old(script.commands) + Compile(cfg, path, node, defaults)
    decreases node
  {
    assert Progress(cfg, path, node, defaults, 0) == [];
    hide Compile, CompileEntries, Progress, Adopt, Announce, Adjust, FirstReal;
    var entries, dirPerm := node.entries, cfg(path, true);
    var d, isFirst, i := defaults, true, 0;
    ghost var start := script.commands;
    while i < |entries|
      invariant 0 <= i <= |entries| && (isFirst <==> i <= FirstReal(entries))
      invariant d == Current(cfg, path, node, defaults, i)
      invariant script.commands == start + Progress(cfg, path, node, defaults, i)
    {
      var e := entries[i];
      var child := path + [e.name];
      ProgressStep(cfg, path, node, defaults, i, start);
      if e.node.Link? {
        CompiledLink(cfg, child, e.node, d);
        script.Print(Symlink(e.node.target, child));
      } else {
        if isFirst {
          d := AdoptDefaults(script, cfg, path, e, d);
        }
        isFirst := false;
        if e.node.Dir? {
          WalkFiles(script, cfg, child, e.node, d);
        } else {
          CompiledFile(cfg, child, e.node, d);
          AdjustPerm(script, cfg(child, false), d.uid, d.gid, d.fileMode, child);
        }
      }
      i := i + 1;
    }
    CompiledDir(cfg, path, node, defaults, start);
    AdjustPerm(script, dirPerm, d.uid, d.gid, d.dirMode, path);
  }

  lemma CompiledLink(cfg: Table, path: Path, node: Node, d: Defaults)
    requires node.Link?
    ensures Compile(cfg, path, node, d) == [Symlink(node.target, path)]
  {
  }

  lemma CompiledFile(cfg: Table, path: Path, node: Node, d: Defaults)
    requires node.File?
    ensures Compile(cfg, path, node, d) == Adjust(cfg(path, false), d.OfFile(), path)
  {
  }

  lemma CompiledDir(cfg: Table, path: Path, node: Node, d: Defaults, before: seq<Command>)
    requires node.Dir?
    ensures var n := |node.entries|;
      before + Compile(cfg, path, node, d) == before + Progress(cfg, path, node, d, n) +
        Adjust(cfg(path, true), Current(cfg, path, node, d, n).OfDir(), path)
  {
    var n, k := |node.entries|, FirstReal(node.entries);
    if n == k {
      assert CompileEntries(cfg, path, node, k, n, SubtreeDefaults(cfg, path, node.entries, d)) == [];
    }
    hide CompileEntries, SubtreeCommands;
  }

  // ---------------------------------------------------------------- what the table asks for

  ghost predicate DistinctNames(entries: seq<Entry>) {
    forall i, j | 0 <= i < j < |entries| :: entries[i].name != entries[j].name
  }

  ghost predicate WellFormed(node: Node) {
    node.Dir? ==> DistinctNames(node.entries) && forall i | 0 <= i < |node.entries| :: WellFormed(node.entries[i].node)
  }

  function Lookup(entries: seq<Entry>, name: string): (k: nat)
    ensures k <= |entries| && (k < |entries| ==> entries[k].name == name)
    ensures forall i | 0 <= i < k :: entries[i].name != name
  {
    if entries == [] || entries[0].name == name then 0
    else
      var k := Lookup(entries[1..], name);
      assert forall i | 1 <= i < 1 + k :: entries[i] == entries[1..][i - 1];
      1 + k
  }

  /** The object at a path below a node. */
  function NodeAt(node: Node, rel: Path): Option<Node>
    decreases |rel|
  {
    if rel == [] then Some(node)
    else if !node.Dir? then None
    else
      var k := Lookup(node.entries, rel[0]);
      if k < |node.entries| then NodeAt(node.entries[k].node, rel[1..]) else None
  }

  /** What should be at a path in the end. */
  function Wanted(cfg: Table, p: Path, node: Option<Node>): Cell {
    match node
    case None => Absent
    case Some(Dir(_)) => Present(DirObj(cfg(p, true)))
    case Some(File) => Present(FileObj(cfg(p, false)))
    case Some(Link(target)) => Present(LinkObj(target))
  }

  /** What must be there before: the same object, with the default permissions if these are
      known to be there, and no link. */
  ghost predicate Ready(node: Option<Node>, d: Defaults, known: bool, cell: Cell) {
    match node
    case None => cell.Absent?
    case Some(Dir(_)) => IsDir(cell) && (known ==> cell.obj.perm == d.OfDir())
    case Some(File) => cell.Present? && cell.obj.FileObj? && (known ==> cell.obj.perm == d.OfFile())
    case Some(Link(_)) => cell.Absent?
  }

  ghost predicate IsDir(cell: Cell) { cell.Present? && cell.obj.DirObj? }

  /** A directory gets a command of its own: the recursive one, or the last. */
  predicate Covers(cfg: Table, path: Path, node: Node, d: Defaults)
    requires node.Dir?
  {
    var k := FirstReal(node.entries);
    if k < |node.entries| then Mismatch(cfg, path, node.entries[k], d) else cfg(path, true) != d.OfDir()
  }

  /** No command gives p a permission: everything on the way to it seems to be at the
      defaults. */
  ghost predicate Lost(cfg: Table, path: Path, node: Node, d: Defaults, p: Path)
    decreases node, 1
  {
    match node
    case Link(_) => false
    case File => p == path && cfg(path, false) == d.OfFile()
    case Dir(entries) =>
      !Covers(cfg, path, node, d) && (p == path || (path < p && LostIn(cfg, path, node, d, p)))
  }

  ghost predicate LostIn(cfg: Table, path: Path, node: Node, d: Defaults, p: Path)
    requires node.Dir? && path < p
    decreases node, 0
  {
    var v := Via(path, node, p);
    v < |node.entries| && Lost(cfg, path + [node.entries[v].name], node.entries[v].node, d, p)
  }

  /** What the subtree of `node` at `path` makes of path p. */
  ghost function Outcome(cfg: Table, path: Path, node: Node, d: Defaults, known: bool, p: Path, cell: Cell): Cell {
    if path <= p && (known || !Lost(cfg, path, node, d, p)) then Wanted(cfg, p, NodeAt(node, p[|path|..])) else cell
  }

  ghost predicate Expects(path: Path, node: Node, d: Defaults, known: bool, p: Path, cell: Cell) {
    && (path <= p ==> Ready(NodeAt(node, p[|path|..]), d, known, cell))
    && (path != [] && p == path[..|path|-1] ==> IsDir(cell))
  }

  /** Compiled commands give one path what it should have, unless the defaults only seem to
      be there, and no other command of the subtree disturbs it. */
  lemma {:induction false} CompileSets(cfg: Table, path: Path, node: Node, d: Defaults, known: bool, p: Path, cell: Cell)
    requires WellFormed(node) && Expects(path, node, d, known, p, cell)
    ensures After(Compile(cfg, path, node, d), p, cell) == Outcome(cfg, path, node, d, known, p, cell)
    decreases node, 1, 0
  {
    if p == path { assert p[|path|..] == []; }
    match node
    case Link(target) =>
      CompiledLink(cfg, path, node, d);
      AfterOne(Symlink(target, path), p, cell);
    case File =>
      CompiledFile(cfg, path, node, d);
      AfterAdjust(cfg(path, false), d.OfFile(), path, p, cell);
    case Dir(entries) =>
      DirSets(cfg, path, node, d, known, p, cell);
  }

  lemma AfterAdjust(perm: Perm, default: Perm, path: Path, p: Path, cell: Cell)
    ensures After(Adjust(perm, default, path), p, cell) ==
      if perm != default then Affect(SetPerm(perm, path), p, cell) else cell
  {
    if perm != default { AfterOne(SetPerm(perm, path), p, cell); }
  }

  /** Which entry of a directory a path leads to. */
  ghost function Via(path: Path, node: Node, p: Path): nat
    requires node.Dir? && path < p
  {
    Lookup(node.entries, p[|path|])
  }

  lemma ThroughEntry(path: Path, node: Node, p: Path, j: nat)
    requires node.Dir? && DistinctNames(node.entries) && j < |node.entries|
    ensures var child := path + [node.entries[j].name];
      child <= p <==> path < p && Via(path, node, p) == j
    ensures var child := path + [node.entries[j].name];
      child <= p ==> NodeAt(node, p[|path|..]) == NodeAt(node.entries[j].node, p[|child|..])
  {
    var child := path + [node.entries[j].name];
    if child <= p {
      assert p[|path|] == node.entries[j].name;
      assert p[|path|..][1..] == p[|child|..];
    }
  }

  /** The entries i to j of a directory: the one a path leads through sets it, the others
      leave it alone. */
  lemma {:induction false} EntriesSet(cfg: Table, path: Path, node: Node, i: nat, j: nat, d: Defaults, known: bool,
      p: Path, cell: Cell)
    requires node.Dir? && i <= j <= |node.entries| && WellFormed(node)
    requires p == path ==> IsDir(cell)
    requires path < p && i <= Via(path, node, p) < j ==> Ready(NodeAt(node, p[|path|..]), d, known, cell)
    ensures After(CompileEntries(cfg, path, node, i, j, d), p, cell) ==
      if path < p && i <= Via(path, node, p) < j && (known || !LostIn(cfg, path, node, d, p))
      then Wanted(cfg, p, NodeAt(node, p[|path|..])) else cell
    decreases node, 0, j
  {
    if i < j {
      var e := node.entries[j - 1];
      var child := path + [e.name];
      var before := CompileEntries(cfg, path, node, i, j - 1, d);
      assert CompileEntries(cfg, path, node, i, j, d) == before + Compile(cfg, child, e.node, d);
      assert child[..|child|-1] == path && WellFormed(e.node);
      hide Compile, CompileEntries, After, Lost, NodeAt, Wanted, Ready, WellFormed, FirstReal;
      EntriesSet(cfg, path, node, i, j - 1, d, known, p, cell);
      ThroughEntry(path, node, p, j - 1);
      CompileSets(cfg, child, e.node, d, known, p, After(before, p, cell));
      AfterAppend(before, Compile(cfg, child, e.node, d), p, cell);
    }
  }

  /** The directory's own recursive command is given. */
  predicate Announces(cfg: Table, path: Path, entries: seq<Entry>, d: Defaults) {
    var k := FirstReal(entries);
    k < |entries| && Mismatch(cfg, path, entries[k], d)
  }

  /** The recursive command makes the subtree fit the new defaults; without it they
      fitted before. */
  lemma AnnounceFits(cfg: Table, path: Path, entries: seq<Entry>, d: Defaults, known: bool, p: Path, node: Option<Node>,
      cell: Cell)
    requires path <= p && Ready(node, d, known, cell)
    requires p == path ==> node.Some? && node.value.Dir?
    ensures Ready(node, SubtreeDefaults(cfg, path, entries, d), known || Announces(cfg, path, entries, d),
      After(SubtreeCommands(cfg, path, entries, d), p, cell))
  {
    var commands := SubtreeCommands(cfg, path, entries, d);
    if commands != [] {
      AfterOne(commands[0], p, cell);
    }
  }

  lemma NotAnnounced(cfg: Table, path: Path, node: Node, d: Defaults)
    requires node.Dir? && !Announces(cfg, path, node.entries, d)
    ensures SubtreeCommands(cfg, path, node.entries, d) == [] && SubtreeDefaults(cfg, path, node.entries, d) == d
    ensures Covers(cfg, path, node, d) <==> cfg(path, true) != d.OfDir() && FirstReal(node.entries) == |node.entries|
    ensures cfg(path, true) != d.OfDir() ==> FirstReal(node.entries) == |node.entries|
  {
  }

  lemma AnnounceSpares(cfg: Table, path: Path, entries: seq<Entry>, d: Defaults, p: Path, cell: Cell)
    requires !(path <= p) || (path < p && (cell.Absent? || (cell.Present? && cell.obj.LinkObj?)))
    ensures After(SubtreeCommands(cfg, path, entries, d), p, cell) == cell
  {
    var commands := SubtreeCommands(cfg, path, entries, d);
    if commands != [] {
      AfterOne(commands[0], p, cell);
    }
  }

  /** A directory's commands in their four parts. */
  lemma AfterDir(cfg: Table, path: Path, node: Node, d: Defaults, p: Path, cell: Cell)
    requires node.Dir?
    ensures var entries, k := node.entries, FirstReal(node.entries);
      var d' := SubtreeDefaults(cfg, path, entries, d);
      var c1 := After(CompileEntries(cfg, path, node, 0, k, d), p, cell);
      var c2 := After(SubtreeCommands(cfg, path, entries, d), p, c1);
      var c3 := After(CompileEntries(cfg, path, node, k, |entries|, d'), p, c2);
      After(Compile(cfg, path, node, d), p, cell) ==
        if cfg(path, true) != d'.OfDir() then Affect(SetPerm(cfg(path, true), path), p, c3) else c3
  {
    var entries, k := node.entries, FirstReal(node.entries);
    var d' := SubtreeDefaults(cfg, path, entries, d);
    var links, announce := CompileEntries(cfg, path, node, 0, k, d), SubtreeCommands(cfg, path, entries, d);
    var rest, last := CompileEntries(cfg, path, node, k, |entries|, d'), Adjust(cfg(path, true), d'.OfDir(), path);
    hide CompileEntries, SubtreeCommands, SubtreeDefaults, After;
    AfterAppend(links + announce + rest, last, p, cell);
    AfterAppend(links + announce, rest, p, cell);
    AfterAppend(links, announce, p, cell);
    AfterAdjust(cfg(path, true), d'.OfDir(), path, p, After(rest, p, After(announce, p, After(links, p, cell))));
  }

  lemma {:induction false} DirSets(cfg: Table, path: Path, node: Node, d: Defaults, known: bool, p: Path, cell: Cell)
    requires node.Dir?
    requires WellFormed(node) && Expects(path, node, d, known, p, cell)
    ensures After(Compile(cfg, path, node, d), p, cell) == Outcome(cfg, path, node, d, known, p, cell)
    decreases node, 0, |node.entries| + 1
  {
    hide Compile, CompileEntries, After, SubtreeCommands, SubtreeDefaults, Mismatch;
    var entries, k, n := node.entries, FirstReal(node.entries), |node.entries|;
    var d', known' := SubtreeDefaults(cfg, path, entries, d), known || Announces(cfg, path, entries, d);
    AfterDir(cfg, path, node, d, p, cell);
    var c1 := After(CompileEntries(cfg, path, node, 0, k, d), p, cell);
    var c2 := After(SubtreeCommands(cfg, path, entries, d), p, c1);
    EntriesSet(cfg, path, node, 0, k, d, known, p, cell);
    if !Announces(cfg, path, entries, d) { NotAnnounced(cfg, path, node, d); }
    if !(path <= p) {
      AnnounceSpares(cfg, path, entries, d, p, c1);
      EntriesSet(cfg, path, node, k, n, d', known', p, c2);
    } else if p == path {
      assert p[|path|..] == [];
      AnnounceFits(cfg, path, entries, d, known, p, Some(node), c1);
      EntriesSet(cfg, path, node, k, n, d', known', p, c2);
      NothingSpared(cfg, path, entries, d, p, c1);
    } else {
      var t := NodeAt(node, p[|path|..]);
      if Via(path, node, p) < k {
        LinkBelow(path, node, p);
        hide NodeAt, Via;
        AnnounceSpares(cfg, path, entries, d, p, c1);
        EntriesSet(cfg, path, node, k, n, d', known', p, c2);
      } else {
        NotAnEntry(path, node, p);
        hide NodeAt, Via;
        AnnounceFits(cfg, path, entries, d, known, p, t, c1);
        EntriesSet(cfg, path, node, k, n, d', known', p, c2);
        NothingSpared(cfg, path, entries, d, p, c1);
      }
    }
  }

  lemma NothingSpared(cfg: Table, path: Path, entries: seq<Entry>, d: Defaults, p: Path, cell: Cell)
    ensures SubtreeCommands(cfg, path, entries, d) == [] ==> After(SubtreeCommands(cfg, path, entries, d), p, cell) == cell
  {
  }

  lemma NotAnEntry(path: Path, node: Node, p: Path)
    requires node.Dir? && path < p
    ensures Via(path, node, p) <= |node.entries|
    ensures Via(path, node, p) == |node.entries| ==> NodeAt(node, p[|path|..]) == None
  {
  }

  /** Nothing is below a link. */
  lemma LinkBelow(path: Path, node: Node, p: Path)
    requires node.Dir? && path < p && Via(path, node, p) < |node.entries|
    requires node.entries[Via(path, node, p)].node.Link?
    ensures var t := NodeAt(node, p[|path|..]); t.None? || t.value.Link?
  {
    var child := node.entries[Via(path, node, p)].node;
    assert NodeAt(node, p[|path|..]) == NodeAt(child, p[|path|..][1..]);
  }
}
