/** The file system as its users see it: a tree of named directories and files, what each operation makes of it,
    and what stays true of it over whole runs. */
module FsTree {
  import opened Words

  const BLOCK_SIZE: nat := 4096
  const MAX_INUM: nat := 1024
  const DIRECT: nat := 16
  const DIRENTS_IN_BLOCK: nat := 19
  const MAX_ENTRIES: nat := DIRECT * DIRENTS_IN_BLOCK
  const MAX_FILE: nat := DIRECT * BLOCK_SIZE
  const ROOT: nat := 0

  datatype Option<T> = None | Some(value: T)

  datatype Entry = Entry(ino: nat, name: string)

  /** What an inode is: unused, a directory with its entries in order, or a file. The image of a file is what its
      sixteen blocks hold, with zeros for the missing ones; `held` has the blocks that are there. */
  datatype Node = Free | Dir(entries: seq<Entry>, link: nat) | File(size: nat, image: seq<byte>, held: set<nat>)

  /** `taken` has the inode numbers that were ever handed out. */
  datatype Tree = Tree(nodes: seq<Node>, taken: set<nat>)
  {
    predicate IsDir(i: nat) { i < |nodes| && nodes[i].Dir? }
    predicate IsFile(i: nat) { i < |nodes| && nodes[i].File? }
  }

  datatype Status = Done | NoEntry | TooBig

  // ---- Names and paths

  /** The first entry with the name, or the number of entries. */
  function Find(es: seq<Entry>, name: string): (k: nat)
    ensures k <= |es| && (k < |es| ==> es[k].name == name)
    ensures forall i :: 0 <= i < k ==> es[i].name != name
  {
    if es == [] || es[0].name == name then 0 else 1 + Find(es[1..], name)
  }

  /** Where a path leads from a node. */
  function Resolve(nodes: seq<Node>, from: nat, path: seq<string>): Option<nat>
    decreases |path|
  {
    if path == [] then Some(from)
    else if from < |nodes| && nodes[from].Dir? then
      var es := nodes[from].entries;
      var k := Find(es, path[0]);
      if k < |es| then Resolve(nodes, es[k].ino, path[1..]) else None
    else None
  }

  /** Does the path go through directories only, as far as it leads anywhere? */
  predicate Walkable(nodes: seq<Node>, from: nat, path: seq<string>)
    decreases |path|
  {
    path == [] || (
      from < |nodes| && nodes[from].Dir? &&
      var es := nodes[from].entries;
      var k := Find(es, path[0]);
      k < |es| ==> Walkable(nodes, es[k].ino, path[1..]))
  }

  // ---- The operations

  /** The lowest inode number from `from` on that is not taken, or the number of inodes. */
  function FirstFree(taken: set<nat>, from: nat): (i: nat)
    requires from <= MAX_INUM
    ensures from <= i <= MAX_INUM && (i < MAX_INUM ==> i !in taken) && forall j :: from <= j < i ==> j in taken
    decreases MAX_INUM - from
  {
    if from == MAX_INUM || from !in taken then from else FirstFree(taken, from + 1)
  }

  function NewFile(): Node { File(0, Zeros(MAX_FILE), {}) }

  function NewDir(self: nat, parent: nat): Node { Dir([Entry(self, "."), Entry(parent, "..")], 0) }

  /** Directory `p` gains an entry for the new inode `i`, a directory or a file. */
  function Added(nodes: seq<Node>, p: nat, name: string, i: nat, dir: bool): seq<Node>
    requires p < |nodes| && nodes[p].Dir? && i < |nodes|
  {
    nodes[i := if dir then NewDir(i, p) else NewFile()]
         [p := Dir(nodes[p].entries + [Entry(i, name)], nodes[p].link + if dir then 1 else 0)]
  }

  /** Making a directory (`dir`) or a file under the directory that `path` leads to. A full directory costs an
      inode number all the same. */
  function MakeStep(t: Tree, path: seq<string>, name: string, dir: bool): Tree
    requires |t.nodes| == MAX_INUM && FirstFree(t.taken, 0) < MAX_INUM
  {
    match Resolve(t.nodes, ROOT, path)
    case None => t
    case Some(p) =>
      if !t.IsDir(p) then t
      else
        var i := FirstFree(t.taken, 0);
        if |t.nodes[p].entries| == MAX_ENTRIES then t.(taken := t.taken + {i})
        else Tree(Added(t.nodes, p, name, i, dir), t.taken + {i})
  }

  function MakeStatus(t: Tree, path: seq<string>): Status {
    match Resolve(t.nodes, ROOT, path)
    case None => NoEntry
    case Some(p) => if t.IsDir(p) && |t.nodes[p].entries| == MAX_ENTRIES then TooBig else Done
  }

  /** How many of `n` bytes can be written from offset `off` on: a file has sixteen blocks. */
  function Writable(off: nat, n: nat): (r: nat)
    ensures r <= n && off + r <= (if off <= MAX_FILE then MAX_FILE else off)
  {
    if off >= MAX_FILE then 0 else if n <= MAX_FILE - off then n else MAX_FILE - off
  }

  /** The blocks that hold `n` bytes from offset `off` on. */
  function Touched(off: nat, n: nat): set<nat> {
    set k: nat | k < DIRECT && Touches(k, off, n)
  }

  predicate Touches(k: nat, off: nat, n: nat) {
    n > 0 && off < (k + 1) * BLOCK_SIZE && k * BLOCK_SIZE < off + n
  }

  ghost predicate FileOk(node: Node) {
    node.File? && |node.image| == MAX_FILE && (forall k :: k in node.held ==> k < DIRECT)
  }

  /** The file after a write: the size grows by what was written, wherever it was written. */
  function Written(node: Node, off: nat, data: seq<byte>): (r: Node)
    requires FileOk(node)
    ensures FileOk(r)
  {
    var n := Writable(off, |data|);
    if n == 0 then node
    else File(node.size + n, Splice(node.image, off, data[..n]), node.held + Touched(off, n))
  }

  ghost function WriteStep(t: Tree, path: seq<string>, off: nat, data: seq<byte>): Tree
  {
    match Resolve(t.nodes, ROOT, path)
    case None => t
    case Some(i) =>
      if t.IsFile(i) && FileOk(t.nodes[i]) then t.(nodes := t.nodes[i := Written(t.nodes[i], off, data)]) else t
  }

  /** How many of `n` bytes from offset `off` on lie in blocks that are there, without a gap. */
  function Available(held: set<nat>, off: nat, n: nat): (r: nat)
    ensures r <= n && (r > 0 ==> off + r <= MAX_FILE)
    decreases n
  {
    var k := off / BLOCK_SIZE;
    if n == 0 || k >= DIRECT || k !in held then 0
    else
      var step := if n <= BLOCK_SIZE - off % BLOCK_SIZE then n else BLOCK_SIZE - off % BLOCK_SIZE;
      step + Available(held, off + step, n - step)
  }

  /** What a read of `n` bytes from offset `off` on returns. */
  function Read(node: Node, off: nat, n: nat): seq<byte>
    requires FileOk(node)
  {
    if off >= node.size then []
    else
      var r := Available(node.held, off, if node.size - off < n then node.size - off else n);
      if r == 0 then [] else node.image[off..off + r]
  }

  // ---- Runs

  datatype Op =
    | Mkdir(path: seq<string>, name: string)
    | Create(path: seq<string>, name: string)
    | Write(path: seq<string>, offset: nat, data: seq<byte>)

  ghost predicate InUse(nodes: seq<Node>, i: nat) {
    i < |nodes| && nodes[i] != Free
  }

  ghost predicate DirOk(nodes: seq<Node>, i: nat, es: seq<Entry>) {
    && 2 <= |es| <= MAX_ENTRIES
    && es[0] == Entry(i, ".") && es[1].name == ".." && es[1].ino < |nodes| && nodes[es[1].ino].Dir?
    && (forall k :: 0 <= k < |es| ==> InUse(nodes, es[k].ino))
  }

  ghost predicate NodeOk(nodes: seq<Node>, i: nat, node: Node) {
    match node
    case Free => true
    case Dir(es, _) => DirOk(nodes, i, es)
    case File(_, _, _) => FileOk(node)
  }

  /** Every directory begins with itself and its parent and names inodes in use; the root is its own parent. */
  ghost predicate TreeOk(t: Tree) {
    && |t.nodes| == MAX_INUM && AllOk(t.nodes) && RootOk(t.nodes)
    && (forall i :: 0 <= i < |t.nodes| && t.nodes[i] != Free ==> i in t.taken)
    && (forall i :: i in t.taken ==> i < MAX_INUM)
  }

  ghost predicate AllOk(nodes: seq<Node>) {
    forall i :: 0 <= i < |nodes| ==> NodeOk(nodes, i, nodes[i])
  }

  ghost predicate RootOk(nodes: seq<Node>) {
    |nodes| > 0 && nodes[ROOT].Dir? && |nodes[ROOT].entries| >= 2 && nodes[ROOT].entries[1].ino == ROOT
  }

  /** What the kernel checks, and that an inode number is left. */
  ghost predicate Enabled(t: Tree, op: Op) {
    && Walkable(t.nodes, ROOT, op.path)
    && var r := Resolve(t.nodes, ROOT, op.path);
      if op.Write? then r.Some? ==> t.IsFile(r.value)
      else FirstFree(t.taken, 0) < MAX_INUM && (r.Some? ==> t.IsDir(r.value))
  }

  ghost function Step(t: Tree, op: Op): Tree
    requires TreeOk(t) && Enabled(t, op)
  {
    match op
    case Mkdir(path, name) => MakeStep(t, path, name, true)
    case Create(path, name) => MakeStep(t, path, name, false)
    case Write(path, offset, data) => WriteStep(t, path, offset, data)
  }

  ghost predicate CanRun(t: Tree, ops: seq<Op>)
    decreases |ops|
  {
    ops == [] || (TreeOk(t) && Enabled(t, ops[0]) && CanRun(Step(t, ops[0]), ops[1..]))
  }

  ghost function After(t: Tree, ops: seq<Op>): Tree
    requires CanRun(t, ops)
    decreases |ops|
  {
    if ops == [] then t else After(Step(t, ops[0]), ops[1..])
  }

  function Start(): Tree {
    Tree([Dir([Entry(ROOT, "."), Entry(ROOT, "..")], 2)] + seq(MAX_INUM - 1, _ => Free), {ROOT})
  }

  lemma StartOk()
    ensures TreeOk(Start())
  {
    var nodes := Start().nodes;
    assert forall i :: 0 < i < MAX_INUM ==> nodes[i] == Free;
    assert InUse(nodes, ROOT) && DirOk(nodes, ROOT, nodes[ROOT].entries);
  }

  lemma ResolveInTree(t: Tree, from: nat, path: seq<string>)
    requires TreeOk(t) && InUse(t.nodes, from)
    ensures var r := Resolve(t.nodes, from, path); r.Some? ==> InUse(t.nodes, r.value)
    decreases |path|
  {
    if path != [] && t.IsDir(from) {
      var es := t.nodes[from].entries;
      assert NodeOk(t.nodes, from, t.nodes[from]);
      var k := Find(es, path[0]);
      if k < |es| {
        assert InUse(t.nodes, es[k].ino);
        ResolveInTree(t, es[k].ino, path[1..]);
      }
    }
  }

  lemma MakeOk(t: Tree, path: seq<string>, name: string, dir: bool)
    requires TreeOk(t) && FirstFree(t.taken, 0) < MAX_INUM
    ensures TreeOk(MakeStep(t, path, name, dir))
  {
    hide AllOk, RootOk, Added;
    var r := Resolve(t.nodes, ROOT, path);
    if r.Some? && t.IsDir(r.value) && |t.nodes[r.value].entries| != MAX_ENTRIES {
      RoomLeft(t.nodes, r.value);
      AddedOk(t, r.value, name, FirstFree(t.taken, 0), dir);
    }
  }

  lemma RoomLeft(nodes: seq<Node>, p: nat)
    requires AllOk(nodes) && p < |nodes| && nodes[p].Dir?
    ensures |nodes[p].entries| <= MAX_ENTRIES
  {
    assert NodeOk(nodes, p, nodes[p]);
  }

  /** Nothing in use becomes unused, and directories stay directories. */
  ghost predicate Covers(nodes: seq<Node>, nodes': seq<Node>) {
    && |nodes'| == |nodes|
    && (forall k: nat :: InUse(nodes, k) ==> InUse(nodes', k))
    && (forall k :: 0 <= k < |nodes| && nodes[k].Dir? ==> nodes'[k].Dir?)
  }

  lemma AddedCovers(nodes: seq<Node>, p: nat, name: string, i: nat, dir: bool)
    requires p < |nodes| && nodes[p].Dir? && i < |nodes| && nodes[i] == Free
    ensures Covers(nodes, Added(nodes, p, name, i, dir)) && InUse(Added(nodes, p, name, i, dir), i)
  {
  }

  lemma AddedOk(t: Tree, p: nat, name: string, i: nat, dir: bool)
    requires TreeOk(t) && t.IsDir(p) && |t.nodes[p].entries| < MAX_ENTRIES && i < MAX_INUM && i !in t.taken
    ensures TreeOk(Tree(Added(t.nodes, p, name, i, dir), t.taken + {i}))
  {
    hide DirOk, FileOk, Covers, NewDir, NewFile, InUse;
    var nodes := Added(t.nodes, p, name, i, dir);
    AddedCovers(t.nodes, p, name, i, dir);
    NewOk(t.nodes, nodes, i, p, dir);
    forall j | 0 <= j < |nodes| && j != i ensures NodeOk(nodes, j, nodes[j]) {
      assert NodeOk(t.nodes, j, t.nodes[j]);
      if j == p {
        GrownOk(t.nodes, nodes, p, t.nodes[p].entries, Entry(i, name));
      } else if nodes[j].Dir? {
        StillOk(t.nodes, nodes, j, nodes[j].entries);
      }
    }
  }

  lemma NewOk(nodes: seq<Node>, nodes': seq<Node>, i: nat, p: nat, dir: bool)
    requires Covers(nodes, nodes') && InUse(nodes', i) && p < |nodes| && nodes[p].Dir?
    ensures NodeOk(nodes', i, if dir then NewDir(i, p) else NewFile())
  {
    assert InUse(nodes, p);
  }

  lemma StillOk(nodes: seq<Node>, nodes': seq<Node>, j: nat, es: seq<Entry>)
    requires DirOk(nodes, j, es) && Covers(nodes, nodes')
    ensures DirOk(nodes', j, es)
  {
  }

  lemma GrownOk(nodes: seq<Node>, nodes': seq<Node>, j: nat, es: seq<Entry>, e: Entry)
    requires DirOk(nodes, j, es) && Covers(nodes, nodes') && |es| < MAX_ENTRIES && InUse(nodes', e.ino)
    ensures DirOk(nodes', j, es + [e])
  {
    StillOk(nodes, nodes', j, es);
  }

  lemma WriteOk(t: Tree, path: seq<string>, off: nat, data: seq<byte>)
    requires TreeOk(t)
    ensures TreeOk(WriteStep(t, path, off, data))
  {
    hide DirOk, Covers, InUse, Resolve;
    var t' := WriteStep(t, path, off, data);
    WriteCovers(t, path, off, data);
    forall j | 0 <= j < |t'.nodes| ensures NodeOk(t'.nodes, j, t'.nodes[j]) {
      assert NodeOk(t.nodes, j, t.nodes[j]);
      if t'.nodes[j].Dir? {
        StillOk(t.nodes, t'.nodes, j, t'.nodes[j].entries);
      }
    }
  }

  lemma WriteCovers(t: Tree, path: seq<string>, off: nat, data: seq<byte>)
    ensures Covers(t.nodes, WriteStep(t, path, off, data).nodes)
  {
    hide Resolve;
  }

  lemma StepOk(t: Tree, op: Op)
    requires TreeOk(t) && Enabled(t, op)
    ensures TreeOk(Step(t, op))
  {
    match op {
      case Mkdir(path, name) => MakeOk(t, path, name, true);
      case Create(path, name) => MakeOk(t, path, name, false);
      case Write(path, offset, data) => WriteOk(t, path, offset, data);
    }
  }

  lemma {:induction false} RunOk(t: Tree, ops: seq<Op>)
    requires TreeOk(t) && CanRun(t, ops)
    ensures TreeOk(After(t, ops))
    decreases |ops|
  {
    if ops != [] {
      StepOk(t, ops[0]);
      RunOk(Step(t, ops[0]), ops[1..]);
    }
  }
}
