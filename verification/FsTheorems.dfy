/** What holds of the disk after any run of operations, and a client's view of one file. */
module FsTheorems {
  import opened Collections
  import opened FsTree
  import opened FsNames
  import opened FsContents
  import opened FsLayout
  import opened FsInv
  import opened FileSystems
  import opened Words
  import Bitmap

  // ---- Directories as maps

  /** What the names of a directory mean: the first entry with a name counts. */
  ghost function Meaning(es: seq<Entry>): map<string, nat> {
    map i | 0 <= i < |es| && Find(es, es[i].name) == i :: es[i].name := es[i].ino
  }

  ghost predicate UniqueNames(es: seq<Entry>) {
    forall i, j :: 0 <= i < j < |es| ==> es[i].name != es[j].name
  }

  lemma MeaningIsFind(es: seq<Entry>, name: string)
    ensures name in Meaning(es) <==> Find(es, name) < |es|
    ensures name in Meaning(es) ==> Meaning(es)[name] == es[Find(es, name)].ino
  {
    var k := Find(es, name);
    if k < |es| {
      assert Find(es, es[k].name) == k;
    }
  }

  /** Adding an entry adds its name to the map, exactly if the name was absent. */
  lemma AddIsUpdate(es: seq<Entry>, e: Entry)
    ensures Meaning(es + [e]) == if e.name in Meaning(es) then Meaning(es) else Meaning(es)[e.name := e.ino]
  {
    hide Meaning;
    forall name ensures name in Meaning(es + [e]) <==> name in Meaning(es) || name == e.name {
      AddedName(es, e, name);
    }
    forall name | name in Meaning(es + [e])
      ensures Meaning(es + [e])[name] == if name in Meaning(es) then Meaning(es)[name] else e.ino
    {
      AddedName(es, e, name);
    }
  }

  /** Names stay unique exactly if the new one was absent. */
  lemma AddKeepsUnique(es: seq<Entry>, e: Entry)
    requires UniqueNames(es)
    ensures UniqueNames(es + [e]) <==> e.name !in Meaning(es)
  {
    hide Meaning;
    MeaningIsFind(es, e.name);
    var es' := es + [e];
    assert forall i :: 0 <= i < |es| ==> es'[i] == es[i];
    assert es'[|es|] == e;
    if Find(es, e.name) < |es| {
      assert es'[Find(es, e.name)].name == es'[|es|].name;
    }
  }

  lemma AddedName(es: seq<Entry>, e: Entry, name: string)
    ensures name in Meaning(es + [e]) <==> name in Meaning(es) || name == e.name
    ensures name in Meaning(es + [e]) ==>
      Meaning(es + [e])[name] == if name in Meaning(es) then Meaning(es)[name] else e.ino
  {
    MeaningIsFind(es, name);
    MeaningIsFind(es + [e], name);
    if Find(es, name) < |es| {
      FindStays(es, es + [e], name);
    } else {
      FindAppended(es, e, name);
    }
  }

  // ---- Ownership of blocks

  /** The direct pointers in use. */
  ghost function PointersInUse(d: Disk): set<Place>
    requires TableOk(d)
  {
    set i: nat, k: nat | i < MAX_INUM && k < DIRECT && Pointer(d, i, k) != 0 :: Place(i, k)
  }

  /** The pointers in use lead to distinct data blocks, all marked; only valid inodes have any; and the bitmap marks as
      many blocks as there are metadata blocks and pointers. */
  lemma BlockOwnership(fs: FileSystem)
    requires fs.Valid()
    ensures var d := fs.disk[..]; Shape(d)
    ensures var d := fs.disk[..];
      forall p, q :: p in PointersInUse(d) && q in PointersInUse(d) && p != q ==>
        Pointer(d, p.ino, p.k) != Pointer(d, q.ino, q.k)
    ensures var d := fs.disk[..];
      forall p :: p in PointersInUse(d) ==>
        && D_START <= Pointer(d, p.ino, p.k) < MAX_DNUM && GetInode(d, p.ino).valid
        && Pointer(d, p.ino, p.k) in Bitmap.Members(Bitmap.LsbFirst, d[D_BITMAP].bits)
    ensures var d := fs.disk[..];
      |Bitmap.Members(Bitmap.LsbFirst, d[D_BITMAP].bits)| == D_START + |PointersInUse(d)|
  {
    hide AllOk, RootOk, Bitmap.Members, GetInode, Reserved;
    var d, owner := fs.disk[..], fs.owner;
    PointersAreOwners(d, owner);
    MarkedSize(owner.Keys);
    forall p | p in PointersInUse(d) ensures GetInode(d, p.ino).valid {
      assert Stored(d, p.ino, GetInode(d, p.ino), fs.tree.nodes[p.ino]);
    }
  }

  lemma PointersAreOwners(d: Disk, owner: Owners)
    requires TableOk(d) && Owned(d, owner)
    ensures PointersInUse(d) == owner.Values && |PointersInUse(d)| == |owner|
    ensures forall p :: p in PointersInUse(d) ==>
      && p.ino < MAX_INUM && p.k < DIRECT
      && Pointer(d, p.ino, p.k) in owner && owner[Pointer(d, p.ino, p.k)] == p
  {
    hide GetInode;
    forall p ensures p in PointersInUse(d) <==> p in owner.Values {
      if p in owner.Values {
        var b :| b in owner && owner[b] == p;
        assert Pointer(d, p.ino, p.k) == b;
      }
      if p in PointersInUse(d) {
        assert owner[Pointer(d, p.ino, p.k)] == p;
      }
    }
    ValuesSize(owner);
  }

  /** The inode bitmap marks every inode in use. */
  lemma InodesMarked(fs: FileSystem, i: nat)
    requires fs.Valid() && i < MAX_INUM
    ensures var d := fs.disk[..];
      Shape(d) && (GetInode(d, i).valid ==> i in Bitmap.Members(Bitmap.LsbFirst, d[I_BITMAP].bits))
  {
    hide AllOk, RootOk, Bitmap.Members, GetInode, Owned, Untouched;
    assert Stored(fs.disk[..], i, GetInode(fs.disk[..], i), fs.tree.nodes[i]);
  }

  // ---- What the disk shows

  /** An inode is as its node says: valid exactly if in use, with number, kind, and links or size. */
  lemma InodeShows(fs: FileSystem, i: nat)
    requires fs.Valid() && i < MAX_INUM
    ensures TableOk(fs.disk[..]) && |fs.tree.nodes| == MAX_INUM
    ensures var x, node := GetInode(fs.disk[..], i), fs.tree.nodes[i];
      && (x.valid <==> node != Free) && |x.ptr| == DIRECT
      && (node != Free ==> x.ino == i)
      && (node.Dir? ==> x.kind == DIRECTORY && x.link == node.link)
      && (node.File? ==> x.kind == FILE && x.size == node.size)
  {
    hide AllOk, RootOk, Bitmap.Members, GetInode, Owned, Untouched;
    assert Stored(fs.disk[..], i, GetInode(fs.disk[..], i), fs.tree.nodes[i]);
  }

  /** Entry `n` of a directory is in slot n % 19 of its block n / 19; the slots behind the last are invalid, and there
      are no blocks behind that. */
  lemma EntriesShow(fs: FileSystem, i: nat, n: nat)
    requires fs.Valid() && fs.tree.IsDir(i) && n < MAX_ENTRIES
    ensures TableOk(fs.disk[..]) && i < MAX_INUM && |GetInode(fs.disk[..], i).ptr| == DIRECT
    ensures var es, p := fs.tree.nodes[i].entries, GetInode(fs.disk[..], i).ptr[n / DIRENTS_IN_BLOCK];
      && (n < |es| ==> p != 0)
      && (n % DIRENTS_IN_BLOCK == 0 && n >= |es| ==> p == 0)
      && (p != 0 ==>
            && p < |fs.disk[..]| && fs.disk[..][p].Dirents? && |fs.disk[..][p].entries| == DIRENTS_IN_BLOCK
            && var e := fs.disk[..][p].entries[n % DIRENTS_IN_BLOCK];
              if n < |es| then e.valid && e.ino == es[n].ino && e.name == es[n].name else !e.valid)
  {
    hide AllOk, RootOk, Bitmap.Members, GetInode, Owned, Untouched;
    var d, x := fs.disk[..], GetInode(fs.disk[..], i);
    assert Stored(d, i, x, fs.tree.nodes[i]);
    assert DirSlot(d, x.ptr[n / DIRENTS_IN_BLOCK], fs.tree.nodes[i].entries, n / DIRENTS_IN_BLOCK);
  }

  /** Byte `at` of a file is byte at % 4096 of its block at / 4096, if that is there. */
  lemma BytesShow(fs: FileSystem, i: nat, at: nat)
    requires fs.Valid() && fs.tree.IsFile(i) && at < MAX_FILE
    ensures TableOk(fs.disk[..]) && i < MAX_INUM && |GetInode(fs.disk[..], i).ptr| == DIRECT
    ensures var node, p := fs.tree.nodes[i], GetInode(fs.disk[..], i).ptr[at / BLOCK_SIZE];
      && (p != 0 <==> at / BLOCK_SIZE in node.held) && |node.image| == MAX_FILE
      && (if p != 0 then p < |fs.disk[..]| && fs.disk[..][p].Data? && |fs.disk[..][p].bytes| == BLOCK_SIZE
                         && fs.disk[..][p].bytes[at % BLOCK_SIZE] == node.image[at]
          else node.image[at] == 0)
  {
    hide AllOk, RootOk, Bitmap.Members, GetInode, Owned, Untouched;
    var d, x, node := fs.disk[..], GetInode(fs.disk[..], i), fs.tree.nodes[i];
    assert Stored(d, i, x, node);
    var k := at / BLOCK_SIZE;
    assert FileSlot(d, x.ptr[k], node.image, node.held, k);
    assert BlockImage(node.image, k)[at % BLOCK_SIZE] == node.image[at];
  }

  // ---- Runs on the disk

  ghost function Needs(t: Tree, op: Op): nat {
    match op
    case Mkdir(path, _) => MakeNeeds(t, path, true)
    case Create(path, _) => MakeNeeds(t, path, false)
    case Write(path, offset, data) => WriteNeeds(t, path, offset, |data|)
  }

  /** How many blocks a run takes. */
  ghost function AllNeeds(t: Tree, ops: seq<Op>): nat
    requires CanRun(t, ops)
    decreases |ops|
  {
    if ops == [] then 0 else Needs(t, ops[0]) + AllNeeds(Step(t, ops[0]), ops[1..])
  }

  /** Any run, carried out on the disk, does to the tree what the run says; so all that holds of runs of trees holds of
      what the disk then has. */
  method Execute(fs: FileSystem, ops: seq<Op>)
    requires fs.Valid() && CanRun(fs.tree, ops) && fs.BlocksLeft(AllNeeds(fs.tree, ops))
    modifies fs`tree, fs`owner, fs.disk, fs.inodeBitmap, fs.dataBitmap
    ensures fs.Valid() && fs.tree == After(old(fs.tree), ops)
  {
    hide FileSystem.Stable, TreeOk, Enabled, Step, Needs;
    ghost var t := fs.tree;
    assert ops[0..] == ops;
    for i := 0 to |ops|
      invariant fs.Valid() && CanRun(fs.tree, ops[i..]) && After(fs.tree, ops[i..]) == After(t, ops)
      invariant fs.BlocksLeft(AllNeeds(fs.tree, ops[i..]))
    {
      assert ops[i..][0] == ops[i] && ops[i..][1..] == ops[i + 1..];
      Perform(fs, ops[i]);
    }
    assert ops[|ops|..] == [];
  }

  method Perform(fs: FileSystem, op: Op)
    requires fs.Valid() && Enabled(fs.tree, op) && fs.BlocksLeft(Needs(fs.tree, op))
    modifies fs`tree, fs`owner, fs.disk, fs.inodeBitmap, fs.dataBitmap
    ensures fs.Valid() && TreeOk(old(fs.tree)) && fs.tree == Step(old(fs.tree), op)
    ensures |fs.owner| == |old(fs.owner)| + Needs(old(fs.tree), op)
  {
    hide FileSystem.Stable, AllOk, RootOk, Resolve, Walkable, MakeStep, WriteStep, MakeNeeds, WriteNeeds;
    match op {
      case Mkdir(path, name) =>
        var s := fs.Mkdir(path, name);
      case Create(path, name) =>
        var s := fs.Create(path, name);
      case Write(path, offset, data) =>
        var n := fs.WriteFile(path, data, offset);
    }
  }

  // ---- A client

  /** A new file is written and read back through the disk. */
  method CreateWriteRead(fs: FileSystem, path: seq<string>, name: string, data: seq<byte>)
    returns (r: Option<seq<byte>>)
    requires fs.Valid() && Walkable(fs.tree.nodes, ROOT, path) && HasRoom(fs.tree, path) && Absent(fs.tree, path, name)
    requires fs.BlocksLeft(1 + DIRECT)
    modifies fs`tree, fs`owner, fs.disk, fs.inodeBitmap, fs.dataBitmap
    ensures fs.Valid() && r == Some(Fitting(data))
  {
    hide FileSystem.Stable, AllOk, RootOk, Resolve, Walkable, Absent, HasRoom, MakeStep, WriteStep, MakeNeeds,
      WriteNeeds, Read, InUse;
    ghost var t, i := fs.tree, FirstFree(fs.tree.taken, 0);
    CanCreate(t, path, name);
    var s := fs.Create(path, name);
    NewFilePath(t, path, name);
    ghost var t1 := fs.tree;
    CanWrite(t1, path + [name], i, data);
    var n := fs.WriteFile(path + [name], data, 0);
    NewContents(t1, path + [name], i, data);
    r := fs.ReadFile(path + [name], |data|, 0);
  }

  /** A run that only appends to a file is carried out, and the file read back: it has what it had and then everything
      the run wrote to it, up to sixteen blocks. */
  method AppendAndRead(fs: FileSystem, ops: seq<Op>, path: seq<string>, ghost i: nat, ghost c: seq<byte>)
    returns (r: Option<seq<byte>>)
    requires fs.Valid() && CanRun(fs.tree, ops) && fs.BlocksLeft(AllNeeds(fs.tree, ops))
    requires Walkable(fs.tree.nodes, ROOT, path) && Resolve(fs.tree.nodes, ROOT, path) == Some(i)
    requires fs.tree.IsFile(i) && Holds(fs.tree.nodes[i], c) && Appending(fs.tree, ops, i)
    modifies fs`tree, fs`owner, fs.disk, fs.inodeBitmap, fs.dataBitmap
    ensures fs.Valid() && r == Some(Fitting(c + AllWritten(old(fs.tree), ops, i)))
  {
    hide FileSystem.Stable, TreeOk, Enabled, Resolve, Walkable, Holds, Fitting, Appending, Read, CanRun, After;
    ghost var t := fs.tree;
    ghost var whole := Fitting(c + AllWritten(t, ops, i));
    Execute(fs, ops);
    RunKeepsPaths(t, ops, path);
    RunKeepsWalkable(t, ops, path);
    RunAppends(t, ops, i, c);
    ReadAll(fs.tree.nodes[i], whole);
    r := fs.ReadFile(path, MAX_FILE, 0);
  }

  lemma CanCreate(t: Tree, path: seq<string>, name: string)
    requires Walkable(t.nodes, ROOT, path) && HasRoom(t, path)
    ensures Enabled(t, Op.Create(path, name)) && MakeNeeds(t, path, false) <= 1
  {
  }

  lemma {:induction false} WalkableJoin(nodes: seq<Node>, from: nat, path: seq<string>, name: string)
    requires Walkable(nodes, from, path) && Resolve(nodes, from, path).Some?
    requires var p := Resolve(nodes, from, path).value; p < |nodes| && nodes[p].Dir?
    ensures Walkable(nodes, from, path + [name])
    decreases |path|
  {
    if path == [] {
      assert path + [name] == [name];
    } else {
      var es := nodes[from].entries;
      assert (path + [name])[0] == path[0] && (path + [name])[1..] == path[1..] + [name];
      WalkableJoin(nodes, es[Find(es, path[0])].ino, path[1..], name);
    }
  }

  /** A path through directories stays one. */
  lemma {:induction false} WalkableStays(nodes: seq<Node>, nodes': seq<Node>, from: nat, path: seq<string>)
    requires Grows(nodes, nodes') && Walkable(nodes, from, path) && Resolve(nodes, from, path).Some?
    ensures Walkable(nodes', from, path)
    decreases |path|
  {
    if path != [] {
      var es := nodes[from].entries;
      FindStays(es, nodes'[from].entries, path[0]);
      WalkableStays(nodes, nodes', es[Find(es, path[0])].ino, path[1..]);
    }
  }

  lemma {:induction false} RunKeepsWalkable(t: Tree, ops: seq<Op>, path: seq<string>)
    requires TreeOk(t) && CanRun(t, ops) && Walkable(t.nodes, ROOT, path) && Resolve(t.nodes, ROOT, path).Some?
    ensures Walkable(After(t, ops).nodes, ROOT, path)
    decreases |ops|
  {
    hide TreeOk, Enabled, Step;
    if ops != [] {
      StepOk(t, ops[0]);
      StepGrows(t, ops[0]);
      ResolveStays(t.nodes, Step(t, ops[0]).nodes, ROOT, path);
      WalkableStays(t.nodes, Step(t, ops[0]).nodes, ROOT, path);
      RunKeepsWalkable(Step(t, ops[0]), ops[1..], path);
    }
  }

  lemma NewFilePath(t: Tree, path: seq<string>, name: string)
    requires TreeOk(t) && Walkable(t.nodes, ROOT, path) && HasRoom(t, path) && Absent(t, path, name)
    ensures var t' := MakeStep(t, path, name, false); var i := FirstFree(t.taken, 0);
      && Walkable(t'.nodes, ROOT, path + [name]) && Resolve(t'.nodes, ROOT, path + [name]) == Some(i)
      && t'.IsFile(i) && t'.nodes[i] == NewFile()
  {
    hide AllOk, RootOk, Absent;
    MadeResolves(t, path, name, false);
    MakeGrows(t, path, name, false);
    var t' := MakeStep(t, path, name, false);
    WalkableStays(t.nodes, t'.nodes, ROOT, path);
    ResolveStays(t.nodes, t'.nodes, ROOT, path);
    WalkableJoin(t'.nodes, ROOT, path, name);
  }

  lemma CanWrite(t: Tree, path: seq<string>, i: nat, data: seq<byte>)
    requires Walkable(t.nodes, ROOT, path) && Resolve(t.nodes, ROOT, path) == Some(i) && t.IsFile(i)
    ensures Enabled(t, Write(path, 0, data)) && WriteNeeds(t, path, 0, |data|) <= DIRECT
  {
    var touched := Touched(0, Writable(0, |data|));
    SmallSet(touched, DIRECT);
    SubsetSize(touched - t.nodes[i].held, touched);
  }

  lemma {:induction false} SmallSet(s: set<nat>, n: nat)
    requires forall x :: x in s ==> x < n
    ensures |s| <= n
  {
    if n == 0 {
      assert s == {};
    } else {
      SmallSet(s - {n - 1}, n - 1);
    }
  }

  lemma SubsetSize(a: set<nat>, b: set<nat>)
    requires a <= b
    ensures |a| <= |b|
  {
    assert b == a + (b - a);
  }

  /** What reading a new file after its first write returns. */
  lemma NewContents(t: Tree, path: seq<string>, i: nat, data: seq<byte>)
    requires TreeOk(t) && Walkable(t.nodes, ROOT, path) && Resolve(t.nodes, ROOT, path) == Some(i) && t.IsFile(i)
    requires t.nodes[i] == NewFile()
    ensures var t' := WriteStep(t, path, 0, data);
      && Walkable(t'.nodes, ROOT, path) && Resolve(t'.nodes, ROOT, path) == Some(i) && t'.IsFile(i)
           && FileOk(t'.nodes[i])
      && Read(t'.nodes[i], 0, |data|) == Fitting(data)
  {
    hide AllOk, RootOk, Read, Touched;
    var op := Write(path, 0, data);
    CanWrite(t, path, i, data);
    StepGrows(t, op);
    StepOnFile(t, op, i);
    var t' := WriteStep(t, path, 0, data);
    WalkableStays(t.nodes, t'.nodes, ROOT, path);
    ResolveStays(t.nodes, t'.nodes, ROOT, path);
    NewHolds();
    AppendHolds(NewFile(), [], data);
    assert [] + data == data;
    ReadWhole(t'.nodes[i], data);
  }

  lemma ReadWhole(node: Node, data: seq<byte>)
    requires Holds(node, Fitting(data))
    ensures Read(node, 0, |data|) == Fitting(data)
  {
    var c := Fitting(data);
    HoldsReads(node, c, 0, |c|);
    ReadShort(node, |c|, |data|);
  }

  lemma ReadAll(node: Node, c: seq<byte>)
    requires Holds(node, c)
    ensures FileOk(node) && Read(node, 0, MAX_FILE) == c
  {
    HoldsReads(node, c, 0, |c|);
    ReadShort(node, |c|, MAX_FILE);
  }

  /** Asking for more than the file has returns what it has. */
  lemma ReadShort(node: Node, size: nat, n: nat)
    requires FileOk(node) && node.size == size <= n
    ensures Read(node, 0, n) == Read(node, 0, size)
  {
  }
}
