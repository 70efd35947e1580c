/** Paths over whole runs: what resolved keeps resolving, what is made resolves to what was made, and "." and ".."
    mean the directory itself and its parent. */
module FsNames {
  import opened FsTree
  import opened Words

  lemma FindStays(es: seq<Entry>, es': seq<Entry>, name: string)
    requires es <= es' && Find(es, name) < |es|
    ensures Find(es', name) == Find(es, name)
  {
    assert forall i :: 0 <= i < |es| ==> es'[i] == es[i];
  }

  lemma FindAppended(es: seq<Entry>, e: Entry, name: string)
    requires Find(es, name) == |es|
    ensures Find(es + [e], name) == if e.name == name then |es| else |es| + 1
  {
    assert forall i :: 0 <= i < |es| ==> (es + [e])[i] == es[i];
    assert (es + [e])[|es|] == e;
  }

  /** Directories only gain entries, at the end. */
  ghost predicate Grows(nodes: seq<Node>, nodes': seq<Node>) {
    && |nodes'| == |nodes|
    && (forall i :: 0 <= i < |nodes| && nodes[i].Dir? ==> nodes'[i].Dir? && nodes[i].entries <= nodes'[i].entries)
  }

  lemma {:induction false} ResolveStays(nodes: seq<Node>, nodes': seq<Node>, from: nat, path: seq<string>)
    requires Grows(nodes, nodes') && Resolve(nodes, from, path).Some?
    ensures Resolve(nodes', from, path) == Resolve(nodes, from, path)
    decreases |path|
  {
    if path != [] {
      var es := nodes[from].entries;
      FindStays(es, nodes'[from].entries, path[0]);
      ResolveStays(nodes, nodes', es[Find(es, path[0])].ino, path[1..]);
    }
  }

  lemma MakeGrows(t: Tree, path: seq<string>, name: string, dir: bool)
    requires TreeOk(t) && FirstFree(t.taken, 0) < MAX_INUM
    ensures Grows(t.nodes, MakeStep(t, path, name, dir).nodes)
  {
    hide AllOk, RootOk, Resolve;
  }

  lemma StepGrows(t: Tree, op: Op)
    requires TreeOk(t) && Enabled(t, op)
    ensures Grows(t.nodes, Step(t, op).nodes)
  {
    hide AllOk, RootOk, Resolve, Walkable, MakeStep;
    match op {
      case Mkdir(path, name) => MakeGrows(t, path, name, true);
      case Create(path, name) => MakeGrows(t, path, name, false);
      case Write(path, offset, data) =>
    }
  }

  /** What resolves goes on resolving to the same inode, whatever is made and written. */
  lemma {:induction false} RunKeepsPaths(t: Tree, ops: seq<Op>, path: seq<string>)
    requires TreeOk(t) && CanRun(t, ops) && Resolve(t.nodes, ROOT, path).Some?
    ensures Resolve(After(t, ops).nodes, ROOT, path) == Resolve(t.nodes, ROOT, path)
    decreases |ops|
  {
    hide TreeOk, Enabled, Step;
    if ops != [] {
      StepOk(t, ops[0]);
      StepGrows(t, ops[0]);
      ResolveStays(t.nodes, Step(t, ops[0]).nodes, ROOT, path);
      RunKeepsPaths(Step(t, ops[0]), ops[1..], path);
    }
  }

  lemma {:induction false} ResolveJoin(nodes: seq<Node>, from: nat, path: seq<string>, rest: seq<string>)
    ensures var r := Resolve(nodes, from, path);
      Resolve(nodes, from, path + rest) == if r.Some? then Resolve(nodes, r.value, rest) else None
    decreases |path|
  {
    if path == [] {
      assert path + rest == rest;
    } else if from < |nodes| && nodes[from].Dir? {
      var es := nodes[from].entries;
      var k := Find(es, path[0]);
      assert (path + rest)[0] == path[0] && (path + rest)[1..] == path[1..] + rest;
      if k < |es| {
        ResolveJoin(nodes, es[k].ino, path[1..], rest);
      }
    }
  }

  /** One component. */
  lemma ResolveName(nodes: seq<Node>, p: nat, name: string)
    requires p < |nodes| && nodes[p].Dir?
    ensures var es := nodes[p].entries; var k := Find(es, name);
      Resolve(nodes, p, [name]) == if k < |es| then Some(es[k].ino) else None
  {
  }

  /** Is there room for a new name in the directory that `path` leads to? */
  ghost predicate HasRoom(t: Tree, path: seq<string>) {
    var r := Resolve(t.nodes, ROOT, path);
    FirstFree(t.taken, 0) < MAX_INUM && r.Some? && t.IsDir(r.value) && |t.nodes[r.value].entries| < MAX_ENTRIES
  }

  /** Does the directory that `path` leads to lack the name? */
  ghost predicate Absent(t: Tree, path: seq<string>, name: string)
    requires HasRoom(t, path)
  {
    var es := t.nodes[Resolve(t.nodes, ROOT, path).value].entries;
    Find(es, name) == |es|
  }

  /** A new name resolves to the new inode exactly if it was absent; if not, the earlier entry goes on hiding it. */
  lemma MadeResolves(t: Tree, path: seq<string>, name: string, dir: bool)
    requires TreeOk(t) && HasRoom(t, path)
    ensures var t' := MakeStep(t, path, name, dir); var i := FirstFree(t.taken, 0);
      && Resolve(t'.nodes, ROOT, path + [name]) ==
           (if Absent(t, path, name) then Some(i) else Resolve(t.nodes, ROOT, path + [name]))
      && (Resolve(t'.nodes, ROOT, path + [name]) == Some(i) <==> Absent(t, path, name))
      && t'.nodes[i] == (if dir then NewDir(i, Resolve(t.nodes, ROOT, path).value) else NewFile())
  {
    hide AllOk, RootOk;
    var t' := MakeStep(t, path, name, dir);
    var i, p := FirstFree(t.taken, 0), Resolve(t.nodes, ROOT, path).value;
    var es := t.nodes[p].entries;
    MakeGrows(t, path, name, dir);
    ResolveStays(t.nodes, t'.nodes, ROOT, path);
    ResolveJoin(t.nodes, ROOT, path, [name]);
    ResolveJoin(t'.nodes, ROOT, path, [name]);
    ResolveName(t.nodes, p, name);
    ResolveName(t'.nodes, p, name);
    assert t'.nodes[p].entries == es + [Entry(i, name)];
    if Find(es, name) == |es| {
      FindAppended(es, Entry(i, name), name);
    } else {
      FindStays(es, t'.nodes[p].entries, name);
      RootInUse(t);
      ResolveInTree(t, ROOT, path + [name]);
    }
  }

  /** What making something does, told by the directory that the path leads to: nothing if there is none; in a full one
      it costs a number; else the directory gains the entry, at the end, and the node of that number is new. */
  lemma MakeLaw(t: Tree, path: seq<string>, name: string, dir: bool)
    requires TreeOk(t) && FirstFree(t.taken, 0) < MAX_INUM
    requires var r := Resolve(t.nodes, ROOT, path); r.Some? ==> t.IsDir(r.value)
    ensures var t' := MakeStep(t, path, name, dir); var i := FirstFree(t.taken, 0); var s := MakeStatus(t, path);
      match Resolve(t.nodes, ROOT, path)
      case None => s == NoEntry && t' == t
      case Some(p) =>
        && t.IsDir(p) && t'.taken == t.taken + {i} && i !in t.taken && (forall j: nat :: j < i ==> j in t.taken)
        && (|t.nodes[p].entries| == MAX_ENTRIES ==> s == TooBig && t'.nodes == t.nodes)
        && (|t.nodes[p].entries| < MAX_ENTRIES ==>
              && s == Done && |t'.nodes| == |t.nodes| && t'.IsDir(p)
              && t'.nodes[p].entries == t.nodes[p].entries + [Entry(i, name)]
              && t'.nodes[p].link == t.nodes[p].link + (if dir then 1 else 0)
              && (if dir then t'.nodes[i] == Dir([Entry(i, "."), Entry(p, "..")], 0)
                  else t'.IsFile(i) && t'.nodes[i].size == 0 && t'.nodes[i].held == {})
              && forall j :: 0 <= j < |t.nodes| && j != i && j != p ==> t'.nodes[j] == t.nodes[j])
  {
    hide AllOk, RootOk, Resolve;
    var r := Resolve(t.nodes, ROOT, path);
    if r.Some? {
      RoomLeft(t.nodes, r.value);
    }
  }

  /** Making the same file twice at the root: both are listed, and the name goes on leading to the first. */
  lemma SameNameTwice()
    ensures var t := MakeStep(Start(), [], "a", false); FirstFree(t.taken, 0) == 2
    ensures var t := MakeStep(MakeStep(Start(), [], "a", false), [], "a", false);
      && t.nodes[ROOT].Dir? && t.nodes[ROOT].entries[2..] == [Entry(1, "a"), Entry(2, "a")]
      && t.nodes[2] == NewFile() && Resolve(t.nodes, ROOT, ["a"]) == Some(1)
  {
    hide Resolve, MakeStep, FirstFree;
    StartOk();
    assert TakenBelow(Start().taken, 1);
    assert Find([Entry(ROOT, "."), Entry(ROOT, "..")], "a") == 2;
    MakeAtRoot(Start(), "a", 1);
    var t1 := MakeStep(Start(), [], "a", false);
    assert t1.nodes[ROOT].entries[2] == Entry(1, "a");
    MakeAtRoot(t1, "a", 2);
  }

  /** Are the numbers below `n` taken and no others? */
  ghost predicate TakenBelow(taken: set<nat>, n: nat) {
    forall j: nat :: j in taken <==> j < n
  }

  lemma FirstFreeIs(taken: set<nat>, n: nat)
    requires n < MAX_INUM && TakenBelow(taken, n)
    ensures FirstFree(taken, 0) == n
  {
    hide FirstFree;
    assert n !in taken;
  }

  lemma MakeAtRoot(t: Tree, name: string, i: nat)
    requires TreeOk(t) && 1 <= i < MAX_INUM && TakenBelow(t.taken, i) && |t.nodes[ROOT].entries| < MAX_ENTRIES
    ensures FirstFree(t.taken, 0) == i
    ensures var t' := MakeStep(t, [], name, false);
      && TreeOk(t') && TakenBelow(t'.taken, i + 1) && t'.nodes[i] == NewFile() && t'.IsDir(ROOT)
      && t'.nodes[ROOT].entries == t.nodes[ROOT].entries + [Entry(i, name)]
      && Resolve(t'.nodes, ROOT, [name]) ==
           if Find(t.nodes[ROOT].entries, name) == |t.nodes[ROOT].entries| then Some(i)
           else Resolve(t.nodes, ROOT, [name])
  {
    hide AllOk, Find;
    FirstFreeIs(t.taken, i);
    MakeOk(t, [], name, false);
    MadeResolves(t, [], name, false);
    assert [] + [name] == [name];
  }

  lemma RootInUse(t: Tree)
    requires TreeOk(t)
    ensures InUse(t.nodes, ROOT)
  {
    hide AllOk;
  }

  /** In every directory "." names itself and ".." its parent, whatever else was added. */
  lemma DotNames(t: Tree, i: nat)
    requires TreeOk(t) && t.IsDir(i)
    ensures Resolve(t.nodes, i, ["."]) == Some(i)
    ensures |t.nodes[i].entries| >= 2 && Resolve(t.nodes, i, [".."]) == Some(t.nodes[i].entries[1].ino)
  {
    assert NodeOk(t.nodes, i, t.nodes[i]);
    var es := t.nodes[i].entries;
    assert es[0].name == "." && es[1].name == "..";
    assert Find(es, ".") == 0 && Find(es, "..") == 1;
    ResolveName(t.nodes, i, ".");
    ResolveName(t.nodes, i, "..");
  }

  lemma RootIsItsParent(t: Tree)
    requires TreeOk(t)
    ensures Resolve(t.nodes, ROOT, ["."]) == Some(ROOT) && Resolve(t.nodes, ROOT, [".."]) == Some(ROOT)
  {
    hide AllOk;
    DotNames(t, ROOT);
  }

  lemma {:induction false} RunGrows(t: Tree, ops: seq<Op>)
    requires TreeOk(t) && CanRun(t, ops)
    ensures Grows(t.nodes, After(t, ops).nodes)
    decreases |ops|
  {
    hide TreeOk, Enabled, Step;
    if ops != [] {
      StepOk(t, ops[0]);
      StepGrows(t, ops[0]);
      RunGrows(Step(t, ops[0]), ops[1..]);
      GrowsOn(t.nodes, Step(t, ops[0]).nodes, After(t, ops).nodes);
    }
  }

  lemma GrowsOn(n0: seq<Node>, n1: seq<Node>, n2: seq<Node>)
    requires Grows(n0, n1) && Grows(n1, n2)
    ensures Grows(n0, n2)
  {
  }

  /** The namespace law: make an absent name under a directory, then go on as you like. The new path leads to the new
      inode for good, every earlier path leads where it did, and if a directory was made its "." and ".." lead to it
      and to the directory it was made in. */
  lemma Namespace(t: Tree, path: seq<string>, name: string, dir: bool, ops: seq<Op>, earlier: seq<string>)
    requires TreeOk(t) && HasRoom(t, path) && Absent(t, path, name)
    requires var t1 := MakeStep(t, path, name, dir); CanRun(t1, ops)
    requires Resolve(t.nodes, ROOT, earlier).Some?
    ensures var n := After(MakeStep(t, path, name, dir), ops).nodes; var i := FirstFree(t.taken, 0);
      && Resolve(n, ROOT, path + [name]) == Some(i)
      && Resolve(n, ROOT, earlier) == Resolve(t.nodes, ROOT, earlier)
      && (dir ==> Resolve(n, ROOT, path + [name] + ["."]) == Some(i))
      && (dir ==> Resolve(n, ROOT, path + [name] + [".."]) == Resolve(n, ROOT, path))
  {
    hide AllOk, RootOk, Enabled, Step, Absent;
    var t1 := MakeStep(t, path, name, dir);
    var i, p := FirstFree(t.taken, 0), Resolve(t.nodes, ROOT, path).value;
    MakeOk(t, path, name, dir);
    MakeGrows(t, path, name, dir);
    MadeResolves(t, path, name, dir);
    ResolveStays(t.nodes, t1.nodes, ROOT, earlier);
    ResolveStays(t.nodes, t1.nodes, ROOT, path);
    RunKeepsPaths(t1, ops, earlier);
    RunKeepsPaths(t1, ops, path);
    RunKeepsPaths(t1, ops, path + [name]);
    if dir {
      RunOk(t1, ops);
      RunGrows(t1, ops);
      var t2 := After(t1, ops);
      assert t2.nodes[i].Dir? && t1.nodes[i].entries[1] == t2.nodes[i].entries[1];
      DotNames(t2, i);
      ResolveJoin(t2.nodes, ROOT, path + [name], ["."]);
      ResolveJoin(t2.nodes, ROOT, path + [name], [".."]);
    }
  }

  /** Does some part of the path lead from `from` to node `i`? */
  ghost predicate Through(nodes: seq<Node>, from: nat, path: seq<string>, i: nat) {
    exists k :: 0 <= k <= |path| && Resolve(nodes, from, path[..k]) == Some(i)
  }

  /** Nothing else appears: a path that led nowhere before leads through the new inode now. */
  lemma {:induction false} NothingElse(t: Tree, p: nat, name: string, i: nat, dir: bool, from: nat, path: seq<string>)
    requires TreeOk(t) && t.IsDir(p) && i < MAX_INUM && i !in t.taken && InUse(t.nodes, from)
    requires var n := Added(t.nodes, p, name, i, dir);
      Resolve(n, from, path).Some? && Resolve(t.nodes, from, path) == None
    ensures Through(Added(t.nodes, p, name, i, dir), from, path, i)
    decreases |path|
  {
    hide Through;
    var n := Added(t.nodes, p, name, i, dir);
    assert NodeOk(t.nodes, from, t.nodes[from]);
    assert path != [] && n[from].Dir? && t.nodes[from].Dir?;
    var es, es' := t.nodes[from].entries, n[from].entries;
    var k := Find(es, path[0]);
    if k < |es| {
      FindStays(es, es', path[0]);
      assert InUse(t.nodes, es[k].ino);
      NothingElse(t, p, name, i, dir, es[k].ino, path[1..]);
      ThroughNext(n, from, path, i);
    } else {
      FindAppended(es, Entry(i, name), path[0]);
      assert es'[|es|] == Entry(i, name) && n[i] != Free;
      assert Resolve(n, i, path[1..][..0]) == Some(i);
      ThroughNext(n, from, path, i);
    }
  }

  lemma ThroughNext(n: seq<Node>, from: nat, path: seq<string>, i: nat)
    requires path != [] && from < |n| && n[from].Dir? && Find(n[from].entries, path[0]) < |n[from].entries|
    requires Through(n, n[from].entries[Find(n[from].entries, path[0])].ino, path[1..], i)
    ensures Through(n, from, path, i)
  {
    var es := n[from].entries;
    var k := Find(es, path[0]);
    var m :| 0 <= m <= |path[1..]| && Resolve(n, es[k].ino, path[1..][..m]) == Some(i);
    assert path[..m + 1][0] == path[0] && path[..m + 1][1..] == path[1..][..m];
    assert Resolve(n, from, path[..m + 1]) == Some(i);
  }

  // ---- Link counts

  /** How many of the entries name directories. */
  ghost function Subdirs(nodes: seq<Node>, es: seq<Entry>): nat {
    if es == [] then 0
    else Subdirs(nodes, es[..|es| - 1]) + (var i := es[|es| - 1].ino; if i < |nodes| && nodes[i].Dir? then 1 else 0)
  }

  /** A directory's link count is the number of directories made in it; the root starts with two links. */
  ghost predicate LinksCount(nodes: seq<Node>) {
    forall i :: 0 <= i < |nodes| && nodes[i].Dir? ==> LinkOk(nodes, i)
  }

  ghost predicate LinkOk(nodes: seq<Node>, i: nat)
    requires i < |nodes| && nodes[i].Dir?
  {
    var es := nodes[i].entries;
    |es| >= 2 && nodes[i].link == (if i == ROOT then 2 else 0) + Subdirs(nodes, es[2..])
  }

  lemma {:induction false} SubdirsSame(nodes: seq<Node>, nodes': seq<Node>, es: seq<Entry>)
    requires |nodes'| == |nodes|
    requires forall k :: 0 <= k < |es| ==> InUse(nodes, es[k].ino) && nodes'[es[k].ino].Dir? == nodes[es[k].ino].Dir?
    ensures Subdirs(nodes', es) == Subdirs(nodes, es)
  {
    if es != [] {
      SubdirsSame(nodes, nodes', es[..|es| - 1]);
    }
  }

  lemma StepLinks(t: Tree, op: Op)
    requires TreeOk(t) && Enabled(t, op) && LinksCount(t.nodes)
    ensures LinksCount(Step(t, op).nodes)
  {
    hide RootOk, Resolve, Walkable, Written, NewFile, LinkOk, DirOk;
    var n, n' := t.nodes, Step(t, op).nodes;
    var r := Resolve(t.nodes, ROOT, op.path);
    if op.Write? || r == None || !t.IsDir(r.value) || |t.nodes[r.value].entries| == MAX_ENTRIES {
      forall j | 0 <= j < |n'| && n'[j].Dir? ensures LinkOk(n', j) {
        assert n[j] == n'[j] && NodeOk(n, j, n[j]);
        LinkStays(n, n', j);
      }
    } else {
      var i := FirstFree(t.taken, 0);
      RootInUse(t);
      forall j | 0 <= j < |n'| && n'[j].Dir? ensures LinkOk(n', j) {
        if j != i {
          assert NodeOk(n, j, n[j]);
        }
        LinkAdded(t, r.value, op.name, i, op.Mkdir?, j);
      }
    }
  }

  lemma LinkStays(n: seq<Node>, n': seq<Node>, j: nat)
    requires |n'| == |n| && j < |n| && n[j].Dir? && n'[j] == n[j] && LinkOk(n, j) && DirOk(n, j, n[j].entries)
    requires forall k :: 0 <= k < |n| && n[k] != Free ==> n'[k].Dir? == n[k].Dir?
    ensures LinkOk(n', j)
  {
    var es := n[j].entries[2..];
    forall k | 0 <= k < |es| ensures InUse(n, es[k].ino) {
      assert es[k] == n[j].entries[k + 2];
    }
    SubdirsSame(n, n', es);
  }

  lemma LinkAdded(t: Tree, p: nat, name: string, i: nat, dir: bool, j: nat)
    requires p < |t.nodes| && t.nodes[p].Dir? && i < |t.nodes| && t.nodes[i] == Free
    requires j < |t.nodes|
      && (j != i && t.nodes[j].Dir? ==> LinkOk(t.nodes, j) && DirOk(t.nodes, j, t.nodes[j].entries))
    requires i != ROOT && Added(t.nodes, p, name, i, dir)[j].Dir?
    ensures LinkOk(Added(t.nodes, p, name, i, dir), j)
  {
    var n, n' := t.nodes, Added(t.nodes, p, name, i, dir);
    if j == i {
      assert n'[i].entries[2..] == [];
    } else {
      var es := n[j].entries[2..];
      forall k | 0 <= k < |es| ensures InUse(n, es[k].ino) {
        assert es[k] == n[j].entries[k + 2];
      }
      SubdirsSame(n, n', es);
      if j == p {
        var es' := n'[p].entries[2..];
        assert es' == es + [Entry(i, name)] && es'[..|es'| - 1] == es;
      }
    }
  }

  /** In every run from a new file system. */
  lemma {:induction false} RunLinks(t: Tree, ops: seq<Op>)
    requires TreeOk(t) && CanRun(t, ops) && LinksCount(t.nodes)
    ensures LinksCount(After(t, ops).nodes)
    decreases |ops|
  {
    hide TreeOk, Enabled, Step, LinksCount;
    if ops != [] {
      StepOk(t, ops[0]);
      StepLinks(t, ops[0]);
      RunLinks(Step(t, ops[0]), ops[1..]);
    }
  }

  lemma StartLinks()
    ensures LinksCount(Start().nodes)
  {
    var n := Start().nodes;
    assert forall i :: 0 < i < |n| ==> n[i] == Free;
    assert n[ROOT].entries[2..] == [];
  }
}
