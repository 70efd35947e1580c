/** The file system over an array of blocks. Every operation does to the tree what `FsTree` says, and the disk goes on
    holding the tree. */
module FileSystems {
  import opened FsTree
  import opened FsLayout
  import opened FsInv
  import opened Words
  import Bitmap

  class FileSystem {
    const disk: array<Block>
    const inodeBitmap: array<bv8>
    const dataBitmap: array<bv8>

    /** What the disk holds. */
    ghost var tree: Tree
    ghost var owner: Owners

    ghost predicate Arrays() {
      && disk.Length == MAX_DNUM && inodeBitmap.Length == I_BITMAP_BYTES && dataBitmap.Length == D_BITMAP_BYTES
      && inodeBitmap != dataBitmap && disk as object != inodeBitmap && disk as object != dataBitmap
    }

    /** The disk holds the tree; in the middle of an operation the tree may name inodes not written yet. */
    ghost predicate Stable()
      reads this, disk
    {
      Arrays() && DiskInv(disk[..], tree, owner)
    }

    ghost predicate Valid()
      reads this, disk
    {
      Stable() && TreeOk(tree)
    }

    /** Are `n` data blocks left? */
    ghost predicate BlocksLeft(n: nat)
      reads this`owner
    {
      D_START + |owner| + n <= MAX_DNUM
    }

    /** A new file system: superblock, inode table, bitmaps, and the root directory with its two entries. */
    constructor ()
      ensures Valid() && tree == Start() && |owner| == 1
      ensures fresh(disk) && fresh(inodeBitmap) && fresh(dataBitmap)
    {
      disk := new Block[MAX_DNUM](_ => Empty);
      inodeBitmap := new bv8[I_BITMAP_BYTES](_ => 0);
      dataBitmap := new bv8[D_BITMAP_BYTES](_ => 0);
      tree := Tree(seq(MAX_INUM, _ => Free), {});
      owner := map[];
      new;
      Format();
      MakeRoot();
    }

    /** Superblock, inode table and bitmaps. */
    method Format()
      requires Arrays() && forall b :: 0 <= b < disk.Length ==> disk[b] == Empty
      requires forall i :: 0 <= i < I_BITMAP_BYTES ==> inodeBitmap[i] == 0
      requires forall i :: 0 <= i < D_BITMAP_BYTES ==> dataBitmap[i] == 0
      requires tree == Tree(seq(MAX_INUM, _ => Free), {}) && owner == map[]
      modifies disk, dataBitmap
      ensures Stable()
    {
      hide DiskInv, PutInode, GetInode, Bitmap.Members;
      ghost var d0 := disk[..];
      disk[0] := Super;
      assert disk[..] == d0[0 := Super];
      EmptyTable(disk[..]);
      WriteInodes();
      MarkMetadata();
      ghost var d := disk[..];
      assert inodeBitmap[..] == inodeBitmap[..I_BITMAP_BYTES];
      disk[I_BITMAP] := Bits(inodeBitmap[..]);
      disk[D_BITMAP] := Bits(dataBitmap[..]);
      assert disk[..] == d[I_BITMAP := Bits(inodeBitmap[..])][D_BITMAP := Bits(dataBitmap[..])];
      NoBits(inodeBitmap[..]);
      FormattedOk(d, inodeBitmap[..], dataBitmap[..]);
    }

    /** Inodes 1 and up are written with their numbers, unused. */
    method WriteInodes()
      requires Arrays() && Blank(disk[..])
      modifies disk
      ensures Blank(disk[..])
    {
      hide Blank, PutInode, GetInode;
      var x := Inode(0, false, 0, 0, 0, NoPointers());
      for i := 1 to MAX_INUM
        invariant Blank(disk[..])
      {
        x := Inode(i, false, 0, 0, 0, NoPointers());
        BlankStays(disk[..], i, x);
        Writei(i, x);
      }
    }

    /** The blocks of the superblock, the bitmaps and the inode table count as used. */
    method MarkMetadata()
      requires Arrays() && forall i :: 0 <= i < D_BITMAP_BYTES ==> dataBitmap[i] == 0
      modifies dataBitmap
      ensures Bitmap.Members(Bitmap.LsbFirst, dataBitmap[..]) == Reserved()
    {
      hide Bitmap.Members;
      NoBits(dataBitmap[..]);
      assert (set b: nat | b < 0 && Metadata(b)) == {};
      for i := 0 to D_START
        invariant Bitmap.Members(Bitmap.LsbFirst, dataBitmap[..]) == set b: nat | b < i && Metadata(b)
      {
        Bitmap.SetAt(Bitmap.LsbFirst, dataBitmap, i);
        assert (set b: nat | b < i + 1 && Metadata(b)) == (set b: nat | b < i && Metadata(b)) + {i};
      }
    }

    /** The root directory, its own parent. */
    method MakeRoot()
      requires Stable() && tree == Tree(seq(MAX_INUM, _ => Free), {}) && owner == map[]
      modifies this`tree, this`owner, disk, inodeBitmap, dataBitmap
      ensures Valid() && tree == Start() && |owner| == 1
    {
      hide DiskInv, GetInode;
      var ino := GetAvailIno();
      assert ino == 0;
      InitInode(ino, true, 2);
      AddDots(ino, ino);
      StartOk();
    }

    // ---- Inodes

    method Readi(ino: nat) returns (x: Inode)
      requires Arrays() && TableOk(disk[..]) && ino < MAX_INUM
      ensures x == GetInode(disk[..], ino)
    {
      Places(ino, ino);
      var blk := ino * INODE_BYTES / BLOCK_SIZE + I_START;
      var offset := ino % (BLOCK_SIZE / INODE_BYTES);
      var buf := InodesOf(disk[blk]);
      x := buf[offset];
    }

    method Writei(ino: nat, x: Inode)
      requires Arrays() && TableOk(disk[..]) && ino < MAX_INUM && |x.ptr| == DIRECT
      modifies disk
      ensures disk[..] == PutInode(old(disk[..]), ino, x)
    {
      Places(ino, ino);
      var blk := ino * INODE_BYTES / BLOCK_SIZE + I_START;
      var offset := ino % (BLOCK_SIZE / INODE_BYTES);
      var buf := InodesOf(disk[blk]);
      disk[blk] := Inodes(buf[offset := x]);
    }

    // ---- Bitmaps

    /** The lowest position not set, -1 when there is none. */
    static method FirstUnset(bitmap: array<bv8>) returns (p: int)
      ensures Bitmap.IsFirstFree(Bitmap.Members(Bitmap.LsbFirst, bitmap[..]), 8 * bitmap.Length, p)
    {
      for i := 0 to 8 * bitmap.Length
        invariant forall q: nat :: q < i ==> Bitmap.Bit(Bitmap.LsbFirst, bitmap[..], q)
      {
        if !Bitmap.BitOf(Bitmap.LsbFirst, bitmap[i / 8], i % 8) {
          return i;
        }
      }
      return -1;
    }

    static method CopyBits(bits: seq<bv8>, bitmap: array<bv8>)
      requires |bits| == bitmap.Length
      modifies bitmap
      ensures bitmap[..] == bits
    {
      for i := 0 to |bits|
        invariant bitmap[..i] == bits[..i]
      {
        bitmap[i] := bits[i];
      }
    }

    /** Hands out the lowest inode number not taken, if there is one. */
    method GetAvailIno() returns (ret: int)
      requires Stable() && forall i :: i in tree.taken ==> i < MAX_INUM
      modifies this`tree, disk, inodeBitmap
      ensures Stable() && ret ==
        (if FirstFree(old(tree).taken, 0) == MAX_INUM then -1 else FirstFree(old(tree).taken, 0))
      ensures tree == if ret == -1 then old(tree) else old(tree).(taken := old(tree).taken + {ret})
      ensures forall j :: 0 <= j < MAX_INUM ==> GetInode(disk[..], j) == GetInode(old(disk[..]), j)
    {
      hide Owned, Untouched, AllStored, TableOk, Bitmap.Members, Reserved, GetInode;
      ghost var d := disk[..];
      CopyBits(disk[I_BITMAP].bits, inodeBitmap);
      assert disk[..] == d;
      ret := FirstUnset(inodeBitmap);
      FirstFreeIs(tree.taken, ret);
      if ret >= 0 {
        Bitmap.SetAt(Bitmap.LsbFirst, inodeBitmap, ret);
        assert disk[..] == d;
        TakeKeeps(d, tree, owner, inodeBitmap[..], ret);
        BitmapElsewhere(d, Bits(inodeBitmap[..]));
        disk[I_BITMAP] := Bits(inodeBitmap[..]);
        tree := tree.(taken := tree.taken + {ret});
        assert disk[..] == d[I_BITMAP := Bits(inodeBitmap[..])];
      }
    }

    /** Marks and hands out the lowest free block, if there is one; `bits` is the new bitmap. */
    method GetAvailBlkno() returns (ret: int, ghost bits: seq<bv8>)
      requires Arrays() && Shape(disk[..])
      modifies disk, dataBitmap
      ensures Bitmap.IsFirstFree(Bitmap.Members(Bitmap.LsbFirst, old(disk[D_BITMAP]).bits), MAX_DNUM, ret)
      ensures ret < 0 ==> disk[..] == old(disk[..])
      ensures ret >= 0 ==> disk[..] == old(disk[..])[D_BITMAP := Bits(bits)] && |bits| == D_BITMAP_BYTES
      ensures ret >= 0 ==>
        Bitmap.Members(Bitmap.LsbFirst, bits) == Bitmap.Members(Bitmap.LsbFirst, old(disk[D_BITMAP]).bits) + {ret}
    {
      hide TableOk, Bitmap.Members, Bitmap.IsFirstFree;
      ghost var d := disk[..];
      CopyBits(disk[D_BITMAP].bits, dataBitmap);
      assert disk[..] == d;
      ret := FirstUnset(dataBitmap);
      FirstFreeSign(Bitmap.Members(Bitmap.LsbFirst, dataBitmap[..]), ret);
      if ret >= 0 {
        Bitmap.SetAt(Bitmap.LsbFirst, dataBitmap, ret);
        assert disk[..] == d;
        bits := dataBitmap[..];
        disk[D_BITMAP] := Bits(dataBitmap[..]);
        assert disk[..] == d[D_BITMAP := Bits(dataBitmap[..])];
      } else {
        bits := [];
      }
    }

    // ---- Directories

    /** The entries in a block; none if it was never written. */
    static function EntriesOf(b: Block): seq<Dirent>
      requires b == Empty || b.Dirents?
    {
      if b == Empty then [] else b.entries
    }

    /** Looks a name up in a directory. */
    method DirFind(ino: nat, fname: string) returns (found: bool, e: Dirent)
      requires Stable() && ino < MAX_INUM && !tree.nodes[ino].File?
      ensures found <==> tree.nodes[ino].Dir? && Find(tree.nodes[ino].entries, fname) < |tree.nodes[ino].entries|
      ensures found ==> var es := tree.nodes[ino].entries; e.ino == es[Find(es, fname)].ino
    {
      hide Owned, Marked, Untouched, DirSlot, DirBlock, PutInode, Bitmap.Members;
      e := NO_DIRENT;
      var x := Readi(ino);
      NodeIs(ino);
      if !x.valid {
        return false, e;
      }
      ghost var es := tree.nodes[ino].entries;
      for i := 0 to DIRECT
        invariant forall n :: 0 <= n < |es| && n < DIRENTS_IN_BLOCK * i ==> es[n].name != fname
      {
        SlotFacts(x.ptr, es, i);
        if x.ptr[i] != 0 {
          found, e := FindInBlock(x.ptr[i], fname, es, i);
          if found {
            return;
          }
        }
      }
      NotFound(es, fname);
      found := false;
    }

    /** What the tree says of an inode on the disk. */
    lemma NodeIs(ino: nat)
      requires Stable() && ino < MAX_INUM
      ensures |tree.nodes| == MAX_INUM && Stored(disk[..], ino, GetInode(disk[..], ino), tree.nodes[ino])
      ensures OwnedBy(GetInode(disk[..], ino).ptr, ino, owner)
    {
      hide Marked, Untouched, Stored, Bitmap.Members;
      OwnedDistinct(disk[..], owner, ino);
    }

    lemma SlotFacts(ptr: seq<nat>, es: seq<Entry>, k: nat)
      requires DirStored(disk[..], ptr, es) && k < DIRECT
      ensures ptr[k] != 0 <==> DIRENTS_IN_BLOCK * k < |es|
      ensures ptr[k] != 0 ==> ptr[k] < disk.Length && DirBlock(disk[ptr[k]], es, k)
    {
      assert DirSlot(disk[..], ptr[k], es, k);
    }

    /** Looks a name up in block `k` of a directory. */
    method FindInBlock(b: nat, fname: string, ghost es: seq<Entry>, ghost k: nat) returns (found: bool, e: Dirent)
      requires b < disk.Length && DirBlock(disk[b], es, k)
      requires forall n :: 0 <= n < |es| && n < DIRENTS_IN_BLOCK * k ==> es[n].name != fname
      ensures found ==> Find(es, fname) < |es| && e.ino == es[Find(es, fname)].ino
      ensures !found ==> forall n :: 0 <= n < |es| && n < DIRENTS_IN_BLOCK * (k + 1) ==> es[n].name != fname
    {
      var buf := EntriesOf(disk[b]);
      for j := 0 to DIRENTS_IN_BLOCK
        invariant forall n :: 0 <= n < |es| && n < DIRENTS_IN_BLOCK * k + j ==> es[n].name != fname
      {
        var curr := buf[j];
        assert curr == DirentAt(es, DIRENTS_IN_BLOCK * k + j);
        if curr.valid && curr.name == fname {
          FoundAt(es, fname, DIRENTS_IN_BLOCK * k + j);
          return true, curr;
        }
      }
      return false, NO_DIRENT;
    }

    /** Would-be search for the name: it reads a block only if its number is that of a valid mark. */
    method DuplicateScan(x: Inode, fname: string) returns (found: bool)
      requires Arrays() && |x.ptr| == DIRECT
      requires (exists k :: 0 <= k < DIRECT && x.ptr[k] == 1) ==> disk[1] == Empty || disk[1].Dirents?
      ensures found ==> exists k :: 0 <= k < DIRECT && x.ptr[k] == 1
    {
      for i := 0 to DIRECT {
        if x.ptr[i] == 1 {
          var buf := EntriesOf(disk[x.ptr[i]]);
          for j := 0 to |buf| {
            if buf[j].valid && buf[j].name == fname {
              return true;
            }
          }
        }
      }
      return false;
    }

    /** The first place for another entry: a new block, or slot `index` of block `ptrIndex`. */
    method FindSpot(x: Inode, ghost es: seq<Entry>) returns (found: bool, newBlock: bool, ptrIndex: nat, index: nat)
      requires Arrays() && DirStored(disk[..], x.ptr, es)
      ensures found <==> |es| < MAX_ENTRIES
      ensures found ==> ptrIndex == |es| / DIRENTS_IN_BLOCK && (newBlock <==> |es| % DIRENTS_IN_BLOCK == 0)
      ensures found && !newBlock ==> index == |es| % DIRENTS_IN_BLOCK
    {
      hide DirSlot, DirBlock;
      newBlock, ptrIndex, index := false, 0, 0;
      for i := 0 to DIRECT
        invariant |es| >= DIRENTS_IN_BLOCK * i
      {
        SlotFacts(x.ptr, es, i);
        if x.ptr[i] == 0 {
          return true, true, i, 0;
        }
        var full, j := FirstInvalid(x.ptr[i], es, i);
        if !full {
          return true, false, i, j;
        }
      }
      found := false;
    }

    /** The first slot of block `k` of a directory without an entry. */
    method FirstInvalid(b: nat, ghost es: seq<Entry>, ghost k: nat) returns (full: bool, j: nat)
      requires b < disk.Length && DirBlock(disk[b], es, k) && DIRENTS_IN_BLOCK * k < |es|
      ensures full <==> |es| >= DIRENTS_IN_BLOCK * (k + 1)
      ensures !full ==> j < DIRENTS_IN_BLOCK && |es| == DIRENTS_IN_BLOCK * k + j
    {
      var buf := EntriesOf(disk[b]);
      for i := 0 to DIRENTS_IN_BLOCK
        invariant |es| >= DIRENTS_IN_BLOCK * k + i
      {
        assert buf[i] == DirentAt(es, DIRENTS_IN_BLOCK * k + i);
        if !buf[i].valid {
          return false, i;
        }
      }
      return true, 0;
    }

    /** Adds an entry to a directory: 1 if it did, -1 if the directory is full, 0 if there is no such directory. */
    method DirAdd(x: Inode, fIno: nat, fname: string) returns (ret: int)
      requires Stable() && x.ino < MAX_INUM && x == GetInode(disk[..], x.ino) && !tree.nodes[x.ino].File?
      requires NeedsBlock(tree.nodes[x.ino]) ==> BlocksLeft(1)
      modifies this`tree, this`owner, disk, dataBitmap
      ensures Stable()
      ensures ret == if old(tree).nodes[x.ino] == Free then 0
        else if |old(tree).nodes[x.ino].entries| == MAX_ENTRIES then -1 else 1
      ensures ret != 1 ==> disk[..] == old(disk[..]) && tree == old(tree) && owner == old(owner)
      ensures ret == 1 ==> tree == WithEntry(old(tree), x.ino, Entry(fIno, fname))
      ensures |owner| == |old(owner)| + if NeedsBlock(old(tree).nodes[x.ino]) then 1 else 0
    {
      hide Shape, Owned, Marked, Untouched, AllStored, DirSlot, DirBlock, Bitmap.Members, GetInode;
      NodeIs(x.ino);
      if !x.valid {
        return 0;
      }
      NoMarkedPointer(x.ptr, x.ino);
      var dup := DuplicateScan(x, fname);
      assert !dup;
      var found, newBlock, ptrIndex, index := FindSpot(x, tree.nodes[x.ino].entries);
      if !found {
        return -1;
      }
      if newBlock {
        AddInNewBlock(x, ptrIndex, Entry(fIno, fname));
      } else {
        AddInBlock(x, ptrIndex, index, Entry(fIno, fname));
      }
      return 1;
    }

    lemma NoMarkedPointer(ptr: seq<nat>, ino: nat)
      requires OwnedBy(ptr, ino, owner)
      ensures forall k :: 0 <= k < DIRECT ==> ptr[k] != 1
    {
    }

    method AddInBlock(x: Inode, k: nat, j: nat, e: Entry)
      requires Stable() && x.ino < MAX_INUM && x == GetInode(disk[..], x.ino) && tree.nodes[x.ino].Dir?
      requires var n := |tree.nodes[x.ino].entries|;
        n < MAX_ENTRIES && k == n / DIRENTS_IN_BLOCK && j == n % DIRENTS_IN_BLOCK && j != 0
      modifies this`tree, disk
      ensures Stable() && tree == WithEntry(old(tree), x.ino, e)
    {
      hide Shape, Owned, Marked, Untouched, AllStored, DirSlot, Bitmap.Members, GetInode, DirStored;
      NodeIs(x.ino);
      ghost var es, d := tree.nodes[x.ino].entries, disk[..];
      GrowStored(d, x.ptr, es, e);
      var b := x.ptr[k];
      var buf := EntriesOf(disk[b]);
      disk[b] := Dirents(buf[j := Dirent(e.ino, true, e.name)]);
      assert disk[..] == d[b := Dirents(buf[j := Dirent(e.ino, true, e.name)])];
      ReplaceKeeps(d, tree, owner, b, disk[b], Dir(es + [e], tree.nodes[x.ino].link));
      tree := WithEntry(tree, x.ino, e);
    }

    method AddInNewBlock(x: Inode, k: nat, e: Entry)
      requires Stable() && x.ino < MAX_INUM && x == GetInode(disk[..], x.ino) && tree.nodes[x.ino].Dir? && BlocksLeft(1)
      requires var n := |tree.nodes[x.ino].entries|;
        n < MAX_ENTRIES && k == n / DIRENTS_IN_BLOCK && n % DIRENTS_IN_BLOCK == 0
      modifies this`tree, this`owner, disk, dataBitmap
      ensures Stable() && tree == WithEntry(old(tree), x.ino, e) && |owner| == |old(owner)| + 1
    {
      hide Owned, Marked, Untouched, AllStored, DirSlot, Bitmap.Members, GetInode, DirStored, PutInode, TableOk;
      NodeIs(x.ino);
      ghost var es, d := tree.nodes[x.ino].entries, disk[..];
      var b, bits := GetAvailBlkno();
      FreshBlock(d, tree, owner, b);
      disk[b] := Dirents(NewEntries(e));
      var x' := x.(ptr := x.ptr[k := b]);
      assert disk[..] == d[D_BITMAP := Bits(bits)][b := Dirents(NewEntries(e))];
      TableStays(d, bits, b, disk[b]);
      Writei(x.ino, x');
      assert disk[..] == Attached(d, bits, b, Dirents(NewEntries(e)), x.ino, x');
      GrowNewStored(d, x.ptr, es, e, disk[..], b);
      AttachKeeps(d, tree, owner, bits, b, Dirents(NewEntries(e)), x.ino, k, x', Dir(es + [e], tree.nodes[x.ino].link));
      tree := WithEntry(tree, x.ino, e);
      owner := owner[b := Place(x.ino, k)];
    }

    // ---- Paths

    /** Follows a path from the root; `i` is where it leads. */
    method GetNodeByPath(path: seq<string>) returns (err: bool, x: Inode, ghost i: nat)
      requires Valid() && Walkable(tree.nodes, ROOT, path)
      ensures err <==> Resolve(tree.nodes, ROOT, path) == None
      ensures !err ==> Resolve(tree.nodes, ROOT, path) == Some(i) && InUse(tree.nodes, i) && i < MAX_INUM
      ensures !err ==> x == GetInode(disk[..], i) && x.ino == i
    {
      hide DiskInv, AllOk, RootOk, GetInode;
      InodesKnown();
      var ino := ROOT;
      i := ROOT;
      for k := 0 to |path|
        invariant ino < MAX_INUM && i == ino && InUse(tree.nodes, ino)
        invariant Resolve(tree.nodes, ROOT, path) == Resolve(tree.nodes, ino, path[k..])
        invariant Walkable(tree.nodes, ino, path[k..])
      {
        assert path[k..][0] == path[k] && path[k..][1..] == path[k + 1..];
        var found, e := DirFind(ino, path[k]);
        if !found {
          x := Inode(0, false, 0, 0, 0, NoPointers());
          return true, x, i;
        }
        EntryInUse(tree, ino, Find(tree.nodes[ino].entries, path[k]));
        ino := e.ino;
        i := ino;
      }
      x := Readi(ino);
      InUseIno(ino);
      err := false;
    }

    lemma InodesKnown()
      requires Valid()
      ensures TableOk(disk[..]) && |tree.nodes| == MAX_INUM && InUse(tree.nodes, ROOT)
    {
      hide AllStored, AllOk, Owned, Marked, Untouched;
    }

    lemma InUseIno(ino: nat)
      requires Stable() && ino < MAX_INUM && InUse(tree.nodes, ino)
      ensures GetInode(disk[..], ino).ino == ino && GetInode(disk[..], ino).valid
    {
      NodeIs(ino);
    }

    // ---- Making directories and files

    /** The first steps of making anything: finds the directory, takes an inode number, and enters the name. */
    method Enter(path: seq<string>, name: string) returns (s: Status, newIno: nat, parent: nat)
      requires Valid() && Enabled(tree, Op.Mkdir(path, name)) && BlocksLeft(MakeNeeds(tree, path, false))
      modifies this`tree, this`owner, disk, inodeBitmap, dataBitmap
      ensures Stable() && s == MakeStatus(old(tree), path)
      ensures s != Done ==> |owner| == |old(owner)| && MakeNeeds(old(tree), path, true) == 0
      ensures s == NoEntry ==> tree == old(tree) && Resolve(old(tree).nodes, ROOT, path) == None
      ensures s != NoEntry ==>
        newIno == FirstFree(old(tree).taken, 0) && Resolve(old(tree).nodes, ROOT, path) == Some(parent)
      ensures s == TooBig ==> tree == old(tree).(taken := old(tree).taken + {newIno})
      ensures s == Done ==> old(tree).IsDir(parent) && |old(tree).nodes[parent].entries| < MAX_ENTRIES
      ensures s == Done ==>
        tree == WithEntry(old(tree).(taken := old(tree).taken + {newIno}), parent, Entry(newIno, name))
      ensures s == Done ==> |owner| == |old(owner)| + if NeedsBlock(old(tree).nodes[parent]) then 1 else 0
    {
      hide DiskInv, AllOk, RootOk, GetInode, DirOk, Walkable, Resolve;
      InodesKnown();
      newIno, parent := 0, 0;
      var err, x, p := GetNodeByPath(path);
      if err {
        return NoEntry, newIno, parent;
      }
      RoomLeft(tree.nodes, p);
      newIno := GetAvailIno();
      parent := x.ino;
      var ret := DirAdd(x, newIno, name);
      s := if ret == -1 then TooBig else Done;
    }

    /** Makes a directory. */
    method Mkdir(path: seq<string>, name: string) returns (s: Status)
      requires Valid() && Enabled(tree, Op.Mkdir(path, name)) && BlocksLeft(MakeNeeds(tree, path, true))
      modifies this`tree, this`owner, disk, inodeBitmap, dataBitmap
      ensures Valid() && tree == MakeStep(old(tree), path, name, true) && s == MakeStatus(old(tree), path)
      ensures |owner| == |old(owner)| + MakeNeeds(old(tree), path, true)
    {
      hide DiskInv, AllOk, RootOk, GetInode, DirOk, Walkable, Resolve, MakeStep, WithEntry, NewDir, InUse;
      MakeOk(tree, path, name, true);
      ghost var t := tree;
      var newIno, parent;
      s, newIno, parent := Enter(path, name);
      NotMade(t, path, name, true);
      if s == Done {
        StillFree(t, newIno, parent, name);
        InitInode(newIno, true, 0);
        AddDots(newIno, parent);
        AddLink(parent);
        DirMade(t, path, name, newIno, parent);
      }
    }

    /** Makes an empty file. */
    method Create(path: seq<string>, name: string) returns (s: Status)
      requires Valid() && Enabled(tree, Op.Create(path, name)) && BlocksLeft(MakeNeeds(tree, path, false))
      modifies this`tree, this`owner, disk, inodeBitmap, dataBitmap
      ensures Valid() && tree == MakeStep(old(tree), path, name, false) && s == MakeStatus(old(tree), path)
      ensures |owner| == |old(owner)| + MakeNeeds(old(tree), path, false)
    {
      hide DiskInv, AllOk, RootOk, GetInode, DirOk, Walkable, Resolve, MakeStep, WithEntry, InUse;
      MakeOk(tree, path, name, false);
      ghost var t := tree;
      var newIno, parent;
      s, newIno, parent := Enter(path, name);
      NotMade(t, path, name, false);
      if s == Done {
        StillFree(t, newIno, parent, name);
        InitInode(newIno, false, 0);
        FileMade(t, path, name, newIno, parent);
      }
    }

    /** Writes the inode of a new directory, still without entries, or of a new file. */
    method InitInode(ino: nat, dir: bool, link: nat)
      requires Stable() && ino < MAX_INUM && tree.nodes[ino] == Free
      modifies this`tree, disk
      ensures Stable() && tree == old(tree).(nodes := old(tree).nodes[ino := Fresh(dir, link)])
    {
      hide Owned, Marked, Untouched, Bitmap.Members, GetInode;
      NodeIs(ino);
      var x := Readi(ino);
      x := x.(valid := true, ino := ino, kind := if dir then DIRECTORY else FILE,
              size := if dir then x.size else 0, link := link,
                ptr := NoPointers());
      NothingStored(disk[..], ino, x, dir);
      InodeKeeps(disk[..], tree, owner, ino, x, Fresh(dir, link));
      Writei(ino, x);
      tree := tree.(nodes := tree.nodes[ino := Fresh(dir, link)]);
    }

    method AddDots(ino: nat, parent: nat)
      requires Stable() && ino < MAX_INUM && tree.IsDir(ino) && tree.nodes[ino].entries == [] && BlocksLeft(1)
      modifies this`tree, this`owner, disk, dataBitmap
      ensures Stable() && |owner| == |old(owner)| + 1
      ensures
        var es := [Entry(ino, "."), Entry(parent, "..")];
        tree == old(tree).(nodes := old(tree).nodes[ino := Dir(es, old(tree).nodes[ino].link)])
    {
      hide DiskInv, GetInode;
      TableKnown();
      InUseIno(ino);
      var x := Readi(ino);
      var r1 := DirAdd(x, ino, ".");
      TableKnown();
      InUseIno(ino);
      x := Readi(ino);
      var r2 := DirAdd(x, parent, "..");
      assert tree.nodes[ino].entries == [Entry(ino, "."), Entry(parent, "..")];
    }

    lemma TableKnown()
      requires Stable()
      ensures TableOk(disk[..]) && |tree.nodes| == MAX_INUM
    {
      hide Owned, Marked, Untouched, Bitmap.Members;
    }

    /** One more link to a directory. */
    method AddLink(ino: nat)
      requires Stable() && ino < MAX_INUM && tree.IsDir(ino)
      modifies this`tree, disk
      ensures Stable() && tree ==
        old(tree).(nodes := old(tree).nodes[ino := old(tree).nodes[ino].(link := old(tree).nodes[ino].link + 1)])
    {
      hide Owned, Marked, Untouched, Bitmap.Members, GetInode, DirStored;
      NodeIs(ino);
      var x := Readi(ino);
      x := x.(link := x.link + 1);
      ghost var node := tree.nodes[ino].(link := tree.nodes[ino].link + 1);
      InodeKeeps(disk[..], tree, owner, ino, x, node);
      Writei(ino, x);
      tree := tree.(nodes := tree.nodes[ino := node]);
    }

    // ---- Reading and writing

    /** Reads up to `size` bytes of a file from offset `off` on; nothing if the path leads nowhere. */
    method ReadFile(path: seq<string>, size: nat, off: nat) returns (r: Option<seq<byte>>)
      requires Valid() && Walkable(tree.nodes, ROOT, path)
      requires Resolve(tree.nodes, ROOT, path).Some? ==> tree.IsFile(Resolve(tree.nodes, ROOT, path).value)
      modifies disk
      ensures Valid() && disk[..] == old(disk[..])
      ensures match Resolve(tree.nodes, ROOT, path)
        case None => r == None
        case Some(i) => tree.IsFile(i) && FileOk(tree.nodes[i]) && r == Some(Read(tree.nodes[i], off, size))
    {
      hide DiskInv, AllOk, RootOk, GetInode, Walkable, Resolve, Read;
      InodesKnown();
      var err, x, i := GetNodeByPath(path);
      if err {
        return None;
      }
      FileKnown(i);
      if off >= x.size {
        NothingToRead(tree.nodes[i], off, size);
        return Some([]);
      }
      var most := x.size - off;
      var bytes := ReadBlocks(x, if most < size then most else size, off, tree.nodes[i].image, tree.nodes[i].held);
      ReadIs(tree.nodes[i], off, size, bytes);
      PutSame(disk[..], i);
      Writei(x.ino, x);
      return Some(bytes);
    }

    lemma FileKnown(i: nat)
      requires Valid() && tree.IsFile(i)
      ensures i < MAX_INUM && TableOk(disk[..]) && FileOk(tree.nodes[i])
      ensures var x := GetInode(disk[..], i); var node := tree.nodes[i];
        x.valid && x.ino == i && x.size == node.size && FileStored(disk[..], x.ptr, node.image, node.held)
    {
      hide RootOk, GetInode, FileStored;
      InodesKnown();
      NodeIs(i);
      assert NodeOk(tree.nodes, i, tree.nodes[i]);
    }

    /** The loop of a read: block after block until enough bytes are read, or a block is missing. */
    method ReadBlocks(x: Inode, size: nat, off: nat, ghost image: seq<byte>, ghost held: set<nat>)
      returns (bytes: seq<byte>)
      requires Arrays() && FileStored(disk[..], x.ptr, image, held)
      ensures |bytes| == Available(held, off, size)
      ensures bytes == [] || (off + |bytes| <= |image| && bytes == image[off..off + |bytes|])
    {
      hide FileSlot, Arrays, Available, ReadSoFar;
      bytes := [];
      var blk: nat, at: nat, left: nat := off / BLOCK_SIZE, off, size;
      NothingReadYet(image, held, off, size);
      while left > 0 && blk < DIRECT
        invariant ReadSoFar(image, held, off, size, bytes, blk, at, left)
        decreases left
      {
        var bufOffset := at % BLOCK_SIZE;
        var rest := BLOCK_SIZE - bufOffset;
        var n := if left <= rest then left else rest;
        FileSlotFacts(x.ptr, image, held, blk);
        if x.ptr[blk] == 0 {
          ReadOver(image, held, off, size, bytes, blk, at, left);
          return;
        }
        var chunk := BytesOf(disk[x.ptr[blk]])[bufOffset..bufOffset + n];
        ReadNext(image, held, off, size, bytes, blk, at, left, n);
        bytes := bytes + chunk;
        at := 0;
        left := left - n;
        blk := blk + 1;
      }
      ReadOver(image, held, off, size, bytes, blk, at, left);
    }

    lemma FileSlotFacts(ptr: seq<nat>, image: seq<byte>, held: set<nat>, k: nat)
      requires FileStored(disk[..], ptr, image, held) && k < DIRECT
      ensures ptr[k] != 0 <==> k in held
      ensures ptr[k] != 0 ==> ptr[k] < disk.Length && disk[ptr[k]] == Data(BlockImage(image, k))
      ensures ptr[k] == 0 ==> BlockImage(image, k) == Zeros(BLOCK_SIZE)
    {
      assert FileSlot(disk[..], ptr[k], image, held, k);
    }

    /** The bytes in a block; zeros if it was never written. */
    static function BytesOf(b: Block): seq<byte>
      requires b == Empty || b.Data?
    {
      if b == Empty then Zeros(BLOCK_SIZE) else b.bytes
    }

    /** The disk would hold the tree if inode `x` were written. */
    ghost predicate Pending(ino: nat, x: Inode)
      reads this, disk
    {
      && Arrays() && TableOk(disk[..]) && ino < MAX_INUM && |x.ptr| == DIRECT
      && DiskInv(PutInode(disk[..], ino, x), tree, owner)
    }

    /** Writes as much of the data to a file as sixteen blocks hold; tells how many bytes. */
    method WriteFile(path: seq<string>, data: seq<byte>, off: nat) returns (r: Option<nat>)
      requires Valid() && Enabled(tree, Write(path, off, data)) && BlocksLeft(WriteNeeds(tree, path, off, |data|))
      modifies this`tree, this`owner, disk, dataBitmap
      ensures Valid() && tree == WriteStep(old(tree), path, off, data)
      ensures |owner| == |old(owner)| + WriteNeeds(old(tree), path, off, |data|)
      ensures r ==
        match Resolve(old(tree).nodes, ROOT, path) case None => None case Some(i) => Some(Writable(off, |data|))
    {
      hide DiskInv, AllOk, RootOk, GetInode, Walkable, Resolve, PutInode, FileStored, Touched, TableOk;
      ghost var t := tree;
      InodesKnown();
      WriteOk(t, path, off, data);
      var err, x, i := GetNodeByPath(path);
      if err {
        return None;
      }
      FileKnown(i);
      PutSame(disk[..], i);
      assert Pending(i, x);
      var written;
      x, written := WriteBlocks(i, x, data, off);
      Finish(i, x, written);
      WholeWrite(t, i, off, data, written, tree);
      return Some(written);
    }

    /** The end of a write: the inode with its new size goes to the disk. */
    method Finish(ghost ino: nat, x: Inode, written: nat)
      requires Pending(ino, x) && tree.IsFile(ino)
      modifies this`tree, disk
      ensures Stable() && tree ==
        old(tree).(nodes := old(tree).nodes[ino := old(tree).nodes[ino].(size := old(tree).nodes[ino].size + written)])
    {
      hide Owned, Marked, Untouched, Bitmap.Members, GetInode, PutInode, FileStored, TableOk;
      ghost var v := PutInode(disk[..], ino, x);
      GetPut(disk[..], ino, x, ino);
      assert Stored(v, ino, GetInode(v, ino), tree.nodes[ino]);
      var x' := x.(size := x.size + written);
      ghost var node := tree.nodes[ino].(size := tree.nodes[ino].size + written);
      InodeKeeps(v, tree, owner, ino, x', node);
      PutTwice(disk[..], ino, x, x');
      Writei(x.ino, x');
      tree := tree.(nodes := tree.nodes[ino := node]);
    }

    /** The loop of a write: block after block, the inode in memory only. */
    method WriteBlocks(ghost ino: nat, x0: Inode, data: seq<byte>, off: nat) returns (x: Inode, written: nat)
      requires Pending(ino, x0) && tree.IsFile(ino) && FileOk(tree.nodes[ino])
      requires BlocksLeft(|Touched(off, Writable(off, |data|)) - tree.nodes[ino].held|)
      modifies this`tree, this`owner, disk, dataBitmap
      ensures Pending(ino, x) && written == Writable(off, |data|)
      ensures |owner| == |old(owner)| + |Touched(off, written) - old(tree).nodes[ino].held|
      ensures
        var node := WrittenSoFar(old(tree).nodes[ino], off, data, written);
        tree == old(tree).(nodes := old(tree).nodes[ino := node])
    {
      hide DiskInv, PutInode, TableOk, Touched, WrittenSoFar, Pending;
      ghost var t := tree;
      NothingWrittenYet(t.nodes[ino], off, data);
      x, written := x0, 0;
      var blk: nat, at: nat := off / BLOCK_SIZE, off;
      while written < |data| && blk < DIRECT
        invariant Pending(ino, x) && WriteAt(off, data, written, blk, at)
        invariant tree == t.(nodes := t.nodes[ino := WrittenSoFar(t.nodes[ino], off, data, written)])
        invariant tree.IsFile(ino) && FileOk(tree.nodes[ino])
        invariant BlocksLeft(|Touched(off, Writable(off, |data|)) - tree.nodes[ino].held|)
        invariant |owner| + |Touched(off, Writable(off, |data|)) - tree.nodes[ino].held|
               == |old(owner)| + |Touched(off, Writable(off, |data|)) - t.nodes[ino].held|
        decreases |data| - written
      {
        var bufOffset := at % BLOCK_SIZE;
        var rest := BLOCK_SIZE - bufOffset;
        var left := |data| - written;
        var n := if left <= rest then left else rest;
        ghost var held := tree.nodes[ino].held;
        TouchedNext(off, data, written, blk, at, n, held);
        x := WriteBlock(ino, x, blk, bufOffset, data[written..written + n]);
        WrittenNext(t.nodes[ino], off, data, written, blk, bufOffset, n);
        at := 0;
        written := written + n;
        blk := blk + 1;
      }
      AllWrittenNow(off, data, written, blk, at);
      NoneMissing(t.nodes[ino], off, data, written);
    }

    /** Overwrites a stretch of block `k` of a file, getting the block first if it is missing. */
    method WriteBlock(ghost ino: nat, x: Inode, k: nat, at: nat, chunk: seq<byte>) returns (x': Inode)
      requires Pending(ino, x) && tree.IsFile(ino) && FileOk(tree.nodes[ino]) && k < DIRECT
        && at + |chunk| <= BLOCK_SIZE
      requires k !in tree.nodes[ino].held ==> BlocksLeft(1)
      modifies this`tree, this`owner, disk, dataBitmap
      ensures Pending(ino, x')
      ensures tree == old(tree).(nodes := old(tree).nodes[ino := Patched(old(tree).nodes[ino], k, at, chunk)])
      ensures |owner| == |old(owner)| + if k in old(tree).nodes[ino].held then 0 else 1
    {
      hide Owned, Marked, Untouched, AllStored, Bitmap.Members, GetInode, PutInode, FileSlot, TableOk, Patched;
      PendingFile(ino, x, k);
      if x.ptr[k] == 0 {
        x' := WriteNewBlock(ino, x, k, at, chunk);
      } else {
        WriteOldBlock(ino, x, k, at, chunk);
        x' := x;
      }
    }

    /** What a pending inode says of its file and of block `k`. */
    lemma PendingFile(ino: nat, x: Inode, k: nat)
      requires Pending(ino, x) && tree.IsFile(ino) && FileOk(tree.nodes[ino]) && k < DIRECT
      ensures var v := PutInode(disk[..], ino, x); var node := tree.nodes[ino];
        && GetInode(v, ino) == x && FileStored(v, x.ptr, node.image, node.held) && Stored(v, ino, x, node)
        && OwnedBy(x.ptr, ino, owner)
        && (x.ptr[k] == 0 <==> k !in node.held)
        && (x.ptr[k] == 0 ==> BlockImage(node.image, k) == Zeros(BLOCK_SIZE))
        && (x.ptr[k] != 0 ==> D_START <= x.ptr[k] < MAX_DNUM && disk[x.ptr[k]] == Data(BlockImage(node.image, k)))
    {
      hide Marked, Untouched, Bitmap.Members, GetInode, PutInode, TableOk;
      var v := PutInode(disk[..], ino, x);
      GetPut(disk[..], ino, x, ino);
      assert Stored(v, ino, GetInode(v, ino), tree.nodes[ino]);
      OwnedDistinct(v, owner, ino);
      assert FileSlot(v, x.ptr[k], tree.nodes[ino].image, tree.nodes[ino].held, k);
    }

    method WriteOldBlock(ghost ino: nat, x: Inode, k: nat, at: nat, chunk: seq<byte>)
      requires Pending(ino, x) && tree.IsFile(ino) && FileOk(tree.nodes[ino]) && k < DIRECT
        && at + |chunk| <= BLOCK_SIZE
      requires x.ptr[k] != 0
      modifies this`tree, disk
      ensures Pending(ino, x)
      ensures tree == old(tree).(nodes := old(tree).nodes[ino := Patched(old(tree).nodes[ino], k, at, chunk)])
    {
      hide Shape, Owned, Marked, Untouched, AllStored, Bitmap.Members, GetInode, PutInode, FileSlot, TableOk,
        FileStored;
      PendingFile(ino, x, k);
      ghost var d, v, node := disk[..], PutInode(disk[..], ino, x), tree.nodes[ino];
      var b := x.ptr[k];
      var buf := BytesOf(disk[b]);
      disk[b] := Data(Splice(buf, at, chunk));
      assert disk[..] == d[b := Data(Splice(buf, at, chunk))];
      PutElsewhere(d, b, disk[b], ino, x);
      TableSize(v);
      BlockStored(v, x.ptr, node.image, node.held, k, at, chunk, v[b := disk[b]], b);
      assert x.ptr[k := b] == x.ptr;
      ReplaceKeeps(v, tree, owner, b, disk[b], Patched(node, k, at, chunk));
      tree := tree.(nodes := tree.nodes[ino := Patched(node, k, at, chunk)]);
    }

    method WriteNewBlock(ghost ino: nat, x: Inode, k: nat, at: nat, chunk: seq<byte>) returns (x': Inode)
      requires Pending(ino, x) && tree.IsFile(ino) && FileOk(tree.nodes[ino]) && k < DIRECT
        && at + |chunk| <= BLOCK_SIZE
      requires x.ptr[k] == 0 && BlocksLeft(1)
      modifies this`tree, this`owner, disk, dataBitmap
      ensures Pending(ino, x')
      ensures tree == old(tree).(nodes := old(tree).nodes[ino := Patched(old(tree).nodes[ino], k, at, chunk)])
      ensures |owner| == |old(owner)| + 1
    {
      hide Owned, Marked, Untouched, AllStored, Bitmap.Members, GetInode, PutInode, FileSlot, TableOk, FileStored;
      PendingFile(ino, x, k);
      ghost var d, v, node := disk[..], PutInode(disk[..], ino, x), tree.nodes[ino];
      var b, bits := GetAvailBlkno();
      FreshBlock(v, tree, owner, b);
      x' := x.(ptr := x.ptr[k := b]);
      var buf := BytesOf(disk[b]);
      disk[b] := Data(Splice(buf, at, chunk));
      assert disk[..] == d[D_BITMAP := Bits(bits)][b := Data(Splice(buf, at, chunk))];
      ghost var blk := disk[b];
      PendingAttached(d, bits, b, blk, ino, x, x');
      TableSize(v);
      TableSize(Attached(v, bits, b, blk, ino, x'));
      BlockStored(v, x.ptr, node.image, node.held, k, at, chunk, Attached(v, bits, b, blk, ino, x'), b);
      AttachKeeps(v, tree, owner, bits, b, blk, ino, k, x', Patched(node, k, at, chunk));
      tree := tree.(nodes := tree.nodes[ino := Patched(node, k, at, chunk)]);
      owner := owner[b := Place(ino, k)];
    }
  }

  /** The scan finds the lowest free number. */
  lemma FirstFreeIs(taken: set<nat>, p: int)
    requires Bitmap.IsFirstFree(taken, MAX_INUM, p)
    ensures FirstFree(taken, 0) == if p < 0 then MAX_INUM else p
  {
  }

  lemma FirstFreeSign(used: set<nat>, p: int)
    requires Bitmap.IsFirstFree(used, MAX_DNUM, p)
    ensures -1 <= p < MAX_DNUM
  {
  }

  /** The blocks of inode `ino` are its own. */
  ghost predicate OwnedBy(ptr: seq<nat>, ino: nat, owner: Owners) {
    && |ptr| == DIRECT && DistinctPointers(ptr)
    && (forall k :: 0 <= k < DIRECT && ptr[k] != 0 ==>
          ptr[k] in owner && owner[ptr[k]] == Place(ino, k) && D_START <= ptr[k] < MAX_DNUM)
  }

  lemma FoundAt(es: seq<Entry>, name: string, k: nat)
    requires k < |es| && es[k].name == name && forall n :: 0 <= n < k ==> es[n].name != name
    ensures Find(es, name) == k
  {
  }

  lemma NotFound(es: seq<Entry>, name: string)
    requires forall n :: 0 <= n < |es| && n < MAX_ENTRIES ==> es[n].name != name
    requires |es| <= MAX_ENTRIES
    ensures Find(es, name) == |es|
  {
  }

  /** How many blocks making something takes: perhaps one for the entry, and one for a new directory's own entries. */
  ghost function MakeNeeds(t: Tree, path: seq<string>, dir: bool): nat {
    var r := Resolve(t.nodes, ROOT, path);
    if r.Some? && t.IsDir(r.value) && |t.nodes[r.value].entries| < MAX_ENTRIES then
      (if NeedsBlock(t.nodes[r.value]) then 1 else 0) + if dir then 1 else 0
    else 0
  }

  /** How many blocks a write takes: those it touches and the file lacks. */
  ghost function WriteNeeds(t: Tree, path: seq<string>, off: nat, n: nat): nat {
    var r := Resolve(t.nodes, ROOT, path);
    if r.Some? && t.IsFile(r.value) then |Touched(off, Writable(off, n)) - t.nodes[r.value].held| else 0
  }

  /** Does one more entry take one more block? */
  ghost predicate NeedsBlock(node: Node) {
    node.Dir? && |node.entries| < MAX_ENTRIES && |node.entries| % DIRENTS_IN_BLOCK == 0
  }

  /** The tree with one more entry in a directory. */
  ghost function WithEntry(t: Tree, i: nat, e: Entry): Tree
    requires t.IsDir(i)
  {
    t.(nodes := t.nodes[i := Dir(t.nodes[i].entries + [e], t.nodes[i].link)])
  }

  lemma ReservedSize()
    ensures |Reserved()| == D_START
  {
    ReservedBelow(D_START);
    assert Reserved() == set b: nat | b < D_START && Metadata(b);
  }

  lemma {:induction false} ReservedBelow(n: nat)
    requires n <= D_START
    ensures |set b: nat | b < n && Metadata(b)| == n
  {
    if n == 0 {
      assert (set b: nat | b < 0 && Metadata(b)) == {};
    } else {
      ReservedBelow(n - 1);
      assert (set b: nat | b < n && Metadata(b)) == (set b: nat | b < n - 1 && Metadata(b)) + {n - 1};
    }
  }

  lemma MarkedSize(keys: set<nat>)
    requires forall b :: b in keys ==> b >= D_START
    ensures |Reserved() + keys| == D_START + |keys|
  {
    ReservedSize();
    assert Reserved() !! keys;
  }

  /** With blocks left, the lowest free block exists and is a data block nobody owns. */
  lemma FreshBlock(d: Disk, t: Tree, owner: Owners, p: int)
    requires DiskInv(d, t, owner) && D_START + |owner| < MAX_DNUM
    requires Bitmap.IsFirstFree(Bitmap.Members(Bitmap.LsbFirst, d[D_BITMAP].bits), MAX_DNUM, p)
    ensures D_START <= p < MAX_DNUM && p !in owner && d[p] == Empty
  {
    hide AllStored, TableOk, Bitmap.Members, Bitmap.IsFirstFree, Reserved;
    LowestData(owner.Keys, p);
  }

  lemma LowestData(keys: set<nat>, p: int)
    requires Bitmap.IsFirstFree(Reserved() + keys, MAX_DNUM, p) && D_START + |keys| < MAX_DNUM
    requires forall b :: b in keys ==> D_START <= b < MAX_DNUM
    ensures D_START <= p < MAX_DNUM && p !in keys
  {
    MarkedSize(keys);
    Bitmap.FirstFreeExists(Reserved() + keys, MAX_DNUM, p);
    assert 0 <= p < D_START ==> Metadata(p) && p in Reserved();
  }

  lemma TableSize(d: Disk)
    requires TableOk(d)
    ensures |d| == MAX_DNUM
  {
  }

  lemma TableStays(d: Disk, bits: seq<bv8>, b: nat, blk: Block)
    requires TableOk(d) && D_START <= b < MAX_DNUM
    ensures TableOk(d[D_BITMAP := Bits(bits)][b := blk])
  {
  }

  lemma EntryInUse(t: Tree, i: nat, k: nat)
    requires TreeOk(t) && t.IsDir(i) && k < |t.nodes[i].entries|
    ensures InUse(t.nodes, t.nodes[i].entries[k].ino)
  {
    assert NodeOk(t.nodes, i, t.nodes[i]);
  }

  /** A directory still without entries, or an empty file. */
  ghost function Fresh(dir: bool, link: nat): Node {
    if dir then Dir([], link) else NewFile()
  }

  /** An inode without blocks is an empty directory or file. */
  lemma NothingStored(d: Disk, ino: nat, x: Inode, dir: bool)
    requires x.valid && x.ino == ino && x.size == 0 && x.ptr == NoPointers()
    requires x.kind == if dir then DIRECTORY else FILE
    ensures Stored(d, ino, x, Fresh(dir, x.link))
  {
    if !dir {
      forall k | 0 <= k < DIRECT ensures FileSlot(d, x.ptr[k], Zeros(MAX_FILE), {}, k) {
        assert BlockImage(Zeros(MAX_FILE), k) == Zeros(BLOCK_SIZE);
      }
    }
  }

  lemma BitmapElsewhere(d: Disk, blk: Block)
    requires TableOk(d)
    ensures TableOk(d[I_BITMAP := blk])
    ensures forall j :: 0 <= j < MAX_INUM ==> GetInode(d[I_BITMAP := blk], j) == GetInode(d, j)
  {
    forall j | 0 <= j < MAX_INUM ensures GetInode(d[I_BITMAP := blk], j) == GetInode(d, j) {
      PutElsewhere(d, I_BITMAP, blk, j, GetInode(d, j));
    }
  }

  /** A number never handed out is that of a free inode, not of the directory, and stays free when the name is
      entered. */
  lemma StillFree(t: Tree, i: nat, p: nat, name: string)
    requires TreeOk(t) && t.IsDir(p) && i < MAX_INUM && i !in t.taken
    ensures i != p && t.nodes[i] == Free
    ensures var t1 := WithEntry(t.(taken := t.taken + {i}), p, Entry(i, name));
      |t1.nodes| == MAX_INUM && t1.nodes[i] == Free && t1.IsDir(p)
  {
    hide AllOk, RootOk;
    assert t.nodes[p] != Free;
  }

  /** What a call that makes nothing leaves behind. */
  lemma NotMade(t: Tree, path: seq<string>, name: string, dir: bool)
    requires |t.nodes| == MAX_INUM && FirstFree(t.taken, 0) < MAX_INUM
    requires var r := Resolve(t.nodes, ROOT, path); r.Some? ==> t.IsDir(r.value)
    ensures MakeStatus(t, path) == NoEntry ==> MakeStep(t, path, name, dir) == t
    ensures MakeStatus(t, path) == TooBig ==>
      MakeStep(t, path, name, dir) == t.(taken := t.taken + {FirstFree(t.taken, 0)})
  {
    hide Resolve;
  }

  lemma DirMade(t: Tree, path: seq<string>, name: string, i: nat, p: nat)
    requires TreeOk(t) && i == FirstFree(t.taken, 0) < MAX_INUM && Resolve(t.nodes, ROOT, path) == Some(p) && i != p
    requires t.IsDir(p) && |t.nodes[p].entries| < MAX_ENTRIES
    ensures var t1 := WithEntry(t.(taken := t.taken + {i}), p, Entry(i, name));
      t1.(nodes := t1.nodes[i := Fresh(true, 0)]
                           [i := Dir([Entry(i, "."), Entry(p, "..")], 0)]
                           [p := t1.nodes[p].(link := t1.nodes[p].link + 1)])
        == MakeStep(t, path, name, true)
  {
    hide AllOk, RootOk, Resolve;
  }

  lemma FileMade(t: Tree, path: seq<string>, name: string, i: nat, p: nat)
    requires TreeOk(t) && i == FirstFree(t.taken, 0) < MAX_INUM && Resolve(t.nodes, ROOT, path) == Some(p) && i != p
    requires t.IsDir(p) && |t.nodes[p].entries| < MAX_ENTRIES
    ensures var t1 := WithEntry(t.(taken := t.taken + {i}), p, Entry(i, name));
      t1.(nodes := t1.nodes[i := Fresh(false, 0)]) == MakeStep(t, path, name, false)
  {
    hide AllOk, RootOk, Resolve;
  }

  lemma NothingToRead(node: Node, off: nat, n: nat)
    requires FileOk(node) && off >= node.size
    ensures Read(node, off, n) == []
  {
  }

  lemma ReadIs(node: Node, off: nat, n: nat, bytes: seq<byte>)
    requires FileOk(node) && off < node.size
    requires |bytes| == Available(node.held, off, if node.size - off < n then node.size - off else n)
    requires bytes == [] || (off + |bytes| <= |node.image| && bytes == node.image[off..off + |bytes|])
    ensures Read(node, off, n) == bytes
  {
  }

  /** What the loop of a read has done: `bytes` are read, `left` to go, from offset `at` of block `blk` on. */
  ghost predicate ReadSoFar(image: seq<byte>, held: set<nat>, off: nat, size: nat, bytes: seq<byte>, blk: nat, at: nat,
                            left: nat) {
    && left + |bytes| == size
    && (left > 0 ==> BLOCK_SIZE * blk + at % BLOCK_SIZE == off + |bytes|)
    && |bytes| + Available(held, off + |bytes|, left) == Available(held, off, size)
    && (bytes == [] || (off + |bytes| <= |image| && bytes == image[off..off + |bytes|]))
  }

  lemma NothingReadYet(image: seq<byte>, held: set<nat>, off: nat, size: nat)
    ensures ReadSoFar(image, held, off, size, [], off / BLOCK_SIZE, off, size)
  {
    hide Available;
  }

  lemma ReadOver(image: seq<byte>, held: set<nat>, off: nat, size: nat, bytes: seq<byte>, blk: nat, at: nat, left: nat)
    requires ReadSoFar(image, held, off, size, bytes, blk, at, left) && (left == 0 || blk >= DIRECT || blk !in held)
    ensures |bytes| == Available(held, off, size)
    ensures bytes == [] || (off + |bytes| <= |image| && bytes == image[off..off + |bytes|])
  {
  }

  lemma ReadNext(image: seq<byte>, held: set<nat>, off: nat, size: nat, bytes: seq<byte>, blk: nat, at: nat, left: nat,
                 n: nat)
    requires ReadSoFar(image, held, off, size, bytes, blk, at, left) && left > 0 && blk < DIRECT && blk in held
      && |image| == MAX_FILE
    requires n == if left <= BLOCK_SIZE - at % BLOCK_SIZE then left else BLOCK_SIZE - at % BLOCK_SIZE
    ensures var chunk := BlockImage(image, blk)[at % BLOCK_SIZE..at % BLOCK_SIZE + n];
      ReadSoFar(image, held, off, size, bytes + chunk, blk + 1, 0, left - n)
  {
    hide Available, BlockImage;
    OneMoreChunk(image, off, bytes, blk, at % BLOCK_SIZE, n);
    AvailableStep(held, blk, at % BLOCK_SIZE, left, n);
    assert BlockImage(image, blk)[at % BLOCK_SIZE..at % BLOCK_SIZE + n] != [];
  }

  lemma AvailableStep(held: set<nat>, k: nat, at: nat, left: nat, n: nat)
    requires left > 0 && k < DIRECT && k in held && at < BLOCK_SIZE
    requires n == if left <= BLOCK_SIZE - at then left else BLOCK_SIZE - at
    ensures Available(held, BLOCK_SIZE * k + at, left) == n + Available(held, BLOCK_SIZE * k + at + n, left - n)
  {
    var pos := BLOCK_SIZE * k + at;
    assert pos / BLOCK_SIZE == k && pos % BLOCK_SIZE == at;
  }

  lemma OneMoreChunk(image: seq<byte>, off: nat, bytes: seq<byte>, k: nat, at: nat, n: nat)
    requires |image| == MAX_FILE && k < DIRECT && at + n <= BLOCK_SIZE && off + |bytes| == BLOCK_SIZE * k + at
    requires bytes == [] || (off + |bytes| <= |image| && bytes == image[off..off + |bytes|])
    ensures off + |bytes| + n <= |image|
    ensures var chunk := BlockImage(image, k)[at..at + n]; bytes + chunk == image[off..off + |bytes| + n]
  {
    SliceOfSlice(image, BLOCK_SIZE * k, BLOCK_SIZE, at, n);
    assert bytes == image[off..off + |bytes|];
  }

  lemma SliceOfSlice(image: seq<byte>, a: nat, m: nat, at: nat, n: nat)
    requires a + m <= |image| && at + n <= m
    ensures image[a..a + m][at..at + n] == image[a + at..a + at + n]
  {
    var s, t := image[a..a + m][at..at + n], image[a + at..a + at + n];
    assert |s| == n == |t| && forall i :: 0 <= i < n ==> s[i] == t[i];
  }

  /** A file with a stretch of block `k` overwritten. */
  ghost function Patched(node: Node, k: nat, at: nat, chunk: seq<byte>): (r: Node)
    requires FileOk(node) && k < DIRECT && at + |chunk| <= BLOCK_SIZE
    ensures FileOk(r)
  {
    node.(image := Splice(node.image, BLOCK_SIZE * k + at, chunk), held := node.held + {k})
  }

  /** The pending inode written after the new block is what attaching it makes of the disk. */
  lemma PendingAttached(d: Disk, bits: seq<bv8>, b: nat, blk: Block, ino: nat, x: Inode, x': Inode)
    requires TableOk(d) && D_START <= b < MAX_DNUM && ino < MAX_INUM && |x.ptr| == DIRECT && |x'.ptr| == DIRECT
    ensures TableOk(d[D_BITMAP := Bits(bits)][b := blk])
    ensures PutInode(d[D_BITMAP := Bits(bits)][b := blk], ino, x') ==
      Attached(PutInode(d, ino, x), bits, b, blk, ino, x')
  {
    hide PutInode;
    var d1 := d[D_BITMAP := Bits(bits)];
    TableStays(d, bits, b, blk);
    PutElsewhere(d, D_BITMAP, Bits(bits), ino, x);
    PutElsewhere(d1, b, blk, ino, x);
    PutTwice(d1[b := blk], ino, x, x');
  }

  /** A file after the first `done` bytes of a write. */
  ghost function WrittenSoFar(node: Node, off: nat, data: seq<byte>, done: nat): Node
    requires FileOk(node) && done <= |data| && (done > 0 ==> off + done <= MAX_FILE)
  {
    if done == 0 then node
    else node.(image := Splice(node.image, off, data[..done]), held := node.held + Touched(off, done))
  }

  /** The write goes on at offset `at` of block `blk`. */
  ghost predicate WriteAt(off: nat, data: seq<byte>, done: nat, blk: nat, at: nat) {
    && done <= |data| && (done > 0 ==> off + done <= MAX_FILE)
    && (done < |data| ==> BLOCK_SIZE * blk + at % BLOCK_SIZE == off + done && (done > 0 ==> at == 0))
  }

  lemma NothingWrittenYet(node: Node, off: nat, data: seq<byte>)
    requires FileOk(node)
    ensures WrittenSoFar(node, off, data, 0) == node && WriteAt(off, data, 0, off / BLOCK_SIZE, off)
  {
  }

  lemma AllWrittenNow(off: nat, data: seq<byte>, done: nat, blk: nat, at: nat)
    requires WriteAt(off, data, done, blk, at) && (done == |data| || blk >= DIRECT)
    ensures done == Writable(off, |data|)
  {
  }

  lemma NoneMissing(node: Node, off: nat, data: seq<byte>, done: nat)
    requires FileOk(node) && done <= |data| && done == Writable(off, |data|)
    ensures done > 0 ==> off + done <= MAX_FILE
    ensures |Touched(off, done) - WrittenSoFar(node, off, data, done).held| == 0
  {
    assert done == 0 ==> Touched(off, done) == {} by {
      assert forall k: nat | k < DIRECT :: !Touches(k, off, 0);
    }
    assert Touched(off, done) - WrittenSoFar(node, off, data, done).held == {};
  }

  /** The next block of the write is one it touches, and one less is missing once it is there. */
  lemma TouchedNext(off: nat, data: seq<byte>, done: nat, blk: nat, at: nat, n: nat, held: set<nat>)
    requires WriteAt(off, data, done, blk, at) && done < |data| && blk < DIRECT
    requires n == if |data| - done <= BLOCK_SIZE - at % BLOCK_SIZE then |data| - done else BLOCK_SIZE - at % BLOCK_SIZE
    ensures off + done + n <= MAX_FILE && WriteAt(off, data, done + n, blk + 1, 0)
    ensures var touched := Touched(off, Writable(off, |data|));
      |touched - (held + {blk})| == |touched - held| - (if blk in held then 0 else 1)
  {
    var touched := Touched(off, Writable(off, |data|));
    assert Touches(blk, off, Writable(off, |data|)) && blk in touched;
    assert touched - (held + {blk}) == touched - held - {blk};
  }

  lemma WrittenNext(node: Node, off: nat, data: seq<byte>, done: nat, blk: nat, at: nat, n: nat)
    requires FileOk(node) && done + n <= |data| && off + done + n <= MAX_FILE && n > 0 && blk < DIRECT
      && at + n <= BLOCK_SIZE
    requires BLOCK_SIZE * blk + at == off + done && (done > 0 ==> at == 0)
    ensures FileOk(WrittenSoFar(node, off, data, done))
    ensures Patched(WrittenSoFar(node, off, data, done), blk, at, data[done..done + n]) ==
      WrittenSoFar(node, off, data, done + n)
  {
    SpliceMore(node.image, off, data, done, n);
    TouchedMore(off, done, blk, at, n);
  }

  lemma SpliceMore(image: seq<byte>, off: nat, data: seq<byte>, done: nat, n: nat)
    requires done + n <= |data| && off + done + n <= |image|
    ensures Splice(Splice(image, off, data[..done]), off + done, data[done..done + n]) ==
      Splice(image, off, data[..done + n])
    ensures Splice(image, off, data[..0]) == image
  {
  }

  lemma TouchedMore(off: nat, done: nat, blk: nat, at: nat, n: nat)
    requires n > 0 && blk < DIRECT && at + n <= BLOCK_SIZE && BLOCK_SIZE * blk + at == off + done
      && (done > 0 ==> at == 0)
    ensures Touched(off, done) + {blk} == Touched(off, done + n) && Touched(off, 0) == {}
  {
    forall k: nat | k < DIRECT ensures k in Touched(off, done) + {blk} <==> k in Touched(off, done + n) {
      assert k in Touched(off, done) <==> Touches(k, off, done);
      assert k in Touched(off, done + n) <==> Touches(k, off, done + n);
    }
  }

  /** The loop and the new size together are the write. */
  lemma WholeWrite(t: Tree, i: nat, off: nat, data: seq<byte>, written: nat, t': Tree)
    requires t.IsFile(i) && FileOk(t.nodes[i]) && written == Writable(off, |data|)
    requires var node := WrittenSoFar(t.nodes[i], off, data, written);
      t' == t.(nodes := t.nodes[i := node][i := node.(size := node.size + written)])
    ensures t' == t.(nodes := t.nodes[i := Written(t.nodes[i], off, data)])
  {
  }

  /** Nothing but unused inodes, and nothing outside the table but the superblock. */
  ghost predicate Blank(d: Disk) {
    && TableOk(d) && (forall b :: D_START <= b < MAX_DNUM ==> d[b] == Empty)
    && (forall i :: 0 <= i < MAX_INUM ==> Unused(GetInode(d, i)))
  }

  ghost predicate Unused(x: Inode) {
    !x.valid && x.size == 0 && x.link == 0 && x.ptr == NoPointers()
  }

  lemma EmptyTable(d: Disk)
    requires |d| == MAX_DNUM && forall b :: 0 < b < MAX_DNUM ==> d[b] == Empty
    ensures Blank(d)
  {
    forall i | 0 <= i < MAX_INUM ensures Unused(GetInode(d, i)) {
      Places(i, i);
      assert d[BlockOf(i)] == Empty;
    }
  }

  lemma BlankStays(d: Disk, ino: nat, x: Inode)
    requires Blank(d) && ino < MAX_INUM && Unused(x)
    ensures TableOk(d) && |x.ptr| == DIRECT && Blank(PutInode(d, ino, x))
  {
    hide PutInode, GetInode;
    forall i | 0 <= i < MAX_INUM ensures Unused(GetInode(PutInode(d, ino, x), i)) {
      GetPut(d, ino, x, i);
    }
  }

  lemma NoBits(s: seq<bv8>)
    requires forall i :: 0 <= i < |s| ==> s[i] == 0
    ensures Bitmap.Members(Bitmap.LsbFirst, s) == {}
  {
    forall p: nat | p < 8 * |s| ensures !Bitmap.Bit(Bitmap.LsbFirst, s, p) {
      assert s[p / 8] == 0;
    }
  }

  /** A formatted disk holds a tree of unused inodes. */
  lemma FormattedOk(d: Disk, ibits: seq<bv8>, dbits: seq<bv8>)
    requires Blank(d) && |ibits| == I_BITMAP_BYTES && |dbits| == D_BITMAP_BYTES
    requires Bitmap.Members(Bitmap.LsbFirst, ibits) == {} && Bitmap.Members(Bitmap.LsbFirst, dbits) == Reserved()
    ensures DiskInv(d[I_BITMAP := Bits(ibits)][D_BITMAP := Bits(dbits)], Tree(seq(MAX_INUM, _ => Free), {}), map[])
  {
    hide GetInode, Bitmap.Members, Reserved;
    var d1 := d[I_BITMAP := Bits(ibits)];
    var d2 := d1[D_BITMAP := Bits(dbits)];
    forall i | 0 <= i < MAX_INUM ensures TableOk(d1) && TableOk(d2) && Unused(GetInode(d2, i)) {
      PutElsewhere(d, I_BITMAP, Bits(ibits), i, GetInode(d, i));
      PutElsewhere(d1, D_BITMAP, Bits(dbits), i, GetInode(d, i));
    }
    var owner: Owners := map[];
    assert Reserved() + owner.Keys == Reserved();
  }
}
