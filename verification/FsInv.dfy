/** How the disk holds the tree: every inode and block in its place, no block in two places, and both bitmaps
    marking exactly what is in use. Each change to the disk that the program makes keeps this. */
module FsInv {
  import opened FsTree
  import opened FsLayout
  import opened Words
  import Bitmap

  /** A direct pointer: number `k` of inode `ino`. */
  datatype Place = Place(ino: nat, k: nat)

  type Owners = map<nat, Place>

  ghost predicate Shape(d: Disk) {
    && TableOk(d)
    && d[I_BITMAP].Bits? && |d[I_BITMAP].bits| == I_BITMAP_BYTES
    && d[D_BITMAP].Bits? && |d[D_BITMAP].bits| == D_BITMAP_BYTES
  }

  ghost function Pointer(d: Disk, ino: nat, k: nat): nat
    requires TableOk(d) && ino < MAX_INUM && k < DIRECT
  {
    GetInode(d, ino).ptr[k]
  }

  /** No block is pointed to twice, and only data blocks are. */
  ghost predicate Owned(d: Disk, owner: Owners)
    requires TableOk(d)
  {
    && (forall i, k :: 0 <= i < MAX_INUM && 0 <= k < DIRECT && Pointer(d, i, k) != 0 ==>
          Pointer(d, i, k) in owner && owner[Pointer(d, i, k)] == Place(i, k))
    && (forall b :: b in owner ==>
          D_START <= b < MAX_DNUM && owner[b].ino < MAX_INUM && owner[b].k < DIRECT
            && Pointer(d, owner[b].ino, owner[b].k) == b)
  }

  ghost predicate Metadata(b: nat) { b < D_START }

  ghost function Reserved(): set<nat> {
    set b: nat | b < D_START && Metadata(b)
  }

  ghost predicate Marked(d: Disk, taken: set<nat>, owner: Owners)
    requires Shape(d)
  {
    && Bitmap.Members(Bitmap.LsbFirst, d[I_BITMAP].bits) == taken
    && Bitmap.Members(Bitmap.LsbFirst, d[D_BITMAP].bits) == Reserved() + owner.Keys
  }

  /** Blocks not in use were never written. */
  ghost predicate Untouched(d: Disk, owner: Owners)
    requires TableOk(d)
  {
    forall b :: D_START <= b < MAX_DNUM && b !in owner ==> d[b] == Empty
  }

  /** Block `b` has the entries of a directory from number 19 * k on, and nothing else. */
  ghost predicate DirBlock(b: Block, es: seq<Entry>, k: nat) {
    && b.Dirents? && |b.entries| == DIRENTS_IN_BLOCK
    && (forall j :: 0 <= j < DIRENTS_IN_BLOCK ==> b.entries[j] == DirentAt(es, DIRENTS_IN_BLOCK * k + j))
  }

  ghost function DirentAt(es: seq<Entry>, n: nat): Dirent {
    if n < |es| then Dirent(es[n].ino, true, es[n].name) else NO_DIRENT
  }

  ghost predicate DirStored(d: Disk, ptr: seq<nat>, es: seq<Entry>) {
    && |ptr| == DIRECT && |es| <= MAX_ENTRIES
    && (forall k :: 0 <= k < DIRECT ==> DirSlot(d, ptr[k], es, k))
  }

  ghost predicate DirSlot(d: Disk, p: nat, es: seq<Entry>, k: nat) {
    && (p != 0 <==> DIRENTS_IN_BLOCK * k < |es|)
    && (p != 0 ==> p < |d| && DirBlock(d[p], es, k))
  }

  ghost predicate FileStored(d: Disk, ptr: seq<nat>, image: seq<byte>, held: set<nat>) {
    && |ptr| == DIRECT && |image| == MAX_FILE
    && (forall k :: k in held ==> k < DIRECT)
    && (forall k :: 0 <= k < DIRECT ==> FileSlot(d, ptr[k], image, held, k))
  }

  ghost predicate FileSlot(d: Disk, p: nat, image: seq<byte>, held: set<nat>, k: nat)
    requires |image| == MAX_FILE && k < DIRECT
  {
    && (p != 0 <==> k in held)
    && (if p != 0 then p < |d| && d[p] == Data(BlockImage(image, k)) else BlockImage(image, k) == Zeros(BLOCK_SIZE))
  }

  /** The part of a file's image in its block `k`. */
  ghost function BlockImage(image: seq<byte>, k: nat): (r: seq<byte>)
    requires |image| == MAX_FILE && k < DIRECT
    ensures |r| == BLOCK_SIZE
  {
    image[BLOCK_SIZE * k..BLOCK_SIZE * k + BLOCK_SIZE]
  }

  /** Inode `x`, number `i`, says what `node` is. */
  ghost predicate Stored(d: Disk, i: nat, x: Inode, node: Node) {
    match node
    case Free => !x.valid && x.size == 0 && x.link == 0 && x.ptr == NoPointers()
    case Dir(es, link) => x.valid && x.ino == i && x.kind == DIRECTORY && x.link == link && DirStored(d, x.ptr, es)
    case File(size, image, held) =>
      x.valid && x.ino == i && x.kind == FILE && x.size == size && FileStored(d, x.ptr, image, held)
  }

  ghost predicate AllStored(d: Disk, nodes: seq<Node>)
    requires TableOk(d)
  {
    |nodes| == MAX_INUM && forall i :: 0 <= i < MAX_INUM ==> Stored(d, i, GetInode(d, i), nodes[i])
  }

  ghost predicate DiskInv(d: Disk, t: Tree, owner: Owners) {
    Shape(d) && Owned(d, owner) && Marked(d, t.taken, owner) && Untouched(d, owner) && AllStored(d, t.nodes)
  }

  // ---- A change to the blocks that one inode owns

  /** What an inode says only depends on its own blocks. */
  lemma StoredElsewhere(d: Disk, d': Disk, i: nat, x: Inode, node: Node)
    requires |d'| == |d| && Stored(d, i, x, node)
    requires forall k :: 0 <= k < |x.ptr| && x.ptr[k] != 0 && x.ptr[k] < |d| ==> d'[x.ptr[k]] == d[x.ptr[k]]
    ensures Stored(d', i, x, node)
  {
    match node {
      case Free =>
      case Dir(es, _) =>
        forall k | 0 <= k < DIRECT ensures DirSlot(d', x.ptr[k], es, k) {
          assert DirSlot(d, x.ptr[k], es, k);
        }
      case File(_, image, held) =>
        forall k | 0 <= k < DIRECT ensures FileSlot(d', x.ptr[k], image, held, k) {
          assert FileSlot(d, x.ptr[k], image, held, k);
        }
    }
  }

  /** Two disks agree on what all inodes but one own. */
  lemma OthersStored(d: Disk, nodes: seq<Node>, owner: Owners, ino: nat, d': Disk)
    requires TableOk(d) && Owned(d, owner) && AllStored(d, nodes) && ino < MAX_INUM && TableOk(d')
    requires forall i :: 0 <= i < MAX_INUM && i != ino ==> GetInode(d', i) == GetInode(d, i)
    requires forall b :: b in owner && b < MAX_DNUM && owner[b].ino != ino ==> d'[b] == d[b]
    ensures forall i :: 0 <= i < MAX_INUM && i != ino ==> Stored(d', i, GetInode(d', i), nodes[i])
  {
    hide Stored, GetInode;
    forall i | 0 <= i < MAX_INUM && i != ino ensures Stored(d', i, GetInode(d', i), nodes[i]) {
      var x := GetInode(d, i);
      forall k | 0 <= k < DIRECT && x.ptr[k] != 0 ensures x.ptr[k] < MAX_DNUM && d'[x.ptr[k]] == d[x.ptr[k]] {
        assert Pointer(d, i, k) in owner;
      }
      StoredElsewhere(d, d', i, x, nodes[i]);
    }
  }

  /** The inode is rewritten with the same pointers. */
  lemma InodeKeeps(d: Disk, t: Tree, owner: Owners, ino: nat, x: Inode, node: Node)
    requires DiskInv(d, t, owner) && ino < MAX_INUM && x.ptr == GetInode(d, ino).ptr && Stored(d, ino, x, node)
    ensures DiskInv(PutInode(d, ino, x), t.(nodes := t.nodes[ino := node]), owner)
  {
    hide Stored, GetInode, PutInode;
    var d' := PutInode(d, ino, x);
    forall i | 0 <= i < MAX_INUM ensures GetInode(d', i) == if i == ino then x else GetInode(d, i) {
      GetPut(d, ino, x, i);
    }
    PointersSame(d, owner, d');
    OthersStored(d, t.nodes, owner, ino, d');
    forall k | 0 <= k < DIRECT && x.ptr[k] != 0 ensures x.ptr[k] < MAX_DNUM && d'[x.ptr[k]] == d[x.ptr[k]] {
      assert Pointer(d, ino, k) in owner;
    }
    StoredElsewhere(d, d', ino, x, node);
  }

  lemma PointersSame(d: Disk, owner: Owners, d': Disk)
    requires TableOk(d) && TableOk(d') && Owned(d, owner)
    requires forall i :: 0 <= i < MAX_INUM ==> GetInode(d', i).ptr == GetInode(d, i).ptr
    ensures Owned(d', owner)
  {
    hide GetInode;
    assert forall i, k :: 0 <= i < MAX_INUM && 0 <= k < DIRECT ==> Pointer(d', i, k) == Pointer(d, i, k);
  }

  /** A block of the inode is rewritten. */
  lemma ReplaceKeeps(d: Disk, t: Tree, owner: Owners, b: nat, blk: Block, node: Node)
    requires DiskInv(d, t, owner) && b in owner && b < MAX_DNUM
    requires owner[b].ino < MAX_INUM && Stored(d[b := blk], owner[b].ino, GetInode(d, owner[b].ino), node)
    ensures DiskInv(d[b := blk], t.(nodes := t.nodes[owner[b].ino := node]), owner)
  {
    hide Stored, GetInode;
    var d', ino := d[b := blk], owner[b].ino;
    forall i | 0 <= i < MAX_INUM ensures TableOk(d') && GetInode(d', i) == GetInode(d, i) {
      PutElsewhere(d, b, blk, i, GetInode(d, i));
    }
    PointersSame(d, owner, d');
    OthersStored(d, t.nodes, owner, ino, d');
  }

  /** An inode number is handed out. */
  lemma TakeKeeps(d: Disk, t: Tree, owner: Owners, bits: seq<bv8>, i: nat)
    requires DiskInv(d, t, owner) && |bits| == I_BITMAP_BYTES
    requires Bitmap.Members(Bitmap.LsbFirst, bits) == t.taken + {i}
    ensures DiskInv(d[I_BITMAP := Bits(bits)], t.(taken := t.taken + {i}), owner)
  {
    hide Stored, GetInode;
    var d' := d[I_BITMAP := Bits(bits)];
    forall j | 0 <= j < MAX_INUM ensures TableOk(d') && GetInode(d', j) == GetInode(d, j) {
      PutElsewhere(d, I_BITMAP, Bits(bits), j, GetInode(d, j));
    }
    PointersSame(d, owner, d');
    AllStoredSame(d, t.nodes, owner, d');
  }

  lemma AllStoredSame(d: Disk, nodes: seq<Node>, owner: Owners, d': Disk)
    requires TableOk(d) && TableOk(d') && Owned(d, owner) && AllStored(d, nodes)
    requires forall i :: 0 <= i < MAX_INUM ==> GetInode(d', i) == GetInode(d, i)
    requires forall b :: b in owner && b < MAX_DNUM ==> d'[b] == d[b]
    ensures AllStored(d', nodes)
  {
    hide Stored, GetInode;
    OthersStored(d, nodes, owner, 0, d');
    OthersStored(d, nodes, owner, 1, d');
  }

  /** The disk after a new block is marked, written, and attached to an inode. */
  function Attached(d: Disk, bits: seq<bv8>, b: nat, blk: Block, ino: nat, x: Inode): (r: Disk)
    requires TableOk(d) && D_START <= b < MAX_DNUM && ino < MAX_INUM && |x.ptr| == DIRECT
    ensures TableOk(r) && r[b] == blk
    ensures forall j :: D_START <= j < MAX_DNUM && j != b ==> r[j] == d[j]
  {
    PutInode(d[D_BITMAP := Bits(bits)][b := blk], ino, x)
  }

  lemma AttachedInode(d: Disk, bits: seq<bv8>, b: nat, blk: Block, ino: nat, x: Inode, i: nat)
    requires TableOk(d) && D_START <= b < MAX_DNUM && ino < MAX_INUM && |x.ptr| == DIRECT && i < MAX_INUM
    ensures GetInode(Attached(d, bits, b, blk, ino, x), i) == if i == ino then x else GetInode(d, i)
  {
    hide GetInode, PutInode;
    var d1 := d[D_BITMAP := Bits(bits)];
    PutElsewhere(d, D_BITMAP, Bits(bits), i, GetInode(d, i));
    PutElsewhere(d1, b, blk, i, GetInode(d, i));
    GetPut(d1[b := blk], ino, x, i);
  }

  lemma AttachKeeps(d: Disk, t: Tree, owner: Owners, bits: seq<bv8>, b: nat, blk: Block, ino: nat, k: nat, x: Inode,
                    node: Node)
    requires DiskInv(d, t, owner) && D_START <= b < MAX_DNUM && b !in owner && ino < MAX_INUM && k < DIRECT
    requires |bits| == D_BITMAP_BYTES
      && Bitmap.Members(Bitmap.LsbFirst, bits) == Bitmap.Members(Bitmap.LsbFirst, d[D_BITMAP].bits) + {b}
    requires Pointer(d, ino, k) == 0 && x.ptr == GetInode(d, ino).ptr[k := b]
    requires var d' := Attached(d, bits, b, blk, ino, x); Stored(d', ino, x, node)
    ensures DiskInv(Attached(d, bits, b, blk, ino, x), t.(nodes := t.nodes[ino := node]), owner[b := Place(ino, k)])
  {
    hide Stored, GetInode, PutInode, Bitmap.Members, Reserved, Marked, Untouched, Attached;
    var d' := Attached(d, bits, b, blk, ino, x);
    forall i | 0 <= i < MAX_INUM ensures GetInode(d', i) == if i == ino then x else GetInode(d, i) {
      AttachedInode(d, bits, b, blk, ino, x, i);
    }
    AttachOwned(d, owner, d', ino, k, b);
    AttachMarked(d, t.taken, owner, bits, b, blk, ino, k, x);
    OthersStored(d, t.nodes, owner, ino, d');
  }

  lemma AttachMarked(d: Disk, taken: set<nat>, owner: Owners, bits: seq<bv8>, b: nat, blk: Block, ino: nat, k: nat,
                     x: Inode)
    requires Shape(d) && Marked(d, taken, owner) && Untouched(d, owner)
    requires D_START <= b < MAX_DNUM && ino < MAX_INUM && |x.ptr| == DIRECT && |bits| == D_BITMAP_BYTES
      && Bitmap.Members(Bitmap.LsbFirst, bits) == Bitmap.Members(Bitmap.LsbFirst, d[D_BITMAP].bits) + {b}
    ensures var d' := Attached(d, bits, b, blk, ino, x);
      Shape(d') && Marked(d', taken, owner[b := Place(ino, k)]) && Untouched(d', owner[b := Place(ino, k)])
  {
    hide PutInode, Bitmap.Members, Reserved;
  }

  lemma AttachOwned(d: Disk, owner: Owners, d': Disk, ino: nat, k: nat, b: nat)
    requires TableOk(d) && TableOk(d') && Owned(d, owner) && ino < MAX_INUM && k < DIRECT
    requires D_START <= b < MAX_DNUM && b !in owner && Pointer(d, ino, k) == 0
    requires forall i :: 0 <= i < MAX_INUM ==>
      GetInode(d', i).ptr == if i == ino then GetInode(d, ino).ptr[k := b] else GetInode(d, i).ptr
    ensures Owned(d', owner[b := Place(ino, k)])
  {
    hide GetInode;
    assert forall i, j :: 0 <= i < MAX_INUM && 0 <= j < DIRECT ==>
      Pointer(d', i, j) == if i == ino && j == k then b else Pointer(d, i, j);
  }

  // ---- What a change makes of a directory or a file

  /** The blocks of an inode are distinct. */
  ghost predicate DistinctPointers(ptr: seq<nat>) {
    forall j, k :: 0 <= j < |ptr| && 0 <= k < |ptr| && j != k && ptr[j] != 0 ==> ptr[j] != ptr[k]
  }

  lemma OwnedDistinct(d: Disk, owner: Owners, ino: nat)
    requires TableOk(d) && Owned(d, owner) && ino < MAX_INUM
    ensures DistinctPointers(GetInode(d, ino).ptr)
    ensures forall k :: 0 <= k < DIRECT && GetInode(d, ino).ptr[k] != 0 ==>
      var b := GetInode(d, ino).ptr[k]; b in owner && owner[b] == Place(ino, k) && D_START <= b < MAX_DNUM
  {
    var ptr := GetInode(d, ino).ptr;
    forall k | 0 <= k < DIRECT && ptr[k] != 0
      ensures ptr[k] in owner && owner[ptr[k]] == Place(ino, k) && D_START <= ptr[k] < MAX_DNUM
    {
      assert Pointer(d, ino, k) == ptr[k];
    }
  }

  /** One more entry in the last block of a directory. */
  lemma GrowStored(d: Disk, ptr: seq<nat>, es: seq<Entry>, e: Entry)
    requires DirStored(d, ptr, es) && DistinctPointers(ptr) && |es| < MAX_ENTRIES && |es| % DIRENTS_IN_BLOCK != 0
    ensures var k, j := |es| / DIRENTS_IN_BLOCK, |es| % DIRENTS_IN_BLOCK; var b := ptr[k];
      && b != 0 && b < |d| && DirBlock(d[b], es, k)
      && DirStored(d[b := Dirents(d[b].entries[j := Dirent(e.ino, true, e.name)])], ptr, es + [e])
  {
    var k, j := |es| / DIRENTS_IN_BLOCK, |es| % DIRENTS_IN_BLOCK;
    assert DirSlot(d, ptr[k], es, k);
    var b := ptr[k];
    var d' := d[b := Dirents(d[b].entries[j := Dirent(e.ino, true, e.name)])];
    forall k' | 0 <= k' < DIRECT ensures DirSlot(d', ptr[k'], es + [e], k') {
      assert DirSlot(d, ptr[k'], es, k');
    }
  }

  /** The first entry in a new block of a directory. */
  lemma GrowNewStored(d: Disk, ptr: seq<nat>, es: seq<Entry>, e: Entry, d': Disk, b: nat)
    requires DirStored(d, ptr, es) && |es| < MAX_ENTRIES && |es| % DIRENTS_IN_BLOCK == 0
    requires |d'| == |d| && 0 < b < |d| && d'[b] == Dirents(NewEntries(e))
    requires forall k :: 0 <= k < DIRECT && ptr[k] != 0 && ptr[k] < |d| ==> d'[ptr[k]] == d[ptr[k]]
    ensures ptr[|es| / DIRENTS_IN_BLOCK] == 0
    ensures DirStored(d', ptr[|es| / DIRENTS_IN_BLOCK := b], es + [e])
  {
    var k := |es| / DIRENTS_IN_BLOCK;
    assert DirSlot(d, ptr[k], es, k);
    var ptr' := ptr[k := b];
    forall k' | 0 <= k' < DIRECT ensures DirSlot(d', ptr'[k'], es + [e], k') {
      assert DirSlot(d, ptr[k'], es, k');
    }
  }

  function NewEntries(e: Entry): (r: seq<Dirent>)
    ensures |r| == DIRENTS_IN_BLOCK && r[0] == Dirent(e.ino, true, e.name)
    ensures forall j :: 1 <= j < DIRENTS_IN_BLOCK ==> r[j] == NO_DIRENT
  {
    seq(DIRENTS_IN_BLOCK, j requires 0 <= j < DIRENTS_IN_BLOCK =>
      if j == 0 then Dirent(e.ino, true, e.name) else NO_DIRENT)
  }

  /** A stretch of block `k` of a file is overwritten, or a new block is put there with it. */
  lemma BlockStored(d: Disk, ptr: seq<nat>, image: seq<byte>, held: set<nat>, k: nat, at: nat, chunk: seq<byte>,
                    d': Disk, b: nat)
    requires FileStored(d, ptr, image, held) && k < DIRECT && at + |chunk| <= BLOCK_SIZE
    requires |d'| == |d| && 0 < b < |d| && (ptr[k] == 0 || ptr[k] == b)
    requires d'[b] == Data(Splice(BlockImage(image, k), at, chunk))
    requires forall j :: 0 <= j < DIRECT && j != k && ptr[j] != 0 && ptr[j] < |d| ==> d'[ptr[j]] == d[ptr[j]]
    ensures BLOCK_SIZE * k + at + |chunk| <= |image|
    ensures FileStored(d', ptr[k := b], Splice(image, BLOCK_SIZE * k + at, chunk), held + {k})
  {
    var ptr', image' := ptr[k := b], Splice(image, BLOCK_SIZE * k + at, chunk);
    assert BlockImage(image', k) == Splice(BlockImage(image, k), at, chunk);
    forall j | 0 <= j < DIRECT ensures FileSlot(d', ptr'[j], image', held + {k}, j) {
      assert FileSlot(d, ptr[j], image, held, j);
      if j != k {
        assert BlockImage(image', j) == BlockImage(image, j);
      }
    }
  }
}
