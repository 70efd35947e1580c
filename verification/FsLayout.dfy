/** The disk: an array of blocks, each read as what was last written to it, and the table of inodes laid out over
    64 of them. */
module FsLayout {
  import opened FsTree
  import opened Words

  const MAX_DNUM: nat := 16384
  const SHORT_BYTES: nat := 2
  const INT_BYTES: nat := 4
  const STAT_BYTES: nat := 144
  const INDIRECT: nat := 8
  const NAME_BYTES: nat := 208
  /** An inode: number and validity, size, kind and links, the pointers, and what the kernel asks for. No field needs
      padding. */
  const INODE_BYTES: nat := 2 * SHORT_BYTES + 3 * INT_BYTES + (DIRECT + INDIRECT) * INT_BYTES + STAT_BYTES
  /** A directory entry: number, validity, name, and the length of the name. */
  const DIRENT_BYTES: nat := 3 * SHORT_BYTES + NAME_BYTES
  const INODES_IN_BLOCK: nat := 16
  const I_BITMAP: nat := 1
  const D_BITMAP: nat := 2
  const I_START: nat := 3
  const D_START: nat := 67
  const I_BITMAP_BYTES: nat := 128
  const D_BITMAP_BYTES: nat := 2048
  const DIRECTORY: nat := 1
  const FILE: nat := 2

  datatype Inode = Inode(ino: nat, valid: bool, size: nat, kind: nat, link: nat, ptr: seq<nat>)

  datatype Dirent = Dirent(ino: nat, valid: bool, name: string)

  /** A block is empty until it is first written. */
  datatype Block =
    | Empty
    | Super
    | Bits(bits: seq<bv8>)
    | Inodes(inodes: seq<Inode>)
    | Dirents(entries: seq<Dirent>)
    | Data(bytes: seq<byte>)

  type Disk = seq<Block>

  function NoPointers(): (r: seq<nat>)
    ensures |r| == DIRECT && forall k :: 0 <= k < DIRECT ==> r[k] == 0
  {
    seq(DIRECT, _ => 0)
  }

  const NO_DIRENT := Dirent(0, false, "")

  /** Sixteen inodes fill a block and nineteen entries are what fits in one; the regions of the disk follow on. */
  lemma Sizes()
    ensures INODE_BYTES == 256 && DIRENT_BYTES == 214
    ensures INODES_IN_BLOCK * INODE_BYTES == BLOCK_SIZE && I_START + MAX_INUM / INODES_IN_BLOCK == D_START
    ensures DIRENTS_IN_BLOCK * DIRENT_BYTES <= BLOCK_SIZE < (DIRENTS_IN_BLOCK + 1) * DIRENT_BYTES
    ensures 8 * I_BITMAP_BYTES == MAX_INUM && 8 * D_BITMAP_BYTES == MAX_DNUM && D_BITMAP_BYTES <= BLOCK_SIZE
  {
  }

  // ---- The inode table

  predicate InodeBlockOk(b: Block) {
    b == Empty ||
    (b.Inodes? && |b.inodes| == INODES_IN_BLOCK && forall k :: 0 <= k < INODES_IN_BLOCK ==> |b.inodes[k].ptr| == DIRECT)
  }

  /** The inodes in a block; all blank if it was never written. */
  function InodesOf(b: Block): (r: seq<Inode>)
    requires InodeBlockOk(b)
    ensures |r| == INODES_IN_BLOCK && forall k :: 0 <= k < INODES_IN_BLOCK ==> |r[k].ptr| == DIRECT
    ensures b == Empty ==> forall k :: 0 <= k < INODES_IN_BLOCK ==> r[k] == Inode(0, false, 0, 0, 0, NoPointers())
  {
    if b == Empty then seq(INODES_IN_BLOCK, _ => Inode(0, false, 0, 0, 0, NoPointers())) else b.inodes
  }

  predicate TableOk(d: Disk) {
    |d| == MAX_DNUM && forall b :: I_START <= b < D_START ==> InodeBlockOk(d[b])
  }

  function BlockOf(ino: nat): nat { ino * INODE_BYTES / BLOCK_SIZE + I_START }

  function SlotOf(ino: nat): nat { ino % (BLOCK_SIZE / INODE_BYTES) }

  /** No inode straddles two blocks: the table is an array. */
  lemma Places(i: nat, j: nat)
    requires i < MAX_INUM && j < MAX_INUM
    ensures I_START <= BlockOf(i) < D_START && SlotOf(i) < INODES_IN_BLOCK
    ensures BlockOf(i) == I_START + i / INODES_IN_BLOCK && SlotOf(i) == i % INODES_IN_BLOCK
    ensures BlockOf(i) == BlockOf(j) && SlotOf(i) == SlotOf(j) ==> i == j
  {
    assert BlockOf(i) - I_START == i / 16 && SlotOf(i) == i % 16;
    assert BlockOf(j) - I_START == j / 16 && SlotOf(j) == j % 16;
  }

  function GetInode(d: Disk, ino: nat): (r: Inode)
    requires TableOk(d) && ino < MAX_INUM
    ensures |r.ptr| == DIRECT
  {
    Places(ino, ino);
    InodesOf(d[BlockOf(ino)])[SlotOf(ino)]
  }

  function PutInode(d: Disk, ino: nat, x: Inode): (r: Disk)
    requires TableOk(d) && ino < MAX_INUM && |x.ptr| == DIRECT
    ensures TableOk(r)
    ensures forall b :: 0 <= b < MAX_DNUM && !(I_START <= b < D_START) ==> r[b] == d[b]
  {
    Places(ino, ino);
    d[BlockOf(ino) := Inodes(InodesOf(d[BlockOf(ino)])[SlotOf(ino) := x])]
  }

  lemma GetPut(d: Disk, ino: nat, x: Inode, j: nat)
    requires TableOk(d) && ino < MAX_INUM && |x.ptr| == DIRECT && j < MAX_INUM
    ensures GetInode(PutInode(d, ino, x), j) == if j == ino then x else GetInode(d, j)
  {
    Places(ino, j);
  }

  lemma PutSame(d: Disk, ino: nat)
    requires TableOk(d) && ino < MAX_INUM && GetInode(d, ino).valid
    ensures PutInode(d, ino, GetInode(d, ino)) == d
  {
    Places(ino, ino);
    var inodes, k := InodesOf(d[BlockOf(ino)]), SlotOf(ino);
    assert d[BlockOf(ino)] != Empty && inodes[k := inodes[k]] == inodes;
  }

  lemma PutTwice(d: Disk, ino: nat, x: Inode, y: Inode)
    requires TableOk(d) && ino < MAX_INUM && |x.ptr| == DIRECT && |y.ptr| == DIRECT
    ensures PutInode(PutInode(d, ino, x), ino, y) == PutInode(d, ino, y)
  {
    Places(ino, ino);
    var inodes, k := InodesOf(d[BlockOf(ino)]), SlotOf(ino);
    assert inodes[k := x][k := y] == inodes[k := y];
    assert PutInode(PutInode(d, ino, x), ino, y)[BlockOf(ino)] == PutInode(d, ino, y)[BlockOf(ino)];
  }

  /** A change outside the table does not touch inodes, and an inode does not touch what is outside. */
  lemma PutElsewhere(d: Disk, b: nat, blk: Block, ino: nat, x: Inode)
    requires TableOk(d) && b < MAX_DNUM && !(I_START <= b < D_START) && ino < MAX_INUM && |x.ptr| == DIRECT
    ensures TableOk(d[b := blk]) && PutInode(d[b := blk], ino, x) == PutInode(d, ino, x)[b := blk]
    ensures GetInode(d[b := blk], ino) == GetInode(d, ino)
  {
    Places(ino, ino);
  }
}
