/** On-disk layout of the Seventh Edition file system and the pure reading of it:
    blocks, inodes, free-list chains and the path from an inode slot to a block. */
module V7Layout {

  const BSIZE: nat := 512
  const NADDR: nat := 13
  const NDIRECT: nat := 10   // NADDR - 3
  const NINDIR: nat := 128   // 1 << NSHIFT, NSHIFT == 7
  const NICFREE: nat := 50
  const INOPB: nat := 8
  const SUPERB: nat := 1
  const ROOTINO: nat := 2
  const NBUFS: nat := 4
  /** Largest inode number a two-byte directory entry can hold. */
  const MAXINO: nat := 65535

  type byte = x: int | 0 <= x < 256

  /** What i_mode & IFMT says; Unused is mode 0. Device nodes keep a device number in addr[0]. */
  datatype Kind = Unused | Regular | Directory | Device

  /** The link count is a short. */
  datatype Inode = Inode(kind: Kind, nlink: int, size: nat, addr: seq<nat>)

  const MAXLINK: int := 32767

  /** What a short keeps of a link count raised by one. */
  function Raised(nlink: int): int { if nlink == MAXLINK then -MAXLINK - 1 else nlink + 1 }

  /** unlink and rmdir: only a positive count is lowered. */
  function Lowered(nlink: int): int { if nlink > 0 then nlink - 1 else nlink }

  datatype Filsys = Filsys(isize: nat, fsize: nat, nfree: int, free: seq<nat>, tfree: int, tinode: int)

  /** The inode ialloc sets up. */
  function NewInode(kind: Kind, dev: nat): (ino: Inode)
    ensures ino.kind == kind && ino.size == 0 && |ino.addr| == NADDR
    ensures kind == Device ==> ino.addr[0] == dev
    ensures forall s :: 0 <= s < NADDR && (kind != Device || s != 0) ==> ino.addr[s] == 0
  {
    Inode(kind, if kind == Directory then 2 else 1, 0, if kind == Device then NoAddrs()[0 := dev] else NoAddrs())
  }

  /** Inode 1 of a volume mkfs has just made holds the bad blocks, none here. */
  function BadBlocks(): Inode { Inode(Regular, 0, 0, NoAddrs()) }

  /** The inodes of a volume mkfs has just made, before the root. */
  function BlankInodes(isize: nat): (t: seq<Inode>)
    requires 2 <= isize
    ensures |t| == (isize - 2) * INOPB + 1
    ensures forall m :: 0 <= m < |t| ==> t[m] == (if m == 1 then BadBlocks() else FreeInode()) && t[m].addr == NoAddrs()
  {
    seq((isize - 2) * INOPB + 1, m => if m == 1 then BadBlocks() else FreeInode())
  }

  /** A block is what was last written into it. Zero is a cleared block: it reads as
      zeros through every view below. */
  datatype Block =
    | Zero
    | Bytes(data: seq<byte>)
    | Addrs(addr: seq<nat>)
    | Chain(nfree: int, free: seq<nat>)
    | Inodes(slots: seq<Inode>)
    | Super(sb: Filsys)

  function NoAddrs(): (a: seq<nat>)
    ensures |a| == NADDR && forall s :: 0 <= s < NADDR ==> a[s] == 0
  {
    seq(NADDR, _ => 0)
  }

  function FreeInode(): Inode { Inode(Unused, 0, 0, NoAddrs()) }

  // ---------- the views the C code gets by casting a buffer ----------

  function AsAddrs(blk: Block): (a: seq<nat>)
    ensures |a| == NINDIR
    ensures blk == Zero ==> forall k :: 0 <= k < NINDIR ==> a[k] == 0
  {
    if blk.Addrs? && |blk.addr| == NINDIR then blk.addr else seq(NINDIR, _ => 0)
  }

  function AsBytes(blk: Block): (d: seq<byte>)
    ensures |d| == BSIZE
    ensures blk == Zero ==> forall k :: 0 <= k < BSIZE ==> d[k] == 0
  {
    if blk.Bytes? && |blk.data| == BSIZE then blk.data else seq(BSIZE, _ => 0)
  }

  function AsInodes(blk: Block): (d: seq<Inode>)
    ensures |d| == INOPB
  {
    if blk.Inodes? && |blk.slots| == INOPB then blk.slots else seq(INOPB, _ => FreeInode())
  }

  function Itod(n: nat): nat { (n + 15) / INOPB }

  function Itoo(n: nat): (k: nat)
    ensures k < INOPB
  {
    (n + 15) % INOPB
  }

  /** openi finds an inode with (n + 15) / INOPB and (n - 1) % INOPB, ialloc with itod and itoo;
      both name the same slot, and no two inodes share one. */
  lemma InodeSlotUnique(n: nat, m: nat)
    requires 1 <= n && 1 <= m
    ensures Itoo(n) == (n - 1) % INOPB
    ensures Itod(n) == Itod(m) && Itoo(n) == Itoo(m) ==> n == m
    ensures 2 <= Itod(n)
  {
  }

  function DiskInode(disk: seq<Block>, n: nat): Inode
  {
    if Itod(n) < |disk| then AsInodes(disk[Itod(n)])[Itoo(n)] else FreeInode()
  }

  /** Inodes only depend on the blocks of the inode list. */
  lemma InodesFrame(disk: seq<Block>, disk': seq<Block>, isize: nat, n: nat)
    requires 1 <= n <= (isize - 2) * INOPB && |disk| == |disk'|
    requires forall x :: 2 <= x < isize && x < |disk| ==> disk[x] == disk'[x]
    ensures 2 <= Itod(n) < isize && DiskInode(disk', n) == DiskInode(disk, n)
  {
  }

  // ---------- from an inode slot to a block ----------

  /** Address number k inside indirect block x; block 0 is "no block". */
  function Entry(disk: seq<Block>, x: nat, k: nat): nat
  {
    if 0 < x < |disk| && k < NINDIR then AsAddrs(disk[x])[k] else 0
  }

  /** The block reached from root through the entries named by path. */
  function Walk(disk: seq<Block>, root: nat, path: seq<nat>): nat
  {
    if path == [] then root
    else Entry(disk, Walk(disk, root, path[..|path| - 1]), path[|path| - 1])
  }

  /** Levels of indirection below slot s of an inode. */
  function Height(s: nat): nat { if s < NDIRECT then 0 else s - NDIRECT + 1 }

  ghost predicate ValidPath(h: nat, path: seq<nat>)
  {
    |path| <= h && forall k :: 0 <= k < |path| ==> path[k] < NINDIR
  }

  function HasBlocks(ino: Inode): bool
  {
    (ino.kind == Regular || ino.kind == Directory) && |ino.addr| == NADDR
  }

  // ---------- file block numbers ----------

  const ONE: nat := NINDIR
  const TWO: nat := 16384     // NINDIR * NINDIR
  const THREE: nat := 2097152 // NINDIR * NINDIR * NINDIR
  /** First file block number that no inode can address. */
  const MAXBN: nat := NDIRECT + ONE + TWO + THREE

  /** The inode slot and the path of indices for file block bn. */
  function SlotOf(bn: nat): nat
  {
    if bn < NDIRECT then bn
    else if bn < NDIRECT + ONE then NDIRECT
    else if bn < NDIRECT + ONE + TWO then NDIRECT + 1
    else NDIRECT + 2
  }

  function PathOf(bn: nat): seq<nat>
  {
    if bn < NDIRECT then []
    else if bn < NDIRECT + ONE then [bn - NDIRECT]
    else if bn < NDIRECT + ONE + TWO then
      var r := bn - NDIRECT - ONE;
      [r / NINDIR % NINDIR, r % NINDIR]
    else
      var r := bn - NDIRECT - ONE - TWO;
      [r / TWO % NINDIR, r / NINDIR % NINDIR, r % NINDIR]
  }

  /** 1 << (k * NSHIFT) */
  function Unit(k: nat): (u: nat)
    ensures 0 < u
  {
    if k == 0 then 1 else if k == 1 then NINDIR else if k == 2 then TWO else THREE
  }

  /** First file block number behind slot s. */
  function FirstBn(s: nat): nat
  {
    if s <= NDIRECT then s else if s == NDIRECT + 1 then NDIRECT + ONE else NDIRECT + ONE + TWO
  }

  /** Shifting and masking picks the entry for one level. */
  lemma PathDigit(bn: nat, t: nat)
    requires bn < MAXBN && t < Height(SlotOf(bn))
    ensures FirstBn(SlotOf(bn)) <= bn && |PathOf(bn)| == Height(SlotOf(bn))
    ensures PathOf(bn)[t] == (bn - FirstBn(SlotOf(bn))) / Unit(Height(SlotOf(bn)) - 1 - t) % NINDIR
  {
  }

  lemma PathOfValid(bn: nat)
    requires bn < MAXBN
    ensures SlotOf(bn) < NADDR
    ensures ValidPath(Height(SlotOf(bn)), PathOf(bn)) && |PathOf(bn)| == Height(SlotOf(bn))
  {
  }

  /** Different file blocks have different places in the tree. */
  lemma PathOfInjective(x: nat, y: nat)
    requires x < MAXBN && y < MAXBN
    requires SlotOf(x) == SlotOf(y) && PathOf(x) == PathOf(y)
    ensures x == y
  {
    if NDIRECT + ONE <= x < NDIRECT + ONE + TWO {
      var r, t := x - NDIRECT - ONE, y - NDIRECT - ONE;
      assert PathOf(x)[0] == PathOf(y)[0] && PathOf(x)[1] == PathOf(y)[1];
      Digits(r, t);
    } else if NDIRECT + ONE + TWO <= x {
      var r, t := x - NDIRECT - ONE - TWO, y - NDIRECT - ONE - TWO;
      assert PathOf(x)[0] == PathOf(y)[0] && PathOf(x)[1] == PathOf(y)[1] && PathOf(x)[2] == PathOf(y)[2];
      assert r / TWO == r / NINDIR / NINDIR && t / TWO == t / NINDIR / NINDIR;
      Digits(r / NINDIR, t / NINDIR);
    } else if NDIRECT <= x {
      assert PathOf(x)[0] == PathOf(y)[0];
    }
  }

  lemma Digits(r: nat, t: nat)
    requires r < TWO && t < TWO
    requires r / NINDIR % NINDIR == t / NINDIR % NINDIR && r % NINDIR == t % NINDIR
    ensures r == t
  {
  }

  /** The disk block holding file block bn, or 0. */
  function BlockOf(disk: seq<Block>, addr: seq<nat>, bn: nat): nat
  {
    if bn < MAXBN && |addr| == NADDR && SlotOf(bn) < NADDR
    then Walk(disk, addr[SlotOf(bn)], PathOf(bn)) else 0
  }

  /** Every block up to the file's size is present. */
  ghost predicate HoleFree(disk: seq<Block>, ino: Inode)
  {
    && ino.size <= MAXBN * BSIZE
    && forall bn :: 0 <= bn && bn * BSIZE < ino.size ==> BlockOf(disk, ino.addr, bn) != 0
  }

  function ByteAt(disk: seq<Block>, addr: seq<nat>, k: nat): byte
  {
    var x := BlockOf(disk, addr, k / BSIZE);
    if x < |disk| then AsBytes(disk[x])[k % BSIZE] else 0
  }

  /** The byte string a reader of the file sees. */
  function Content(disk: seq<Block>, ino: Inode): (c: seq<byte>)
    ensures |c| == ino.size
    ensures forall k :: 0 <= k < ino.size ==> c[k] == ByteAt(disk, ino.addr, k)
  {
    seq(ino.size, k requires 0 <= k => ByteAt(disk, ino.addr, k))
  }
}
