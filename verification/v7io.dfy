/** The monitor's V7 file layer: one device, one handle, its buffers and the block cache. */
module V7Io {
  import opened V7Layout
  import FL = V7FreeList
  import opened V7BlockMap
  import opened V7Content
  import opened V7Room

  class V7Io {
    const isize: nat
    const fsize: nat

    var disk: seq<Block>
    /** The in-memory superblock. */
    var sblock: Filsys
    /** b[0] is scratch; b[1..] cache indirect blocks, blknos says which. */
    var b: seq<Block>
    var blknos: seq<nat>
    /** The handle: inode number, in-memory inode and its own buffer. */
    var inum: nat
    var ino: Inode
    var ibuf: Block
    var offset: nat

    /** The inodes in force: the disk's, except that the handle's inode may be ahead. */
    ghost var tab: seq<Inode>
    ghost var own: map<nat, Place>
    /** The free list as a stack, top last. */
    ghost var free: seq<nat>

    ghost function Now(): Vol
      reads this
    {
      Vol(disk, tab, own, free)
    }

    // ---------- invariants ----------

    ghost predicate Shape()
      reads this
    {
      && ROOTINO < isize <= fsize <= |disk|
      && |b| == NBUFS && |blknos| == NBUFS
      && |tab| == (isize - 2) * INOPB + 1 <= MAXINO + 1
      && (forall m :: 0 <= m < |tab| ==> |tab[m].addr| == NADDR)
      && disk[SUPERB].Super?
      && disk[SUPERB].sb.isize == isize && disk[SUPERB].sb.fsize == fsize
    }

    ghost predicate MapOk()
      reads this
    {
      Owned(disk, tab, own) && Covers(own, free, isize, fsize)
    }

    ghost predicate CacheOk()
      reads this
    {
      Cached(disk, b, blknos, own)
    }

    /** The inodes on disk are the inodes in force, inode n excepted. */
    ghost predicate InodesOk(n: nat)
      reads this
    {
      OnDisk(disk, tab, n)
    }

    /** Between system calls: everything on disk and consistent. */
    ghost predicate Valid()
      reads this
    {
      && Shape()
      && FL.Sound(disk, disk[SUPERB].sb, free)
      && MapOk() && CacheOk() && InodesOk(0)
    }

    /** Inside a system call: the handle's inode may be ahead of the disk. */
    ghost predicate Busy()
      reads this
    {
      && Shape()
      && FL.Sound(disk, disk[SUPERB].sb, free)
      && MapOk() && CacheOk() && InodesOk(inum)
      && 1 <= inum < |tab| && tab[inum] == ino
    }

    // ---------- a fresh volume ----------

    /** A cleared disk and a superblock in memory whose free list holds only its end mark. */
    constructor Blank(isize: nat, fsize: nat)
      requires ROOTINO < isize <= fsize
      ensures this.isize == isize && this.fsize == fsize
      ensures disk == seq(fsize, _ => Zero)
      ensures sblock == Filsys(isize, fsize, 1, seq(NICFREE, _ => 0), 0, (isize - 2) * INOPB - 2)
      ensures b == [Zero, Zero, Zero, Zero] && blknos == [0, 0, 0, 0] && offset == 0
      ensures inum == 1 && ino == BadBlocks() && tab == BlankInodes(isize) && own == map[] && free == []
    {
      this.isize, this.fsize := isize, fsize;
      disk := seq(fsize, _ => Zero);
      sblock := Filsys(isize, fsize, 1, seq(NICFREE, _ => 0), 0, (isize - 2) * INOPB - 2);
      b, blknos := [Zero, Zero, Zero, Zero], [0, 0, 0, 0];
      inum, ino, ibuf, offset := 1, BadBlocks(), Zero, 0;
      tab, own, free := BlankInodes(isize), map[], [];
    }

    /** What mkfs does before the root directory gets its entries: every data block freed from the last
        to the first, inode 1 put in use. */
    method Format()
      requires ROOTINO < isize <= fsize == |disk| && (isize - 2) * INOPB <= MAXINO
      requires forall x :: 0 <= x < |disk| ==> disk[x] == Zero
      requires |sblock.free| == NICFREE && sblock.nfree == 1 && sblock.free[0] == 0
      requires sblock.isize == isize && sblock.fsize == fsize && sblock.tfree == 0
      requires |b| == NBUFS && blknos == [0, 0, 0, 0]
      requires inum == 1 && ino == BadBlocks() && tab == BlankInodes(isize) && own == map[] && free == []
      modifies this`disk, this`sblock, this`b, this`free
      ensures Valid() && Busy()
      ensures |free| == fsize - isize && forall x :: x in free <==> isize <= x < fsize
    {
      hide FL.Sound, FL.Holds, Owned;
      FreeAll();
      ghost var d := disk;
      WriteSb();
      FL.SoundFrame(d, disk, sblock, free);
      NothingOwned(disk, tab);
      BlankOnDisk(disk, tab, isize);
      WriteIno();
    }

    /** The root inode of a formatted volume. */
    method AddRoot()
      requires Valid() && tab[ROOTINO].kind == Unused
      modifies this`disk, this`b, this`inum, this`ino, this`tab
      ensures Valid() && Busy() && inum == ROOTINO && ino == NewInode(Directory, 0)
      ensures tab == old(tab)[ROOTINO := ino]
    {
      hide FL.Sound, FL.Holds, Owned, Cached;
      ghost var v := Now();
      inum, ino := ROOTINO, NewInode(Directory, 0);
      tab := tab[inum := ino];
      Enrolled(v, Directory, 0);
      WriteIno();
    }

    /** mkfs's bflist. */
    method FreeAll()
      requires |b| == NBUFS && free == [] && ROOTINO < isize <= fsize == |disk|
      requires sblock.isize == isize && sblock.fsize == fsize && sblock.tfree == 0
      requires sblock.nfree == 1 && |sblock.free| == NICFREE && sblock.free[0] == 0
      modifies this`disk, this`sblock, this`b, this`free
      ensures |b| == NBUFS && |disk| == fsize && forall x :: 0 <= x < isize ==> disk[x] == old(disk)[x]
      ensures sblock.isize == isize && sblock.fsize == fsize
      ensures FL.Sound(disk, sblock, free) && FL.Counts(free, isize, fsize)
    {
      assert FL.Sound(disk, sblock, free) by {
        assert sblock.free[1..1] == [];
      }
      assert FL.Counts(free, fsize, fsize);
      var f := fsize;
      hide FL.Sound, FL.Holds, FL.Counts;
      while f > isize
        invariant isize <= f <= fsize == |disk| && |b| == NBUFS
        invariant sblock.isize == isize && sblock.fsize == fsize
        invariant FL.Sound(disk, sblock, free) && FL.Counts(free, f, fsize)
        invariant forall x :: 0 <= x < isize ==> disk[x] == old(disk)[x]
      {
        f := f - 1;
        FL.CountsDown(free, f, fsize);
        BFree(f);
      }
    }

    // ---------- superblock and free list ----------

    method ReadSb()
      requires SUPERB < |disk| && disk[SUPERB].Super?
      modifies this`sblock
      ensures sblock == disk[SUPERB].sb
    {
      sblock := disk[SUPERB].sb;
    }

    method WriteSb()
      requires SUPERB < |disk|
      modifies this`disk
      ensures disk == old(disk)[SUPERB := Super(sblock)]
    {
      disk := disk[SUPERB := Super(sblock)];
    }

    method BlkClr(bn: nat)
      requires bn < |disk| && |b| == NBUFS
      modifies this`disk, this`b
      ensures disk == old(disk)[bn := Zero] && b == old(b)[0 := Zero]
    {
      b := b[0 := Zero];
      disk := disk[bn := b[0]];
    }

    /** Takes the top of the free stack and clears that block; fails exactly on an empty stack.
        On a sound list the retry loop of the source runs once, because every entry is in range. */
    method Alloc() returns (bno: nat)
      requires Shape() && FL.Sound(disk, disk[SUPERB].sb, free)
      modifies this`disk, this`sblock, this`b, this`free
      ensures Shape() && FL.Sound(disk, disk[SUPERB].sb, free)
      ensures sblock == disk[SUPERB].sb
      ensures b[1..] == old(b)[1..]
      ensures bno == 0 <==> old(free) == []
      ensures bno == 0 ==> free == [] && disk == old(disk)[SUPERB := Super(sblock)]
      ensures bno != 0 ==>
        && isize <= bno < fsize && bno !in free
        && old(free) == free + [bno]
        && disk == old(disk)[SUPERB := Super(sblock)][bno := Zero]
    {
      hide FL.Holds, FL.Sound;
      ReadSb();
      FL.EmptyExactly(disk, sblock, free);
      if sblock.nfree <= 0 || sblock.nfree > NICFREE || sblock.free[sblock.nfree - 1] == 0 {
        FL.SoundFrame(disk, disk[SUPERB := Super(sblock.(nfree := 0))], sblock.(nfree := 0), []);
        sblock := sblock.(nfree := 0);
        WriteSb();
        bno := 0;
        return;
      }
      bno := TakeTop();
    }

    /** Takes the top of the free list, after the superblock has been read; a block that holds the rest of the
        list hands it over before it is cleared. */
    method TakeTop() returns (bno: nat)
      requires Shape() && FL.Sound(disk, disk[SUPERB].sb, free) && sblock == disk[SUPERB].sb && free != []
      modifies this`disk, this`sblock, this`b, this`free
      ensures Shape() && FL.Sound(disk, disk[SUPERB].sb, free) && sblock == disk[SUPERB].sb
      ensures b[1..] == old(b)[1..]
      ensures bno != 0 && isize <= bno < fsize && bno !in free && old(free) == free + [bno]
      ensures disk == old(disk)[SUPERB := Super(sblock)][bno := Zero]
    {
      hide FL.Holds, FL.Sound, FL.Popped;
      FL.Bounds(disk, sblock, free);
      FL.Top(disk, sblock, free);
      FL.Pop(disk, disk[SUPERB := Super(FL.Popped(disk, sblock))][free[|free| - 1] := Zero], sblock, free);
      bno := Unstack();
      assert free == free[..|free| - 1] + [bno];
      free := free[..|free| - 1];
      WriteSb();
      BlkClr(bno);
    }

    /** The top entry leaves the superblock's part of the list; behind it the part is filled from its block. */
    method Unstack() returns (bno: nat)
      requires |b| == NBUFS && |sblock.free| == NICFREE && 0 < sblock.nfree <= NICFREE
      requires var x := sblock.free[sblock.nfree - 1]; x < |disk| && (sblock.nfree == 1 ==> disk[x].Chain?)
      modifies this`sblock, this`b
      ensures bno == old(sblock).free[old(sblock).nfree - 1] && sblock == FL.Popped(disk, old(sblock))
      ensures |b| == NBUFS && b[1..] == old(b)[1..]
      ensures sblock.isize == old(sblock).isize && sblock.fsize == old(sblock).fsize
    {
      bno := sblock.free[sblock.nfree - 1];
      sblock := sblock.(nfree := sblock.nfree - 1);
      if sblock.nfree <= 0 {
        b := b[0 := disk[bno]];
        sblock := sblock.(nfree := b[0].nfree, free := b[0].free);
      }
      sblock := sblock.(tfree := sblock.tfree - 1);
    }

    /** Pushes a block on the free stack. The superblock stays in memory. */
    method BFree(bno: nat)
      requires |b| == NBUFS && FL.Sound(disk, sblock, free)
      requires bno != 0 ==> sblock.isize <= bno < sblock.fsize && bno !in free
      modifies this`disk, this`sblock, this`b, this`free
      ensures |b| == NBUFS && b[1..] == old(b)[1..]
      ensures sblock.isize == old(sblock).isize && sblock.fsize == old(sblock).fsize
      ensures FL.Sound(disk, sblock, free)
      ensures free == if bno == 0 then old(free) else old(free) + [bno]
      ensures |disk| == |old(disk)| && forall x :: 0 <= x < |disk| && x != bno ==> disk[x] == old(disk)[x]
    {
      if bno == 0 {
        return;
      }
      FL.Push(disk, sblock, free, bno);
      if sblock.nfree <= 0 {
        sblock := sblock.(nfree := 1, free := sblock.free[0 := 0]);
      }
      if sblock.nfree >= NICFREE {
        b := b[0 := Chain(sblock.nfree, sblock.free)];
        disk := disk[bno := b[0]];
        sblock := sblock.(nfree := 0);
      }
      sblock := sblock.(free := sblock.free[sblock.nfree := bno], nfree := sblock.nfree + 1);
      sblock := sblock.(tfree := sblock.tfree + 1);
      free := free + [bno];
    }

    // ---------- block maps ----------

    /** The common head of sbmap and wbmap for blocks behind indirection: j counts the levels
        still above the data from 3 down (0: beyond the last level), r is the rest of the block
        number and unit is 1 << sh. */
    method Level(bn: nat) returns (j: nat, r: nat, unit: nat)
      requires NDIRECT <= bn
      ensures j <= 3
      ensures j == 0 <==> MAXBN <= bn
      ensures j != 0 ==> SlotOf(bn) == NADDR - j && r == bn - FirstBn(NADDR - j) && unit == Unit(4 - j)
    {
      r, j, unit := bn - NDIRECT, 3, 1;
      while j > 0
        invariant j <= 3
        invariant j == 0 ==> r == bn - MAXBN
        invariant j > 0 ==> unit == Unit(3 - j) && FirstBn(NADDR - j) <= bn && r == bn - FirstBn(NADDR - j)
      {
        unit := unit * NINDIR;
        if r < unit {
          break;
        }
        r := r - unit;
        j := j - 1;
      }
    }

    /** The disk block behind file block bn of the handle's inode; 0 for a hole, a negative number
        or one beyond the last level. Reads go through the cache. */
    method SbMap(bn: int) returns (nb: nat)
      requires Busy() && HasBlocks(ino)
      modifies this`b, this`blknos
      ensures Busy()
      ensures nb == if bn < 0 then 0 else BlockOf(disk, ino.addr, bn)
    {
      hide FL.Sound, V7Io.MapOk, V7Io.CacheOk, V7Io.InodesOk, At, Walk;
      if bn < 0 {
        return 0;
      }
      if bn < NDIRECT {
        TopOf(bn);
        return ino.addr[bn];
      }
      var j, r, unit := Level(bn);
      if j == 0 {
        return 0;
      }
      nb := ino.addr[NADDR - j];
      ghost var q := Place(inum, NADDR - j, []);
      ghost var p := PathOf(bn);
      ghost var t := 0;
      PathOfValid(bn);
      TopOf(NADDR - j);
      assert p[..0] == [];
      if nb == 0 {
        VoidBelow(bn, 0);
        return 0;
      }
      while j <= 3
        invariant Busy() && HasBlocks(ino)
        invariant t <= |p| && j == 4 - (|p| - t)
        invariant unit == Unit(|p| - t)
        invariant q == Way(bn, t)
        invariant nb == At(disk, tab, q) && nb != 0
        invariant r == bn - FirstBn(SlotOf(bn))
        decreases 4 - j
      {
        InUse(q);
        LoadCache(j, nb);
        unit := unit / NINDIR;
        PathDigit(bn, t);
        var i := r / unit % NINDIR;
        StepDown(bn, t);
        nb := AsAddrs(b[j])[i];
        if nb == 0 {
          VoidBelow(bn, t + 1);
          return 0;
        }
        t := t + 1;
        q := Way(bn, t);
        j := j + 1;
      }
      Arrived(bn);
    }

    /** The first t steps on the way to file block bn of the handle's inode. */
    ghost function Way(bn: nat, t: nat): Place
      requires bn < MAXBN && t <= |PathOf(bn)|
      reads this`inum
    {
      Place(inum, SlotOf(bn), PathOf(bn)[..t])
    }

    lemma TopOf(s: nat)
      requires Busy() && HasBlocks(ino) && s < NADDR
      ensures At(disk, tab, Place(inum, s, [])) == ino.addr[s]
      ensures s < NDIRECT ==> BlockOf(disk, ino.addr, s) == ino.addr[s]
    {
    }

    /** One step further down is one entry of the block reached so far. */
    lemma StepDown(bn: nat, t: nat)
      requires Busy() && HasBlocks(ino) && bn < MAXBN && t < |PathOf(bn)|
      requires At(disk, tab, Way(bn, t)) != 0
      ensures PathOf(bn)[t] < NINDIR && At(disk, tab, Way(bn, t)) < |disk|
      ensures At(disk, tab, Way(bn, t + 1)) == AsAddrs(disk[At(disk, tab, Way(bn, t))])[PathOf(bn)[t]]
    {
      hide Owned, FL.Sound, Cached, OnDisk, Covers;
      InUse(Way(bn, t));
      PathOfValid(bn);
      assert PathOf(bn)[..t + 1][..t] == PathOf(bn)[..t];
    }

    lemma VoidBelow(bn: nat, t: nat)
      requires Busy() && HasBlocks(ino) && bn < MAXBN && t <= |PathOf(bn)|
      requires At(disk, tab, Way(bn, t)) == 0
      ensures BlockOf(disk, ino.addr, bn) == 0
    {
      PathOfValid(bn);
      WalkPrefixZero(disk, ino.addr[SlotOf(bn)], PathOf(bn)[..t], PathOf(bn));
    }

    /** Arriving at the end of the way. */
    lemma Arrived(bn: nat)
      requires Busy() && HasBlocks(ino) && bn < MAXBN
      ensures At(disk, tab, Way(bn, |PathOf(bn)|)) == BlockOf(disk, ino.addr, bn)
    {
      PathOfValid(bn);
      assert PathOf(bn)[..|PathOf(bn)|] == PathOf(bn);
    }

    /** A block found at a place of the handle's inode is in use and in the data area. */
    lemma InUse(q: Place)
      requires Busy() && At(disk, tab, q) != 0
      ensures At(disk, tab, q) in own && own[At(disk, tab, q)] == q
      ensures isize <= At(disk, tab, q) < fsize && At(disk, tab, q) !in free
    {
    }

    /** Makes b[j] hold indirect block nb. */
    method LoadCache(j: nat, nb: nat)
      requires Busy() && 1 <= j < NBUFS
      requires nb in own && isize <= nb < fsize && Above(own[nb]) == NBUFS - j
      modifies this`b, this`blknos
      ensures Busy()
      ensures |b| == NBUFS && |blknos| == NBUFS && blknos[j] == nb && b[j] == disk[nb]
      ensures b[0] == old(b)[0]
    {
      hide FL.Sound, FL.Holds, Owned, OnDisk, Covers, Cached;
      CachedLoad(disk, b, blknos, own, j, nb);
      if blknos[j] != nb {
        b := b[j := disk[nb]];
        blknos := blknos[j := nb];
      }
    }

    lemma ReadBack(j: nat)
      requires Busy() && 1 <= j < NBUFS && blknos[j] != 0
      ensures blknos[j] in own && blknos[j] < |disk| && b[j] == disk[blknos[j]]
    {
    }

    /** A failed alloc touches only the superblock. */
    lemma StarvedKeeps(disk0: seq<Block>, b0: seq<Block>)
      requires Shape() && |disk0| == |disk| && disk == disk0[SUPERB := disk[SUPERB]] && |b| == |b0| == NBUFS && b[1..] == b0[1..]
      requires Owned(disk0, tab, own) && Covers(own, free, isize, fsize) && Cached(disk0, b0, blknos, own)
      requires OnDisk(disk0, tab, inum)
      ensures MapOk() && CacheOk() && InodesOk(inum)
    {
      OnDiskFrame(disk0, disk, tab, tab, isize, inum);
      OwnedFrame(disk0, disk, tab, tab, own);
      CachedFrame(disk0, disk, b0, b, blknos, own, own);
    }

    /** Gives the handle's empty address slot s a fresh block. */
    method FillSlot(s: nat) returns (nb: nat)
      requires Busy() && HasBlocks(ino) && s < NADDR && ino.addr[s] == 0
      modifies this`disk, this`sblock, this`b, this`free, this`own, this`tab, this`ino
      ensures Busy() && HasBlocks(ino)
      ensures nb == 0 ==> free == [] && Starved(old(Now()), Now())
      ensures nb != 0 ==> Filled(old(Now()), Now(), Place(inum, s, []), nb)
      ensures nb != 0 ==> ino == old(ino).(addr := old(ino).addr[s := nb])
      ensures nb == 0 ==> ino == old(ino)
    {
      hide FL.Sound, FL.Holds, Owned, Walk, Cached;
      nb := Alloc();
      if nb == 0 {
        StarvedKeeps(old(disk), old(b));
        return 0;
      }
      OnDiskFrame(old(disk), disk, tab, tab, isize, inum);
      CoversPop(own, free, isize, fsize, nb, Place(inum, s, []));
      CachedFrame(old(disk), disk, old(b), b, blknos, own, own[nb := Place(inum, s, [])]);
      GraftTop(old(disk), disk, tab, tab[inum := ino.(addr := ino.addr[s := nb])], own, inum, s, nb);
      ino := ino.(addr := ino.addr[s := nb]);
      tab := tab[inum := ino];
      own := own[nb := Place(inum, s, [])];
    }

    /** Gives the empty entry i of the indirect block in b[j], which sits at place q of the
        handle's inode, a fresh block and writes the indirect block back. */
    method FillEntry(j: nat, i: nat, ghost q: Place) returns (nb: nat)
      requires Busy() && HasBlocks(ino) && 1 <= j < NBUFS && i < NINDIR
      requires q.n == inum && At(disk, tab, q) != 0 && At(disk, tab, q) == blknos[j] && Above(q) == NBUFS - j
      requires AsAddrs(b[j])[i] == 0
      modifies this`disk, this`sblock, this`b, this`free, this`own
      ensures Busy() && HasBlocks(ino)
      ensures nb == 0 ==> free == [] && Starved(old(Now()), Now())
      ensures nb != 0 ==> Filled(old(Now()), Now(), q.(p := q.p + [i]), nb)
    {
      hide FL.Sound, FL.Holds, Owned, Walk, At, Filled, Cached, OnDisk, Covers, AsAddrs;
      InUse(q);
      NotSuper();
      assert Cached(disk, b, blknos, own);
      ReadBack(j);
      ghost var bq := blknos[j];
      ghost var z := q.(p := q.p + [i]);
      nb := Alloc();
      if nb == 0 {
        StarvedKeeps(old(disk), old(b));
        return 0;
      }
      CoversPop(own, free, isize, fsize, nb, z);
      assert b[j] == b[1..][j - 1] == old(b)[1..][j - 1] == old(disk)[bq];
      CachedFrame(old(disk), disk, old(b), b, blknos, own, own[nb := z]);
      ghost var mid := disk;
      CachedStore(disk, b, blknos, own[nb := z], j, Addrs(AsAddrs(b[j])[i := nb]));
      b := b[j := Addrs(AsAddrs(b[j])[i := nb])];
      disk := disk[blknos[j] := b[j]];
      FL.SoundFrame(mid, disk, disk[SUPERB].sb, free);
      OnDiskFrame(old(disk), disk, tab, tab, isize, inum);
      own := own[nb := z];
      EntryFilled(old(Now()), Now(), q, i, nb);
      assert Shape();
      assert Covers(own, free, isize, fsize);
      assert FL.Sound(disk, disk[SUPERB].sb, free);
      assert MapOk();
      assert CacheOk();
      assert InodesOk(inum);
    }

    /** Chaining two growth steps inside one system call. */
    lemma Chain2(u: Vol, v: Vol, n: nat, bn: nat)
      requires Busy() && Grew(u, v, n, bn) && Grew(v, Now(), n, bn)
      requires Sharing(u) && Sharing(v)
      ensures Grew(u, Now(), n, bn)
    {
      hide Grew, Owned, FL.Sound;
      GrewTwice(u, v, Now(), n, bn);
    }

    /** One level of wbmap: the block behind entry i of b[j], fresh if there was none. */
    method NextBlock(j: nat, i: nat, ghost bn: nat, ghost t: nat) returns (nb: nat)
      requires Busy() && HasBlocks(ino) && 1 <= j < NBUFS && bn < MAXBN && t < |PathOf(bn)|
      requires At(disk, tab, Way(bn, t)) != 0 && At(disk, tab, Way(bn, t)) == blknos[j] && Above(Way(bn, t)) == NBUFS - j
      requires i == PathOf(bn)[t] && i < NINDIR
      requires AsAddrs(b[j])[i] == At(disk, tab, Way(bn, t + 1))
      modifies this`disk, this`sblock, this`b, this`free, this`own
      ensures Busy() && HasBlocks(ino)
      ensures Grew(old(Now()), Now(), inum, bn)
      ensures nb == At(disk, tab, Way(bn, t + 1))
      ensures nb == 0 ==> free == []
    {
      hide FL.Sound, FL.Holds, At, Walk, Cached, OnDisk, Owned, Grew, Filled, Starved;
      ghost var start := Now();
      ghost var z := Way(bn, t + 1);
      assert Look(start, z) == AsAddrs(b[j])[i];
      nb := AsAddrs(b[j])[i];
      if nb != 0 {
        GrewNot(start, inum, bn);
        return nb;
      }
      WayStep(bn, t);
      nb := FillEntry(j, i, Way(bn, t));
      if nb == 0 {
        StarvedGrew(start, Now(), inum, bn);
      } else {
        FilledGrew(start, Now(), z, nb, inum, bn);
      }
    }

    /** wbmap's direct blocks. */
    method WbDirect(bn: nat) returns (nb: nat)
      requires Busy() && HasBlocks(ino) && bn < NDIRECT
      modifies this`disk, this`sblock, this`b, this`free, this`own, this`tab, this`ino
      ensures Busy() && HasBlocks(ino)
      ensures Grew(old(Now()), Now(), inum, bn)
      ensures nb == BlockOf(disk, ino.addr, bn)
      ensures nb == 0 ==> free == []
    {
      hide FL.Sound, FL.Holds, At, Walk, Cached, OnDisk, Owned, Grew, Filled;
      ghost var start := Now();
      TopOf(bn);
      nb := ino.addr[bn];
      if nb != 0 {
        GrewNot(start, inum, bn);
        return nb;
      }
      nb := FillSlot(bn);
      TopOf(bn);
      if nb == 0 {
        StarvedGrew(start, Now(), inum, bn);
        return 0;
      }
      FilledGrew(start, Now(), Place(inum, bn, []), nb, inum, bn);
    }

    /** Like SbMap, but empty slots and entries on the way get fresh blocks. Fails exactly beyond the last
        level or with fewer free blocks than are missing; whatever was hung in before stays in the tree. */
    method WbMap(bn: int) returns (nb: nat)
      requires Busy() && HasBlocks(ino)
      modifies this`disk, this`sblock, this`b, this`blknos, this`free, this`own, this`tab, this`ino
      ensures Busy() && HasBlocks(ino)
      ensures bn < 0 ==> nb == 0 && Now() == old(Now()) && ino == old(ino)
      ensures 0 <= bn ==> Grew(old(Now()), Now(), inum, bn)
      ensures nb != 0 ==> 0 <= bn < MAXBN
      ensures 0 <= bn < MAXBN ==> nb == BlockOf(disk, ino.addr, bn)
      ensures 0 <= bn < MAXBN ==> (nb != 0 <==> Need(old(Now()), inum, bn) <= |old(free)|)
      ensures nb == 0 ==> bn < 0 || MAXBN <= bn || free == []
      ensures nb != 0 ==> |free| == |old(free)| - Need(old(Now()), inum, bn)
    {
      hide FL.Sound, FL.Holds, At, Walk, Grew, Filled, Starved, Need, Sharing, BlockOf, Busy, Shape;
      if bn < 0 {
        return 0;
      }
      ghost var start := Now();
      Shared();
      GrewNot(start, inum, bn);
      NotSuper();
      if bn < NDIRECT {
        nb := WbDirect(bn);
        Accounted(start, bn);
        return nb;
      }
      var j, r, unit := Level(bn);
      if j == 0 {
        return 0;
      }
      PathOfValid(bn);
      nb := WbTop(bn, NADDR - j);
      if nb == 0 {
        VoidBelow(bn, 0);
        Accounted(start, bn);
        return 0;
      }
      ghost var h := |PathOf(bn)|;
      ghost var t := 0;
      while j <= 3
        invariant Busy() && HasBlocks(ino)
        invariant t <= h && j == 4 - (h - t) && unit == Unit(h - t)
        invariant nb == At(disk, tab, Way(bn, t)) && nb != 0
        invariant Grew(start, Now(), inum, bn)
        decreases 4 - j
      {
        ghost var mid := Now();
        Shared();
        unit := unit / NINDIR;
        PathDigit(bn, t);
        nb := WbLevel(j, nb, r / unit % NINDIR, bn, t);
        Chain2(start, mid, inum, bn);
        if nb == 0 {
          VoidBelow(bn, t + 1);
          Accounted(start, bn);
          return 0;
        }
        t := t + 1;
        j := j + 1;
      }
      Arrived(bn);
      Accounted(start, bn);
    }

    /** The free stack and the owners share out the data area. */
    ghost predicate Sharing(v: Vol)
    {
      Owned(v.disk, v.tab, v.own) && Covers(v.own, v.free, isize, fsize) && FL.Distinct(v.free)
    }

    lemma Shared()
      requires Busy()
      ensures Sharing(Now())
    {
      FL.Bounds(disk, disk[SUPERB].sb, free);
    }

    /** How many blocks wbmap took. */
    lemma Accounted(v: Vol, bn: nat)
      requires Busy() && HasBlocks(ino) && bn < MAXBN && Sharing(v) && Grew(v, Now(), inum, bn)
      requires free == [] || BlockOf(disk, ino.addr, bn) != 0
      ensures BlockOf(disk, ino.addr, bn) != 0 <==> Need(v, inum, bn) <= |v.free|
      ensures BlockOf(disk, ino.addr, bn) != 0 ==> |free| == |v.free| - Need(v, inum, bn)
    {
      GrowthCount(v, Now(), inum, bn, isize, fsize);
    }

    /** wbmap's top indirect block, in address slot s. */
    method WbTop(bn: nat, s: nat) returns (nb: nat)
      requires Busy() && HasBlocks(ino) && bn < MAXBN && s == SlotOf(bn) < NADDR
      modifies this`disk, this`sblock, this`b, this`free, this`own, this`tab, this`ino
      ensures Busy() && HasBlocks(ino)
      ensures Grew(old(Now()), Now(), inum, bn)
      ensures nb == 0 ==> free == []
      ensures nb == At(disk, tab, Way(bn, 0))
    {
      hide FL.Sound, FL.Holds, At, Walk, Cached, OnDisk, Owned, Covers, Grew, Filled, Starved;
      ghost var start := Now();
      NotSuper();
      TopOf(s);
      assert PathOf(bn)[..0] == [];
      nb := ino.addr[s];
      if nb != 0 {
        GrewNot(start, inum, bn);
        return;
      }
      nb := FillSlot(s);
      TopOf(s);
      if nb == 0 {
        StarvedGrew(start, Now(), inum, bn);
        return;
      }
      FilledGrew(start, Now(), Place(inum, s, []), nb, inum, bn);
    }

    /** One level of wbmap: the indirect block nb through the cache, then its entry i. */
    method WbLevel(j: nat, nb: nat, i: nat, ghost bn: nat, ghost t: nat) returns (next: nat)
      requires Busy() && HasBlocks(ino) && 1 <= j < NBUFS && bn < MAXBN && t < |PathOf(bn)|
      requires nb != 0 && nb == At(disk, tab, Way(bn, t)) && Above(Way(bn, t)) == NBUFS - j
      requires i == PathOf(bn)[t]
      modifies this`disk, this`sblock, this`b, this`blknos, this`free, this`own
      ensures Busy() && HasBlocks(ino)
      ensures Grew(old(Now()), Now(), inum, bn)
      ensures next == At(disk, tab, Way(bn, t + 1))
      ensures next == 0 ==> free == []
    {
      hide FL.Sound, FL.Holds, At, Walk, Cached, OnDisk, Owned, Covers, Grew;
      InUse(Way(bn, t));
      StepDown(bn, t);
      LoadCache(j, nb);
      next := NextBlock(j, i, bn, t);
    }

    lemma NotSuper()
      requires Busy()
      ensures SUPERB !in own && SUPERB !in free
    {
    }

    lemma WayStep(bn: nat, t: nat)
      requires bn < MAXBN && t < |PathOf(bn)|
      ensures Way(bn, t + 1) == Way(bn, t).(p := Way(bn, t).p + [PathOf(bn)[t]])
      ensures OnPath(Way(bn, t + 1), inum, bn)
    {
      assert PathOf(bn)[..t + 1] == PathOf(bn)[..t] + [PathOf(bn)[t]];
    }

    // ---------- inodes ----------

    /** openi: loads inode n into the handle. */
    method OpenI(n: nat)
      requires Valid() && 1 <= n < |tab|
      modifies this`inum, this`ino, this`ibuf, this`offset
      ensures Valid() && Busy() && inum == n && ino == tab[n] && offset == 0
    {
      hide FL.Sound, Owned, Cached;
      InodesFrame(disk, disk, isize, n);
      InodeSlotUnique(n, n);
      offset := 0;
      ibuf := disk[(n + 15) / INOPB];
      inum := n;
      ino := AsInodes(ibuf)[(n - 1) % INOPB];
    }

    /** writeino: stores the handle's inode in its slot of the inode list. */
    method WriteIno()
      requires Busy()
      modifies this`disk, this`b
      ensures Valid() && Busy()
      ensures |disk| == |old(disk)| && 2 <= Itod(inum) < isize
      ensures disk == old(disk)[Itod(inum) := disk[Itod(inum)]]
      ensures b[1..] == old(b)[1..]
    {
      hide FL.Sound, Owned, Cached;
      InodesFrame(disk, disk, isize, inum);
      InodeSlotUnique(inum, inum);
      var at := (inum + 15) / INOPB;
      b := b[0 := disk[at]];
      b := b[0 := Inodes(AsInodes(b[0])[(inum - 1) % INOPB := ino])];
      disk := disk[at := b[0]];
      assert b[1..] == old(b)[1..];
      InodeStored(old(disk), disk, at);
      FL.SoundFrame(old(disk), disk, disk[SUPERB].sb, free);
      OwnedFrame(old(disk), disk, tab, tab, own);
      CachedFrame(old(disk), disk, old(b), b, blknos, own, own);
    }

    lemma InodeStored(disk0: seq<Block>, disk1: seq<Block>, at: nat)
      requires 1 <= inum < |tab| && tab[inum] == ino && OnDisk(disk0, tab, inum)
      requires at == Itod(inum) < |disk0|
      requires disk1 == disk0[at := Inodes(AsInodes(disk0[at])[Itoo(inum) := ino])]
      ensures OnDisk(disk1, tab, 0)
    {
      forall m | 1 <= m < |tab| ensures DiskInode(disk1, m) == tab[m] {
        InodeSlotUnique(m, inum);
      }
    }

    // ---------- truncation ----------

    /** The blocks of L can be given back: distinct, in the data area, not free yet. */
    ghost predicate Returnable(L: seq<nat>)
      reads this
    {
      FL.Distinct(L) && forall x :: x in L ==> sblock.isize <= x < sblock.fsize && x !in free
    }

    /** tloop: gives back everything below indirect block bn, then bn. Each level reads into its
        own buffer, so the chain data bfree writes into freed blocks and b[0] is never read. */
    method TLoop(bn: nat, f1: bool, f2: bool)
      requires |b| == NBUFS && FL.Sound(disk, sblock, free) && (f2 ==> f1)
      requires Returnable(Post(disk, bn, Depth(f1, f2)))
      modifies this`disk, this`sblock, this`b, this`free
      ensures |b| == NBUFS && FL.Sound(disk, sblock, free)
      ensures sblock.isize == old(sblock).isize && sblock.fsize == old(sblock).fsize
      ensures free == old(free) + Post(old(disk), bn, Depth(f1, f2))
      ensures |disk| == |old(disk)|
      ensures forall x :: 0 <= x < |disk| && x !in Post(old(disk), bn, Depth(f1, f2)) ==> disk[x] == old(disk)[x]
      ensures forall j :: Depth(f1, f2) < j < NBUFS ==> b[j] == old(b)[j]
      decreases Depth(f1, f2), 1
    {
      hide FL.Sound, FL.Holds, FL.Distinct, Post, Kids;
      PostUnfold(disk, bn, Depth(f1, f2));
      if bn == 0 {
        return;
      }
      ghost var d0 := disk;
      ghost var f0 := free;
      ghost var lo, hi := sblock.isize, sblock.fsize;
      var level := Depth(f1, f2);
      ghost var all := Post(d0, bn, level);
      FL.Bounds(disk, sblock, free);
      assert bn in all;
      assert forall x :: x in all ==> lo <= x < hi && x !in f0;
      b := b[level := disk[bn]];
      var i: nat := NINDIR;
      KidsNone(d0, bn, level);
      while i > 0
        invariant i <= NINDIR && |b| == NBUFS && |disk| == |d0|
        invariant b[level] == d0[bn] && disk[bn] == d0[bn]
        invariant sblock.isize == lo && sblock.fsize == hi
        invariant FL.Sound(disk, sblock, free)
        invariant free == f0 + Kids(d0, bn, i, level)
        invariant forall x :: 0 <= x < |disk| && x !in Kids(d0, bn, i, level) ==> disk[x] == d0[x]
        invariant forall j :: level < j < NBUFS ==> b[j] == old(b)[j]
      {
        i := i - 1;
        var nb := AsAddrs(b[level])[i];
        assert nb == Entry(d0, bn, i);
        KidNext(d0, disk, bn, i, level, f0, lo, hi, nb);
        FreeKid(nb, f1, f2);
      }
      KidsLast(d0, bn, level, all, Kids(d0, bn, 0, level));
      assert (f0 + Kids(d0, bn, 0, level)) + [bn] == f0 + all;
      BFree(bn);
    }

    /** Before entry k of an indirect block is freed: what hangs below it is as it was at the start, distinct,
        not free yet, and continues the list of what has been freed. */
    lemma KidNext(d0: seq<Block>, d: seq<Block>, bn: nat, k: nat, h: nat, f0: seq<nat>, lo: nat, hi: nat, nb: nat)
      requires k < NINDIR && 0 < h && bn != 0 && |d| == |d0| && nb == Entry(d0, bn, k)
      requires FL.Distinct(Post(d0, bn, h)) && forall x :: x in Post(d0, bn, h) ==> lo <= x < hi && x !in f0
      requires forall x :: 0 <= x < |d0| && x !in Kids(d0, bn, k + 1, h) ==> d[x] == d0[x]
      ensures var kid, freed := Post(d, nb, h - 1), f0 + Kids(d0, bn, k + 1, h);
        && freed + kid == f0 + Kids(d0, bn, k, h) && FL.Distinct(kid)
        && (forall x :: x in kid ==> lo <= x < hi && x !in freed)
        && (forall x :: x !in Kids(d0, bn, k, h) ==> x !in Kids(d0, bn, k + 1, h) && x !in kid)
        && bn !in kid
    {
      hide Post, Kids, FL.Distinct;
      var all, before, kid, after := Post(d0, bn, h), Kids(d0, bn, k + 1, h), Post(d0, nb, h - 1), Kids(d0, bn, k, h);
      KidsStep(d0, bn, k, h, all, before, kid, after);
      FL.FreedMore(f0, all, before, kid, after, lo, hi);
      PostFrame(d0, d, nb, h - 1);
    }

    /** One entry of an indirect block on the level that the flags say: nothing, a data block, or an indirect
        block of the next level. */
    method FreeKid(nb: nat, f1: bool, f2: bool)
      requires |b| == NBUFS && FL.Sound(disk, sblock, free) && (f2 ==> f1)
      requires Returnable(Post(disk, nb, Depth(f1, f2) - 1))
      modifies this`disk, this`sblock, this`b, this`free
      ensures |b| == NBUFS && FL.Sound(disk, sblock, free)
      ensures sblock.isize == old(sblock).isize && sblock.fsize == old(sblock).fsize
      ensures free == old(free) + Post(old(disk), nb, Depth(f1, f2) - 1)
      ensures |disk| == |old(disk)|
      ensures forall x :: 0 <= x < |disk| && x !in Post(old(disk), nb, Depth(f1, f2) - 1) ==> disk[x] == old(disk)[x]
      ensures forall j :: Depth(f1, f2) <= j < NBUFS ==> b[j] == old(b)[j]
      decreases Depth(f1, f2), 0
    {
      hide FL.Sound, FL.Holds, FL.Distinct, Post;
      PostUnfold(disk, nb, Depth(f1, f2) - 1);
      if nb == 0 {
        return;
      }
      if f1 {
        TLoop(nb, f2, false);
      } else {
        BFree(nb);
      }
    }

    function Depth(f1: bool, f2: bool): nat
    {
      1 + (if f1 then 1 else 0) + (if f2 then 1 else 0)
    }

    /** itrunc's loop: gives back the trees of all slots, last slot first. */
    method ReleaseSlots(ghost all: seq<nat>)
      requires |b| == NBUFS && |ino.addr| == NADDR && FL.Sound(disk, sblock, free)
      requires all == Slots(disk, ino.addr, 0) && Returnable(all)
      modifies this`disk, this`sblock, this`b, this`free, this`ino
      ensures |b| == NBUFS && |disk| == |old(disk)| && FL.Sound(disk, sblock, free)
      ensures sblock.isize == old(sblock).isize && sblock.fsize == old(sblock).fsize
      ensures free == old(free) + all
      ensures forall x :: 0 <= x < |disk| && x !in all ==> disk[x] == old(disk)[x]
      ensures ino == old(ino).(addr := NoAddrs())
    {
      hide FL.Sound, FL.Holds, FL.Distinct, Slots, Post;
      ghost var d0, f0, addr := disk, free, ino.addr;
      SlotsNone(d0, addr);
      var i: nat := NADDR;
      while i > 0
        invariant i <= NADDR && |b| == NBUFS && |disk| == |d0|
        invariant ino == old(ino).(addr := ino.addr) && |ino.addr| == NADDR
        invariant forall s :: 0 <= s < NADDR ==> ino.addr[s] == if s < i then addr[s] else 0
        invariant sblock.isize == old(sblock).isize && sblock.fsize == old(sblock).fsize
        invariant FL.Sound(disk, sblock, free)
        invariant free == f0 + Slots(d0, addr, i)
        invariant forall x :: 0 <= x < |disk| && x !in Slots(d0, addr, i) ==> disk[x] == d0[x]
      {
        i := i - 1;
        var bn := ino.addr[i];
        SlotNext(d0, disk, addr, i, f0, sblock.isize, sblock.fsize, all);
        PostUnfold(disk, bn, Height(i));
        if bn == 0 {
          continue;
        }
        ino := ino.(addr := ino.addr[i := 0]);
        ReleaseTree(bn, i);
      }
      assert ino.addr == NoAddrs();
    }

    /** Before slot k is freed: its tree is as it was at the start, distinct, not free yet, and continues the
        list of what has been freed. */
    lemma SlotNext(d0: seq<Block>, d: seq<Block>, addr: seq<nat>, k: nat, f0: seq<nat>, lo: nat, hi: nat, all: seq<nat>)
      requires k < NADDR == |addr| && |d| == |d0| && all == Slots(d0, addr, 0)
      requires FL.Distinct(all) && forall x :: x in all ==> lo <= x < hi && x !in f0
      requires forall x :: 0 <= x < |d0| && x !in Slots(d0, addr, k + 1) ==> d[x] == d0[x]
      ensures var tree, freed := Post(d, addr[k], Height(k)), f0 + Slots(d0, addr, k + 1);
        && freed + tree == f0 + Slots(d0, addr, k) && FL.Distinct(tree)
        && (forall x :: x in tree ==> lo <= x < hi && x !in freed)
        && (forall x :: x !in Slots(d0, addr, k) ==> x !in Slots(d0, addr, k + 1) && x !in tree)
    {
      hide Post, Slots, FL.Distinct;
      var before, tree, after := Slots(d0, addr, k + 1), Post(d0, addr[k], Height(k)), Slots(d0, addr, k);
      SlotsStep(d0, addr, k, all, before, tree, after);
      FL.FreedMore(f0, all, before, tree, after, lo, hi);
      PostFrame(d0, d, addr[k], Height(k));
    }

    /** What itrunc does for one slot: a data block is freed, an indirect block with everything below. */
    method ReleaseTree(bn: nat, i: nat)
      requires |b| == NBUFS && FL.Sound(disk, sblock, free) && bn != 0 && i < NADDR
      requires Returnable(Post(disk, bn, Height(i)))
      modifies this`disk, this`sblock, this`b, this`free
      ensures |b| == NBUFS && FL.Sound(disk, sblock, free) && |disk| == |old(disk)|
      ensures sblock.isize == old(sblock).isize && sblock.fsize == old(sblock).fsize
      ensures free == old(free) + Post(old(disk), bn, Height(i))
      ensures forall x :: 0 <= x < |disk| && x !in Post(old(disk), bn, Height(i)) ==> disk[x] == old(disk)[x]
    {
      hide FL.Sound, FL.Holds, Post;
      PostUnfold(disk, bn, Height(i));
      if i == NADDR - 3 {
        TLoop(bn, false, false);
      } else if i == NADDR - 2 {
        TLoop(bn, true, false);
      } else if i == NADDR - 1 {
        TLoop(bn, true, true);
      } else {
        BFree(bn);
      }
    }

    /** itrunc: the handle's file becomes empty; all its blocks, and no others, go back to the free
        stack, each once. */
    method ITrunc()
      requires Busy()
      modifies this`disk, this`sblock, this`b, this`blknos, this`free, this`own, this`tab, this`ino
      ensures Busy() && (HasBlocks(old(ino)) ==> Valid())
      ensures !HasBlocks(old(ino)) ==> Now() == old(Now()) && ino == old(ino)
      ensures HasBlocks(old(ino)) ==>
        && free == old(free) + Slots(old(disk), old(ino).addr, 0)
        && own == Without(old(own), inum)
        && ino == old(ino).(size := 0, addr := NoAddrs())
        && tab == old(tab)[inum := ino]
        && forall j :: 1 <= j < NBUFS ==> blknos[j] == 0
      ensures |disk| == |old(disk)|
      ensures forall x :: x in old(own) && old(own)[x].n != inum && x < |disk| ==> disk[x] == old(disk)[x]
    {
      hide FL.Sound, Owned, OnDisk, Slots, Cached;
      if ino.kind != Regular && ino.kind != Directory {
        return;
      }
      DropBlocks();
      WriteIno();
    }

    /** The middle of itrunc: blocks freed, superblock written, cache forgotten, inode not yet written. */
    method DropBlocks()
      requires Busy() && HasBlocks(ino)
      modifies this`disk, this`sblock, this`b, this`blknos, this`free, this`own, this`tab, this`ino
      ensures Busy()
      ensures free == old(free) + Slots(old(disk), old(ino).addr, 0)
      ensures own == Without(old(own), inum)
      ensures ino == old(ino).(size := 0, addr := NoAddrs()) && tab == old(tab)[inum := ino]
      ensures blknos == [0, 0, 0, 0]
      ensures |disk| == |old(disk)|
      ensures forall x :: x in old(own) && old(own)[x].n != inum ==> isize <= x < |disk| && disk[x] == old(disk)[x]
    {
      hide FL.Sound, FL.Holds, FL.Distinct, Owned, OnDisk, Slots, Cached, Covers, Without, NoAddrs, MapOk, InodesOk, CacheOk;
      ghost var v := Now();
      ghost var all := Slots(disk, ino.addr, 0);
      Truncatable(all);
      ReadSb();
      ReleaseSlots(all);
      ghost var mid := disk;
      FL.Bounds(disk, sblock, free);
      WriteSb();
      FL.SoundFrame(mid, disk, sblock, free);
      ino := ino.(size := 0);
      blknos := [0, 0, 0, 0];
      own := Without(own, inum);
      tab := tab[inum := ino];
      Emptied(v, all);
      NothingCached();
    }

    /** u is the volume of a call under way, with these buffers and inode n in the handle. */
    ghost predicate Held(u: Vol, b: seq<Block>, blknos: seq<nat>, n: nat)
    {
      && ROOTINO < isize <= fsize <= |u.disk| && |b| == NBUFS && |blknos| == NBUFS
      && |u.tab| == (isize - 2) * INOPB + 1 <= MAXINO + 1 && (forall m :: 0 <= m < |u.tab| ==> |u.tab[m].addr| == NADDR)
      && u.disk[SUPERB].Super? && u.disk[SUPERB].sb.isize == isize && u.disk[SUPERB].sb.fsize == fsize
      && FL.Sound(u.disk, u.disk[SUPERB].sb, u.free) && Cached(u.disk, b, blknos, u.own) && OnDisk(u.disk, u.tab, n)
      && Owned(u.disk, u.tab, u.own) && Covers(u.own, u.free, isize, fsize) && 1 <= n < |u.tab|
    }

    lemma Opened()
      requires Busy()
      ensures Held(Now(), b, blknos, inum) && Owned(disk, tab, own) && inum < |tab| && ino == tab[inum] && |ino.addr| == NADDR
    {
      hide FL.Sound, Owned, OnDisk, Cached, Covers;
    }

    lemma NothingCached()
      requires |b| == NBUFS && blknos == [0, 0, 0, 0]
      ensures CacheOk()
    {
    }

    /** With its blocks on the free stack and its slots cleared, the handle's inode owns nothing. */
    lemma Emptied(v: Vol, all: seq<nat>)
      requires |v.tab| == (isize - 2) * INOPB + 1 && 2 <= isize <= fsize <= |disk| == |v.disk| && 1 <= inum < |v.tab|
      requires Owned(v.disk, v.tab, v.own) && Covers(v.own, v.free, isize, fsize) && OnDisk(v.disk, v.tab, inum)
      requires free == v.free + all && own == Without(v.own, inum) && tab == v.tab[inum := ino]
      requires |ino.addr| == NADDR && forall s :: 0 <= s < NADDR ==> ino.addr[s] == 0
      requires forall x :: x in all ==> isize <= x < fsize
      requires forall x :: x in all <==> x in v.own && v.own[x].n == inum && 0 <= v.own[x].s
      requires forall x :: 0 <= x < |disk| && x !in all && x != SUPERB ==> disk[x] == v.disk[x]
      ensures MapOk() && InodesOk(inum)
    {
      Detach(v.disk, disk, v.tab, tab, v.own, inum);
      ReturnedCovers(v.own, v.free, all, isize, fsize, inum);
      OnDiskFrame(v.disk, disk, v.tab, tab, isize, inum);
    }

    /** The blocks of the handle's file can all be given back. */
    lemma Truncatable(all: seq<nat>)
      requires Busy() && HasBlocks(ino) && all == Slots(disk, ino.addr, 0)
      ensures FL.Distinct(all) && forall x :: x in all ==> isize <= x < fsize && x !in free
      ensures forall x :: x in all <==> x in own && own[x].n == inum && 0 <= own[x].s
      ensures forall x :: x in own && own[x].n != inum ==> isize <= x < |disk| && x !in all && x != SUPERB
      ensures Owned(disk, tab, own) && Covers(own, free, isize, fsize) && OnDisk(disk, tab, inum)
    {
      SlotsAreTrees(disk, tab, own, inum, 0);
    }

    // ---------- a new inode ----------

    /** ialloc: takes the first unused inode after the root, or fails when there is none. */
    method IAlloc(kind: Kind, dev: nat) returns (n: nat)
      requires Valid() && kind != Unused
      modifies this`disk, this`sblock, this`b, this`inum, this`ino, this`tab
      ensures Valid()
      ensures n == 0 <==> forall m :: ROOTINO < m < |tab| ==> old(tab)[m].kind != Unused
      ensures n == 0 ==> Now() == old(Now())
      ensures n != 0 ==> Busy() && inum == n && ROOTINO < n < |tab| && old(tab)[n].kind == Unused
      ensures n != 0 ==> ino == NewInode(kind, dev) && tab == old(tab)[n := ino]
      ensures OthersSame(old(Now()), Now(), n) && own == old(own) && free == old(free)
    {
      hide FL.Sound, FL.Holds, Owned, Cached, OnDisk;
      ReadSb();
      ghost var v := Now();
      n := ROOTINO + 1;
      while Itod(n) < sblock.isize
        invariant ROOTINO < n <= |tab|
        invariant Valid() && Now() == v && sblock == disk[SUPERB].sb
        invariant forall m :: ROOTINO < m < n && m < |tab| ==> tab[m].kind != Unused
        decreases |tab| - n
      {
        CachedFrame(disk, disk, b, b[0 := disk[Itod(n)]], blknos, own, own);
        b := b[0 := disk[Itod(n)]];
        InodeOf(n);
        if AsInodes(b[0])[Itoo(n)].kind == Unused {
          Enroll(n, kind, dev);
          return n;
        }
        n := n + 1;
      }
      return 0;
    }

    /** The unused inode that was found becomes the handle's. */
    method Enroll(n: nat, kind: Kind, dev: nat)
      requires Valid() && kind != Unused && ROOTINO < n < |tab| && tab[n].kind == Unused && sblock == disk[SUPERB].sb
      modifies this`disk, this`sblock, this`b, this`inum, this`ino, this`tab
      ensures Valid() && Busy() && inum == n && ino == NewInode(kind, dev) && tab == old(tab)[n := ino]
      ensures OthersSame(old(Now()), Now(), n) && own == old(own) && free == old(free)
    {
      hide FL.Sound, FL.Holds, Owned, Cached, OnDisk;
      ghost var v := Now();
      sblock := sblock.(tinode := sblock.tinode - 1);
      FL.Recount(disk, disk[SUPERB].sb, sblock.tinode, free);
      WriteSb();
      inum := n;
      ino := NewInode(kind, dev);
      tab := tab[n := ino];
      Enrolled(v, kind, dev);
      WriteIno();
      InodeWritten(v);
    }

    lemma InodeOf(n: nat)
      requires Valid() && 1 <= n < |tab|
      ensures Itod(n) < |disk| && AsInodes(disk[Itod(n)])[Itoo(n)] == tab[n]
    {
      InodesFrame(disk, disk, isize, n);
    }

    lemma Enrolled(v: Vol, kind: Kind, dev: nat)
      requires 2 <= isize && |v.tab| == (isize - 2) * INOPB + 1 && |disk| == |v.disk| && SUPERB < |disk| && 1 <= inum < |v.tab|
      requires Owned(v.disk, v.tab, v.own) && SUPERB !in v.own && SUPERB !in v.free && OnDisk(v.disk, v.tab, 0)
      requires v.tab[inum].kind == Unused && ino == NewInode(kind, dev) && tab == v.tab[inum := ino] && own == v.own && free == v.free
      requires disk == v.disk[SUPERB := disk[SUPERB]] && disk[SUPERB].Super?
      requires FL.Sound(v.disk, disk[SUPERB].sb, free)
      requires |b| == NBUFS && |blknos| == NBUFS
      requires Cached(v.disk, b, blknos, own)
      ensures Owned(disk, tab, own) && OnDisk(disk, tab, inum) && CacheOk() && FL.Sound(disk, disk[SUPERB].sb, free)
    {
      hide Owned, FL.Sound, Cached, At;
      PlacesAreValid(v.disk, v.tab, v.own);
      assert Without(own, inum) == own;
      Detach(v.disk, disk, v.tab, tab, own, inum);
      OnDiskFrame(v.disk, disk, v.tab, tab, isize, inum);
      CachedFrame(v.disk, disk, b, b, blknos, own, own);
      FL.SoundFrame(v.disk, disk, disk[SUPERB].sb, free);
    }

    /** An inode that owns nothing can be enrolled without touching the other files. */
    lemma InodeWritten(v: Vol)
      requires Valid() && |v.tab| == |tab| && inum < |tab| && tab == v.tab[inum := tab[inum]] && own == v.own
      requires Owned(v.disk, v.tab, v.own) && |disk| == |v.disk|
      requires forall x :: isize <= x < fsize ==> disk[x] == v.disk[x]
      ensures OthersSame(v, Now(), inum)
    {
      forall z: Place | z.n != inum ensures Look(Now(), z) == Look(v, z) {
        if z.n < |tab| { AtFrame(v.disk, disk, v.tab, tab, own, z); }
      }
    }

    // ---------- reading and writing ----------

    /** read: at most one block per call, nothing at or past the end. */
    method Read(count: nat) returns (data: seq<byte>)
      requires Busy() && HasBlocks(ino)
      modifies this`b, this`blknos, this`ibuf, this`offset
      ensures Busy() && offset == old(offset) + |data|
      ensures ino.size <= old(offset) ==> data == []
      ensures old(offset) < ino.size ==>
        var (block, file) := (BSIZE - old(offset) % BSIZE, ino.size - old(offset));
        && |data| <= count && |data| <= block && |data| <= file
        && (|data| == count || |data| == block || |data| == file)
      ensures HoleFree(disk, ino) && |data| != 0 ==>
        offset <= ino.size && data == Content(disk, ino)[old(offset)..offset]
    {
      hide FL.Sound, Owned, Cached, Covers, OnDisk, Walk, BlockOf, Content, HoleFree;
      if ino.size <= offset {
        return [];
      }
      var bn, off := offset / BSIZE, offset % BSIZE;
      var nb := SbMap(bn);
      Mapped(bn);
      ibuf := disk[nb];
      var n := ino.size - offset;
      if n > BSIZE - off {
        n := BSIZE - off;
      }
      if n > count {
        n := count;
      }
      data := AsBytes(ibuf)[off..off + n];
      if n > 0 {
        InOneBlock(disk, ino, offset, n);
      }
      offset := offset + n;
    }

    lemma Mapped(bn: nat)
      requires Busy() && HasBlocks(ino)
      ensures BlockOf(disk, ino.addr, bn) < |disk|
      ensures BlockOf(disk, ino.addr, bn) != 0 ==>
        var x := BlockOf(disk, ino.addr, bn);
        isize <= x < fsize && x !in free && x in own && Above(own[x]) == 0 && own[x].n == inum
    {
      if bn < MAXBN { BlockAt(Now(), inum, bn); }
    }

    /** One round of writei: the part of the buffer that falls in the block under offset. */
    method PutChunk(s: seq<byte>) returns (ok: bool)
      requires Busy() && HasBlocks(ino) && 0 < |s| && offset % BSIZE + |s| <= BSIZE
      modifies this`disk, this`sblock, this`b, this`blknos, this`free, this`own, this`tab, this`ino, this`ibuf, this`offset
      ensures Busy() && HasBlocks(ino)
      ensures ok ==> offset == old(offset) + |s| && ino.size == if offset > old(ino).size then offset else old(ino).size
      ensures !ok ==> offset == old(offset) && ino.size == old(ino).size && (free == [] || MAXBN * BSIZE <= offset)
      ensures ok <==> Fits(old(Now()), inum, old(offset))
      ensures ok ==> |free| == |old(free)| - Need(old(Now()), inum, old(offset) / BSIZE)
      ensures Written(old(Now()), Now(), inum, old(offset), if ok then s else [])
    {
      hide FL.Sound, Owned, Cached, OnDisk, Walk, Written, Grew, Stored;
      ghost var v := Now();
      InDisk();
      var nb := WbMap(offset / BSIZE);
      SizeKept(v, Now(), inum, offset / BSIZE);
      if nb == 0 {
        WrittenNothing(v, Now(), inum, offset / BSIZE, offset);
        return false;
      }
      ghost var u := Now();
      StoreChunk(nb, s);
      WrittenChunk(v, u, Now(), inum, old(offset), s);
      ok := true;
    }

    /** The copying half of a round: into i_buf, then to disk block nb, which holds the file block
        under offset. A block that is only partly overwritten is read first. */
    method StoreChunk(nb: nat, s: seq<byte>)
      requires Busy() && HasBlocks(ino) && 0 < |s| && offset % BSIZE + |s| <= BSIZE
      requires offset / BSIZE < MAXBN && nb == BlockOf(disk, ino.addr, offset / BSIZE) && nb != 0
      modifies this`disk, this`tab, this`ino, this`ibuf, this`offset
      ensures Busy() && HasBlocks(ino)
      ensures offset == old(offset) + |s|
      ensures ino == old(ino).(size := if offset > old(ino).size then offset else old(ino).size)
      ensures Stored(old(Now()), Now(), inum, old(offset) / BSIZE, old(offset) % BSIZE, s)
    {
      hide Owned, Walk, BlockOf, Stored, Patch, AsBytes, HoleFree, Content, Above, Busy, Held, OthersSame;
      ghost var u := Now();
      Opened();
      var off := offset % BSIZE;
      Mapped(offset / BSIZE);
      ghost var base := PatchBlock(nb, off, s);
      offset := offset + |s|;
      if offset > ino.size {
        ino := ino.(size := offset);
      }
      tab := tab[inum := ino];
      MakeStored(u, Now(), inum, old(offset), s, base, nb);
      StoredKeeps(u, Now(), inum, old(offset) / BSIZE, off, s);
      LeafStored(u, nb);
    }

    /** Replaces part of disk block nb through i_buf. */
    method PatchBlock(nb: nat, off: nat, s: seq<byte>) returns (ghost base: seq<byte>)
      requires nb < |disk| && off + |s| <= BSIZE
      modifies this`disk, this`ibuf
      ensures |base| == BSIZE && (off != 0 || |s| != BSIZE ==> base == AsBytes(old(disk)[nb]))
      ensures disk == old(disk)[nb := Bytes(Patch(base, off, s))]
    {
      hide AsBytes, Patch;
      if off != 0 || |s| != BSIZE {
        ibuf := disk[nb];
      }
      base := AsBytes(ibuf);
      ibuf := Bytes(Patch(AsBytes(ibuf), off, s));
      disk := disk[nb := ibuf];
    }

    lemma InDisk()
      requires Busy()
      ensures forall x :: x in own ==> x < |disk|
    {
    }

    /** Storing a data block disturbs neither free list nor cache nor inodes. */
    lemma LeafStored(u: Vol, nb: nat)
      requires Held(u, b, blknos, inum) && nb < |u.disk| == |disk| && disk == u.disk[nb := disk[nb]]
      requires isize <= nb < fsize && nb !in u.free && nb in u.own && Above(u.own[nb]) == 0
      requires own == u.own && free == u.free && tab == u.tab[inum := ino] && |ino.addr| == NADDR
      requires Owned(disk, tab, own)
      ensures Busy()
    {
      hide FL.Sound, Owned, OnDisk, Cached, Covers;
      FL.SoundFrame(u.disk, disk, u.disk[SUPERB].sb, free);
      CachedFrame(u.disk, disk, b, b, blknos, own, own);
      OnDiskFrame(u.disk, disk, u.tab, tab, isize, inum);
    }

    /** writei: stores buf at offset, block by block, until done or out of space; returns the count
        stored. The inode is written back either way. */
    method WriteI(buf: seq<byte>) returns (count: nat)
      requires Busy() && HasBlocks(ino)
      modifies this`disk, this`sblock, this`b, this`blknos, this`free, this`own, this`tab, this`ino, this`ibuf, this`offset
      ensures Valid() && Busy() && HasBlocks(ino)
      ensures count <= |buf| && offset == old(offset) + count
      ensures old(offset) % BSIZE + |buf| <= BSIZE ==> count == 0 || count == |buf|
      ensures count < |buf| ==> free == [] || MAXBN * BSIZE <= offset
      ensures old(offset) % BSIZE + |buf| <= BSIZE && buf != [] ==>
        (count == |buf| <==> Fits(old(Now()), inum, old(offset)))
        && (count == |buf| ==> |free| == |old(free)| - Need(old(Now()), inum, old(offset) / BSIZE))
      ensures Written(old(Now()), Now(), inum, old(offset), buf[..count])
    {
      hide FL.Sound, Owned, Cached, OnDisk, Written, Content, Need;
      ghost var v := Now();
      count := 0;
      WrittenNone(v, offset);
      assert buf[..0] == [];
      while count < |buf|
        invariant count <= |buf| && Busy() && HasBlocks(ino)
        invariant offset == old(offset) + count
        invariant old(offset) % BSIZE + |buf| <= BSIZE ==> count == 0 || count == |buf|
        invariant count == 0 ==> Now() == v
        invariant old(offset) % BSIZE + |buf| <= BSIZE && count != 0 ==>
          Fits(v, inum, old(offset)) && |free| == |v.free| - Need(v, inum, old(offset) / BSIZE)
        invariant Written(v, Now(), inum, old(offset), buf[..count])
      {
        var n := BSIZE - offset % BSIZE;
        if n > |buf| - count {
          n := |buf| - count;
        }
        ghost var mid := Now();
        var ok := PutChunk(buf[count..count + n]);
        assert buf[..count] + buf[count..count + n] == buf[..count + n];
        assert buf[..count] + [] == buf[..count];
        WrittenTwice(v, mid, Now(), inum, old(offset), buf[..count], if ok then buf[count..count + n] else []);
        if !ok {
          break;
        }
        count := count + n;
      }
      ghost var mid := Now();
      WriteIno();
      WrittenBack(mid);
      WrittenTwice(v, mid, Now(), inum, old(offset), buf[..count], []);
      assert buf[..count] + [] == buf[..count];
    }

    lemma WrittenNone(v: Vol, off: nat)
      requires Busy() && HasBlocks(ino) && v == Now()
      ensures Written(v, Now(), inum, off, [])
    {
      GrewNot(v, inum, 0);
      WrittenNothing(v, v, inum, 0, off);
    }

    /** Writing an inode back changes no file. */
    lemma WrittenBack(v: Vol)
      requires Busy() && HasBlocks(ino) && v.tab == tab && v.own == own && v.free == free && |v.disk| == |disk|
      requires Owned(v.disk, v.tab, v.own)
      requires forall x :: isize <= x < |disk| ==> disk[x] == v.disk[x]
      ensures forall off :: Written(v, Now(), inum, off, [])
    {
      forall z ensures Look(Now(), z) == Look(v, z) {
        if z.n < |tab| { AtFrame(v.disk, disk, tab, tab, own, z); }
      }
      assert v.disk[SUPERB] == v.disk[SUPERB];
      forall off ensures Written(v, Now(), inum, off, []) {
        SameFile(v, off);
      }
    }

    lemma SameFile(v: Vol, off: nat)
      requires Busy() && HasBlocks(ino) && v.tab == tab && v.own == own && v.free == free && |v.disk| == |disk|
      requires Owned(v.disk, v.tab, v.own)
      requires forall x :: isize <= x < |disk| ==> disk[x] == v.disk[x]
      requires forall z :: Look(Now(), z) == Look(v, z)
      ensures Written(v, Now(), inum, off, [])
    {
      if HoleFree(v.disk, ino) && off <= ino.size {
        forall y | 0 <= y < MAXBN ensures BlockOf(disk, ino.addr, y) == BlockOf(v.disk, ino.addr, y) {
          BlockAt(v, inum, y);
          BlockAt(Now(), inum, y);
        }
        forall k | 0 <= k < ino.size ensures ByteAt(disk, ino.addr, k) == ByteAt(v.disk, ino.addr, k) {
          assert k / BSIZE * BSIZE < ino.size;
          Mapped(k / BSIZE);
        }
        assert Content(disk, ino) == Content(v.disk, ino);
        assert Splice(Content(v.disk, ino), off, []) == Content(v.disk, ino);
      }
    }
  }
}
