/** Directories and system calls over the file layer. Each call leaves the volume consistent,
    also when it fails half way. */
module V7Calls {
  import opened V7Layout
  import opened V7BlockMap
  import opened V7Content
  import opened V7Room
  import V7Dir
  import FL = V7FreeList
  import V7Io

  type Io = V7Io.V7Io

  const PERBLOCK: nat := 32 // 512 / DISK_DIRENT_SIZE

  // ---------- what a volume promises about directories ----------

  ghost predicate DirOk(disk: seq<Block>, tab: seq<Inode>, m: nat)
    requires m < |tab|
  {
    HoleFree(disk, tab[m]) && V7Dir.Sound(Content(disk, tab[m]), |tab| - 1)
  }

  ghost predicate DirsOk(v: Vol)
  {
    0 < |v.tab| && forall m :: 1 <= m < |v.tab| && v.tab[m].kind == Directory ==> DirOk(v.disk, v.tab, m)
  }

  /** Only inode n's file changed, and if it is a directory it is a sound one. */
  lemma DirsKeep(v: Vol, w: Vol, n: nat)
    requires DirsOk(v) && OthersSame(v, w, n) && Owned(v.disk, v.tab, v.own)
    requires forall m :: 0 <= m < |v.tab| ==> |v.tab[m].addr| == NADDR
    requires 1 <= n < |w.tab| && w.tab[n].kind == Directory ==> DirOk(w.disk, w.tab, n)
    ensures DirsOk(w)
  {
    hide V7Dir.Sound, Owned;
    forall m | 1 <= m < |w.tab| && w.tab[m].kind == Directory ensures DirOk(w.disk, w.tab, m) {
      if m != n { ContentSame(v, w, n, m); }
    }
  }

  ghost predicate Consistent(io: Io)
    reads io
  {
    io.Valid() && DirsOk(io.Now())
  }

  // ---------- reading a directory ----------

  /** The handle is on a directory whose slots can be read. */
  ghost predicate Readable(io: Io)
    reads io
  {
    && io.Busy() && HasBlocks(io.ino) && io.ino.kind == Directory
    && HoleFree(io.disk, io.ino) && io.ino.size % V7Dir.DIRENT == 0
  }

  ghost function DirBytes(io: Io): seq<byte>
    reads io
  {
    Content(io.disk, io.ino)
  }

  /** The scanning loops' variables after i slots: dc is the slot within the block in i_buf, bn the
      next file block, dbn the disk block in i_buf. */
  ghost predicate Cursor(io: Io, i: nat, dc: nat, bn: nat, dbn: nat)
    reads io
  {
    if i == 0 then dc == 512 && bn == 0
    else
      && dc == (i - 1) % PERBLOCK && bn == (i - 1) / PERBLOCK + 1
      && dbn == BlockOf(io.disk, io.ino.addr, (i - 1) / PERBLOCK)
      && dbn < |io.disk| && io.ibuf == io.disk[dbn]
  }

  /** The head of every scanning loop: step to slot i, reading the next block when needed. */
  method NextSlot(io: Io, ghost i: nat, dc0: nat, bn0: nat, dbn0: nat) returns (dc: nat, bn: nat, dbn: nat)
    requires Readable(io) && Cursor(io, i, dc0, bn0, dbn0)
    modifies io`b, io`blknos, io`ibuf
    ensures Readable(io) && Cursor(io, i + 1, dc, bn, dbn)
  {
    hide FL.Sound, Owned, Cached, OnDisk, Content, HoleFree, BlockOf, Covers;
    dc, bn, dbn := dc0 + 1, bn0, dbn0;
    if dc >= PERBLOCK {
      dbn := io.SbMap(bn);
      io.Mapped(bn);
      bn := bn + 1;
      io.ibuf := io.disk[dbn];
      dc := 0;
    }
  }

  /** The entry the scanning loops look at. */
  function Here(blk: Block, dc: nat): (d: seq<byte>)
    requires dc < PERBLOCK
    ensures |d| == V7Dir.DIRENT
  {
    AsBytes(blk)[dc * V7Dir.DIRENT..dc * V7Dir.DIRENT + V7Dir.DIRENT]
  }

  lemma HereIsSlot(io: Io, i: nat, dc: nat, bn: nat, dbn: nat)
    requires Readable(io) && Cursor(io, i + 1, dc, bn, dbn) && i < V7Dir.Slots(DirBytes(io))
    ensures dc < PERBLOCK && Here(io.ibuf, dc) == V7Dir.Slot(DirBytes(io), i)
    ensures dbn == BlockOf(io.disk, io.ino.addr, i / PERBLOCK) && dc == i % PERBLOCK && dbn != 0
  {
    hide FL.Sound, Owned, Cached, OnDisk, Content, BlockOf;
    var off := i * V7Dir.DIRENT;
    assert off / BSIZE == i / PERBLOCK && off % BSIZE == i % PERBLOCK * V7Dir.DIRENT;
    assert off / BSIZE * BSIZE < io.ino.size;
    InOneBlock(io.disk, io.ino, off, V7Dir.DIRENT);
  }

  /** n is the inode number in the first slot whose name strncmp takes for this one, or 0 if there is none. */
  ghost predicate FirstBearer(c: seq<byte>, name: seq<byte>, n: nat)
  {
    && (forall k :: 0 <= k < V7Dir.Slots(c) && V7Dir.Bears(c, k, name) && (forall i :: 0 <= i < k ==> !V7Dir.Bears(c, i, name)) ==>
          n == V7Dir.InoAt(c, k))
    && ((forall k :: 0 <= k < V7Dir.Slots(c) ==> !V7Dir.Bears(c, k, name)) ==> n == 0)
  }

  lemma LookedUp(c: seq<byte>, name: seq<byte>)
    ensures FirstBearer(c, name, V7Dir.Lookup(c, name))
    ensures V7Dir.Key(name) == [] <==> V7Dir.CharAt(name, 0) == 0
  {
    V7Dir.KeyBytes(name, 0);
    hide V7Dir.Bears, V7Dir.Lookup;
    V7Dir.LookupFirst(c, name);
  }

  /** dlook: the inode number in the first slot bearing the name. */
  method DLook(io: Io, name: seq<byte>) returns (n: nat)
    requires io.Busy() && (io.ino.kind == Directory ==> Readable(io))
    modifies io`b, io`blknos, io`ibuf
    ensures io.Busy() && (io.ino.kind == Directory ==> Readable(io))
    ensures n == if io.ino.kind == Directory && V7Dir.Key(name) != [] then V7Dir.Lookup(DirBytes(io), name) else 0
    ensures io.ino.kind != Directory || V7Dir.CharAt(name, 0) == 0 ==> n == 0
    ensures io.ino.kind == Directory && V7Dir.CharAt(name, 0) != 0 ==> FirstBearer(DirBytes(io), name, n)
  {
    hide FL.Sound, Owned, Cached, OnDisk, Content, HoleFree, Here, V7Dir.Slot, V7Dir.FirstNamed, V7Dir.Key, FirstBearer;
    LookedUp(DirBytes(io), name);
    if V7Dir.Key(name) == [] || io.ino.kind != Directory {
      return 0;
    }
    var total := io.ino.size / V7Dir.DIRENT;
    ghost var c := DirBytes(io);
    var dc: nat, bn: nat, dbn: nat := 512, 0, 0;
    var i := 0;
    while i < total
      invariant i <= total && Readable(io) && Cursor(io, i, dc, bn, dbn)
      invariant V7Dir.FirstNamed(c, name, 0) == V7Dir.FirstNamed(c, name, i)
    {
      dc, bn, dbn := NextSlot(io, i, dc, bn, dbn);
      HereIsSlot(io, i, dc, bn, dbn);
      Unroll(c, name, i);
      if V7Dir.Key(V7Dir.EntryName(Here(io.ibuf, dc))) == V7Dir.Key(name) {
        return V7Dir.EntryIno(Here(io.ibuf, dc));
      }
      i := i + 1;
    }
    n := 0;
  }

  lemma Unroll(c: seq<byte>, name: seq<byte>, i: nat)
    requires i < V7Dir.Slots(c)
    ensures V7Dir.FirstNamed(c, name, i) ==
            if V7Dir.NameAt(c, i) == V7Dir.Key(name) then i else V7Dir.FirstNamed(c, name, i + 1)
    ensures V7Dir.FirstDead(c, i) == if V7Dir.InoAt(c, i) == 0 then i else V7Dir.FirstDead(c, i + 1)
  {
  }

  // ---------- changing a directory ----------

  /** The scan of adddir: where the first dead slot starts, or the end of the directory. */
  method FreePlace(io: Io) returns (off: nat)
    requires Readable(io)
    modifies io`b, io`blknos, io`ibuf
    ensures Readable(io) && off == V7Dir.FirstDead(DirBytes(io), 0) * V7Dir.DIRENT
  {
    hide FL.Sound, Owned, Cached, OnDisk, Content, HoleFree, Here, V7Dir.Slot, V7Dir.FirstDead, V7Dir.Key;
    var total := io.ino.size / V7Dir.DIRENT;
    ghost var c := DirBytes(io);
    off := io.ino.size;
    var dc: nat, bn: nat, dbn: nat := 512, 0, 0;
    var i := 0;
    while i < total
      invariant i <= total && Readable(io) && Cursor(io, i, dc, bn, dbn)
      invariant V7Dir.FirstDead(c, 0) == V7Dir.FirstDead(c, i)
    {
      dc, bn, dbn := NextSlot(io, i, dc, bn, dbn);
      HereIsSlot(io, i, dc, bn, dbn);
      Unroll(c, [], i);
      if V7Dir.EntryIno(Here(io.ibuf, dc)) == 0 {
        off := (bn - 1) * 512 + dc * V7Dir.DIRENT;
        return;
      }
      i := i + 1;
    }
    EndUnroll(c, i);
  }

  /** Where adddir puts the next entry of directory d. */
  ghost function NextFree(v: Vol, d: nat): nat
    requires d < |v.tab|
  {
    V7Dir.FirstDead(Content(v.disk, v.tab[d]), 0) * V7Dir.DIRENT
  }

  /** There is room for one more entry in directory d. */
  ghost predicate Room(v: Vol, d: nat)
    requires d < |v.tab|
  {
    Fits(v, d, NextFree(v, d))
  }

  /** The blocks that the entry takes. */
  ghost function Cost(v: Vol, d: nat): nat
    requires d < |v.tab|
  {
    if NextFree(v, d) / BSIZE < MAXBN then Need(v, d, NextFree(v, d) / BSIZE) else 0
  }

  /** adddir: binds an absent name in the first dead slot or behind the last one. Fails exactly when there is
      no room, leaving the directory as it was. */
  method AddDir(io: Io, name: seq<byte>, n: nat) returns (ok: bool)
    requires Readable(io) && V7Dir.Sound(DirBytes(io), |io.tab| - 1)
    requires V7Dir.Lookup(DirBytes(io), name) == 0 && 0 < n < |io.tab|
    modifies io`disk, io`sblock, io`b, io`blknos, io`free, io`own, io`tab, io`ino, io`ibuf, io`offset
    ensures io.Valid() && Readable(io)
    ensures OthersSame(old(io.Now()), io.Now(), io.inum)
    ensures io.ino.nlink == old(io.ino).nlink
    ensures V7Dir.Sound(DirBytes(io), |io.tab| - 1)
    ensures DirBytes(io) == if ok then V7Dir.Added(old(DirBytes(io)), name, n) else old(DirBytes(io))
    ensures ok <==> Room(old(io.Now()), io.inum)
    ensures ok ==> |io.free| == |old(io.free)| - Cost(old(io.Now()), io.inum)
  {
    hide FL.Sound, Owned, Cached, OnDisk, Content, HoleFree, V7Dir.FirstDead, V7Dir.Key, V7Dir.Sound, OthersSame, V7Dir.Lookup, V7Dir.Dirent, Splice, Need, V7Dir.Added, Covers, Look, Written, Fits, NextFree, Room, Cost;
    ghost var c := DirBytes(io);
    io.offset := FreePlace(io);
    RoomAt(io, io.offset);
    V7Dir.AddedSound(c, |io.tab| - 1, name, n);
    AddedSize(c, name, n);
    AddedIs(c, name, n);
    var d := V7Dir.Dirent(n, name);
    ghost var v := io.Now();
    ghost var off := io.offset;
    var put := io.WriteI(d);
    EntryPut(io, v, off, d, put);
    ok := put == V7Dir.DIRENT;
  }

  lemma RoomAt(io: Io, off: nat)
    requires Readable(io) && off == V7Dir.FirstDead(DirBytes(io), 0) * V7Dir.DIRENT
    ensures Room(io.Now(), io.inum) <==> Fits(io.Now(), io.inum, off)
    ensures Room(io.Now(), io.inum) ==> Cost(io.Now(), io.inum) == Need(io.Now(), io.inum, off / BSIZE)
  {
    hide Content, Need, HoleFree;
  }

  /** What writing one entry leaves of the directory. */
  lemma EntryPut(io: Io, v: Vol, off: nat, d: seq<byte>, put: nat)
    requires io.Busy() && |d| == V7Dir.DIRENT && (put == 0 || put == |d|) && Written(v, io.Now(), io.inum, off, d[..put])
    requires v.tab[io.inum].kind == Directory && HoleFree(v.disk, v.tab[io.inum]) && off <= v.tab[io.inum].size
    requires put == 0 ==> v.tab[io.inum].size % V7Dir.DIRENT == 0
    requires put != 0 ==> |Splice(Content(v.disk, v.tab[io.inum]), off, d)| % V7Dir.DIRENT == 0
    ensures Readable(io) && OthersSame(v, io.Now(), io.inum) && io.ino.nlink == v.tab[io.inum].nlink
    ensures DirBytes(io) == if put == 0 then Content(v.disk, v.tab[io.inum]) else Splice(Content(v.disk, v.tab[io.inum]), off, d)
  {
    hide FL.Sound, Owned, Cached, OnDisk, HoleFree, OthersSame, Covers, Look, Splice;
    SpliceNothing(Content(v.disk, v.tab[io.inum]), off, d);
  }

  lemma AddedIs(c: seq<byte>, name: seq<byte>, n: nat)
    requires n <= MAXINO && V7Dir.FirstDead(c, 0) * V7Dir.DIRENT <= |c|
    ensures V7Dir.Added(c, name, n) == Splice(c, V7Dir.FirstDead(c, 0) * V7Dir.DIRENT, V7Dir.Dirent(n, name))
  {
  }

  lemma AddedSize(c: seq<byte>, name: seq<byte>, n: nat)
    requires |c| % V7Dir.DIRENT == 0 && n <= MAXINO
    ensures V7Dir.FirstDead(c, 0) * V7Dir.DIRENT <= |c|
    ensures |V7Dir.Added(c, name, n)| % V7Dir.DIRENT == 0
    ensures V7Dir.FirstDead(c, 0) * V7Dir.DIRENT % BSIZE + V7Dir.DIRENT <= BSIZE
  {
    hide V7Dir.FirstDead, V7Dir.Dirent, V7Dir.Slot;
    var k := V7Dir.FirstDead(c, 0);
    SlotOffset(k);
    V7Dir.SpliceSlot(c, k, V7Dir.Dirent(n, name), 0);
  }

  lemma SlotOffset(k: nat)
    ensures k * V7Dir.DIRENT % BSIZE == k % PERBLOCK * V7Dir.DIRENT <= BSIZE - V7Dir.DIRENT
  {
  }

  lemma EndUnroll(c: seq<byte>, i: nat)
    requires i == V7Dir.Slots(c)
    ensures V7Dir.FirstDead(c, i) == i
  {
  }

  lemma SpliceNothing(c: seq<byte>, off: nat, d: seq<byte>)
    requires off <= |c|
    ensures Splice(c, off, d[..0]) == c && d[..|d|] == d
  {
  }

  /** The scan of unlink and rmdir: the first slot that holds inode number n under the name. In a sound
      directory where dlook just answered n != 0, that is the slot dlook saw. */
  method FindSlot(io: Io, name: seq<byte>, n: nat) returns (found: bool, dc: nat, dbn: nat)
    requires Readable(io) && V7Dir.Sound(DirBytes(io), |io.tab| - 1)
    requires n != 0 && n == V7Dir.Lookup(DirBytes(io), name)
    modifies io`b, io`blknos, io`ibuf
    ensures Readable(io) && found
    ensures V7Dir.FirstNamed(DirBytes(io), name, 0) < V7Dir.Slots(DirBytes(io))
    ensures dc == V7Dir.FirstNamed(DirBytes(io), name, 0) % PERBLOCK && dbn != 0
    ensures dbn == BlockOf(io.disk, io.ino.addr, V7Dir.FirstNamed(DirBytes(io), name, 0) / PERBLOCK)
  {
    hide FL.Sound, Owned, Cached, OnDisk, Content, HoleFree, Here, V7Dir.Slot, V7Dir.FirstNamed, V7Dir.Key, V7Dir.Sound;
    var total := io.ino.size / V7Dir.DIRENT;
    ghost var c := DirBytes(io);
    var bn: nat := 0;
    dc, dbn := 512, 0;
    var i := 0;
    while i < total
      invariant i <= total && Readable(io) && Cursor(io, i, dc, bn, dbn)
      invariant V7Dir.FirstNamed(c, name, 0) == V7Dir.FirstNamed(c, name, i)
    {
      dc, bn, dbn := NextSlot(io, i, dc, bn, dbn);
      HereIsSlot(io, i, dc, bn, dbn);
      Unroll(c, name, i);
      if V7Dir.EntryIno(Here(io.ibuf, dc)) == n && V7Dir.Key(V7Dir.EntryName(Here(io.ibuf, dc))) == V7Dir.Key(name) {
        return true, dc, dbn;
      }
      i := i + 1;
    }
    found := false;
  }

  /** unlink and rmdir: d_ino of slot dc of the directory block dbn becomes 0. The handle may be on
      another inode by now. */
  method KillSlot(io: Io, dc: nat, dbn: nat, ghost p: nat, ghost k: nat)
    requires io.Busy() && 1 <= p < |io.tab| && HasBlocks(io.tab[p])
    requires HoleFree(io.disk, io.tab[p]) && k < V7Dir.Slots(Content(io.disk, io.tab[p]))
    requires dc == k % PERBLOCK && dbn == BlockOf(io.disk, io.tab[p].addr, k / PERBLOCK) && dbn != 0
    modifies io`disk, io`ibuf
    ensures io.Busy() && (old(io.Valid()) ==> io.Valid())
    ensures OthersSame(old(io.Now()), io.Now(), p) && |io.disk| == |old(io.disk)|
    ensures HoleFree(io.disk, io.tab[p])
    ensures Content(io.disk, io.tab[p]) == V7Dir.Killed(Content(old(io.disk), io.tab[p]), k)
  {
    hide FL.Sound, Owned, Cached, OnDisk, Content, HoleFree, Walk, BlockOf, Stored, Patch, OthersSame, Covers;
    ghost var u := io.Now();
    ghost var off := k * V7Dir.DIRENT;
    InUseOf(io, p, k);
    io.Opened();
    io.ibuf := io.disk[dbn];
    io.ibuf := Bytes(Patch(AsBytes(io.ibuf), dc * V7Dir.DIRENT, [0, 0]));
    io.disk := io.disk[dbn := io.ibuf];
    MakeStored(u, io.Now(), p, off, [0, 0], AsBytes(u.disk[dbn]), dbn);
    StoredKeeps(u, io.Now(), p, off / BSIZE, off % BSIZE, [0, 0]);
    io.LeafStored(u, dbn);
    GrewNot(u, p, off / BSIZE);
    io.InDisk();
    ChunkWritten(u, u, io.Now(), p, off, [0, 0]);
    if OnDisk(u.disk, u.tab, 0) {
      OnDiskFrame(u.disk, io.disk, u.tab, io.tab, io.isize, 0);
    }
  }

  lemma InUseOf(io: Io, p: nat, k: nat)
    requires io.Busy() && 1 <= p < |io.tab| && HasBlocks(io.tab[p])
    requires HoleFree(io.disk, io.tab[p]) && k < V7Dir.Slots(Content(io.disk, io.tab[p]))
    ensures k * V7Dir.DIRENT / BSIZE == k / PERBLOCK < MAXBN && k * V7Dir.DIRENT % BSIZE == k % PERBLOCK * V7Dir.DIRENT
    ensures var x := BlockOf(io.disk, io.tab[p].addr, k / PERBLOCK);
      io.isize <= x < io.fsize && x !in io.free && x in io.own && Above(io.own[x]) == 0
  {
    var off := k * V7Dir.DIRENT;
    assert off / BSIZE == k / PERBLOCK && off / BSIZE * BSIZE < io.tab[p].size;
    BlockAt(io.Now(), p, k / PERBLOCK);
  }

  // ---------- steps of the system calls ----------

  /** Inside a call: the handle's inode may be ahead of the disk, directories are sound. */
  ghost predicate Live(io: Io)
    reads io
  {
    io.Busy() && DirsOk(io.Now())
  }

  lemma OnDirectory(io: Io)
    requires Live(io) && io.ino.kind == Directory
    ensures Readable(io) && V7Dir.Sound(DirBytes(io), |io.tab| - 1)
  {
  }

  /** file->i_ino = ...: the handle moves to an inode whose copy was kept. */
  method SwitchTo(io: Io, num: nat, inode: Inode)
    requires Consistent(io) && 1 <= num < |io.tab| && io.tab[num] == inode
    modifies io`inum, io`ino
    ensures Consistent(io) && Live(io) && io.inum == num && io.ino == inode
  {
    io.inum := num;
    io.ino := inode;
  }

  /** A new link count in the handle's copy. */
  method SetLinks(io: Io, links: int)
    requires Live(io)
    modifies io`ino, io`tab
    ensures Live(io) && io.ino == old(io.ino).(nlink := links)
    ensures io.tab == old(io.tab)[io.inum := io.ino]
    ensures OthersSame(old(io.Now()), io.Now(), io.inum) && forall z :: Look(io.Now(), z) == Look(old(io.Now()), z)
    ensures io.ino.kind == Directory ==> DirBytes(io) == old(DirBytes(io))
    ensures HasBlocks(io.ino) && HoleFree(old(io.disk), old(io.ino)) ==>
      HoleFree(io.disk, io.ino) && Content(io.disk, io.ino) == Content(old(io.disk), old(io.ino))
  {
    hide FL.Sound, Cached, HoleFree, Content, V7Dir.Sound;
    ghost var v := io.Now();
    io.ino := io.ino.(nlink := links);
    io.tab := io.tab[io.inum := io.ino];
    SameBlocks(v, io.Now(), io.inum, io.isize);
    OnDiskFrame(v.disk, io.disk, v.tab, io.tab, io.isize, io.inum);
    DirsKeep(v, io.Now(), io.inum);
  }

  /** writeino inside a call: the disk catches up, no file changes. */
  method SaveIno(io: Io)
    requires Live(io)
    modifies io`disk, io`b
    ensures Consistent(io) && Live(io)
    ensures forall m :: 0 <= m < |io.tab| ==> FileSame(old(io.Now()), io.Now(), m)
    ensures OthersSame(old(io.Now()), io.Now(), io.inum)
  {
    hide FL.Sound, Cached, HoleFree, Content, V7Dir.Sound, OnDisk, Owned;
    ghost var v := io.Now();
    io.WriteIno();
    SameBlocks(v, io.Now(), io.inum, io.isize);
    OthersAreSame(v, io.Now(), io.inum);
    DirsKeep(v, io.Now(), io.inum);
  }

  // ---------- path names ----------

  type Path = seq<seq<byte>>

  /** What a name means in inode d: 0 unless d is a directory with that name bound. */
  ghost function LookIn(v: Vol, d: nat, name: seq<byte>): nat
  {
    if 1 <= d < |v.tab| && v.tab[d].kind == Directory && V7Dir.Key(name) != []
    then V7Dir.Lookup(Content(v.disk, v.tab[d]), name) else 0
  }

  /** The inode a path leads to from inode d, or 0. */
  ghost function Resolve(v: Vol, d: nat, path: Path): nat
    decreases |path|
  {
    if path == [] then d
    else
      var n := LookIn(v, d, path[0]);
      if n == 0 then 0 else Resolve(v, n, path[1..])
  }

  /** The directory a path's last name is looked up in: the root for a single name. */
  ghost function ParentOf(v: Vol, path: Path): nat
  {
    if |path| <= 1 then ROOTINO else Resolve(v, ROOTINO, path[..|path| - 1])
  }

  function Last(path: Path): seq<byte>
    requires path != []
  {
    path[|path| - 1]
  }

  /** A path with a last name in a directory. */
  ghost predicate Enterable(v: Vol, path: Path)
  {
    && path != [] && V7Dir.Key(Last(path)) != []
    && 1 <= ParentOf(v, path) < |v.tab| && v.tab[ParentOf(v, path)].kind == Directory
  }

  /** What the path's last name means in its directory. */
  ghost function Target(v: Vol, path: Path): nat { if path == [] then 0 else LookIn(v, ParentOf(v, path), Last(path)) }

  lemma LookInBounded(v: Vol, d: nat, name: seq<byte>)
    requires DirsOk(v)
    ensures LookIn(v, d, name) < |v.tab|
  {
  }

  /** find */
  method Find(io: Io, path: Path) returns (n: nat)
    requires Consistent(io)
    modifies io`b, io`blknos, io`inum, io`ino, io`ibuf, io`offset
    ensures Consistent(io) && n < |io.tab|
    ensures n == if path == [] then 0 else Resolve(io.Now(), ROOTINO, path)
  {
    hide FirstBearer, FL.Sound, Owned, Cached, OnDisk, HoleFree, Content, V7Dir.Sound, V7Dir.Key, V7Dir.Lookup;
    if path == [] {
      return 0;
    }
    io.OpenI(ROOTINO);
    var i := 0;
    while true
      invariant i < |path| && Consistent(io) && Live(io)
      invariant Resolve(io.Now(), ROOTINO, path) == Resolve(io.Now(), io.inum, path[i..])
      decreases |path| - i
      modifies io`b, io`blknos, io`inum, io`ino, io`ibuf, io`offset
    {
      if io.ino.kind == Directory { OnDirectory(io); }
      n := DLook(io, path[i]);
      LookInBounded(io.Now(), io.inum, path[i]);
      assert n == LookIn(io.Now(), io.inum, path[i]);
      assert path[i..][1..] == path[i + 1..];
      if n == 0 || i + 1 == |path| {
        return n;
      }
      io.OpenI(n);
      i := i + 1;
    }
  }

  /** path_parent: the handle on the directory of the last name. */
  method PathParent(io: Io, path: Path) returns (ok: bool)
    requires Consistent(io)
    modifies io`b, io`blknos, io`inum, io`ino, io`ibuf, io`offset
    ensures Consistent(io)
    ensures ok <==> Enterable(io.Now(), path)
    ensures ok ==> Live(io) && io.inum == ParentOf(io.Now(), path) && Readable(io) && V7Dir.Sound(DirBytes(io), |io.tab| - 1)
  {
    hide FL.Sound, Owned, Cached, OnDisk, HoleFree, Content, V7Dir.Sound, V7Dir.Key, V7Dir.Lookup, Resolve;
    if path == [] || V7Dir.Key(path[|path| - 1]) == [] {
      return false;
    }
    if |path| > 1 {
      var n := Find(io, path[..|path| - 1]);
      if n == 0 {
        return false;
      }
      io.OpenI(n);
    } else {
      io.OpenI(ROOTINO);
    }
    if io.ino.kind != Directory {
      return false;
    }
    OnDirectory(io);
    ok := true;
  }

  // ---------- create, mkdir, mknod ----------

  /** A file system left by one call: consistent, and the files of all inodes but two untouched. */
  ghost predicate Left(v: Vol, w: Vol, p: nat, q: nat)
  {
    |w.tab| == |v.tab| && forall m :: 0 <= m < |v.tab| && m != p && m != q ==> FileSame(v, w, m)
  }

  lemma LeftTwice(u: Vol, v: Vol, w: Vol, p: nat, q: nat)
    requires Left(u, v, p, q) && Left(v, w, p, q)
    ensures Left(u, w, p, q)
  {
    hide HoleFree, Content;
    forall m | 0 <= m < |u.tab| && m != p && m != q ensures FileSame(u, w, m) {
      assert FileSame(u, v, m) && FileSame(v, w, m);
    }
  }

  lemma LeftByOne(v: Vol, w: Vol, n: nat, p: nat, q: nat)
    requires OthersSame(v, w, n) && Owned(v.disk, v.tab, v.own) && (n == p || n == q)
    ensures Left(v, w, p, q)
  {
    hide Owned;
    OthersAreSame(v, w, n);
  }

  /** From v to w the given name in directory p came to mean n; nothing else about the names in any directory
      but q changed. */
  ghost predicate Rebinds(v: Vol, w: Vol, p: nat, name: seq<byte>, n: nat, q: nat)
  {
    forall m, y :: m != q ==>
      LookIn(w, m, y) == if m == p && V7Dir.Key(y) == V7Dir.Key(name) then n else LookIn(v, m, y)
  }

  /** No name changed its meaning, no inode its kind or its link count. */
  ghost predicate SameTree(v: Vol, w: Vol)
  {
    && |w.tab| == |v.tab| && (forall m, y :: LookIn(w, m, y) == LookIn(v, m, y))
    && forall m :: 0 <= m < |v.tab| ==> w.tab[m].kind == v.tab[m].kind && w.tab[m].nlink == v.tab[m].nlink
  }

  /** q is a directory with nothing in it, or with itself and its parent in it. */
  ghost predicate FreshDir(v: Vol, q: nat, parent: nat)
  {
    && 1 <= q < |v.tab| && v.tab[q].kind == Directory
    && forall y :: LookIn(v, q, y) ==
         if v.tab[q].size == 0 then 0
         else if V7Dir.Key(y) == V7Dir.Key(V7Dir.DOT) then q
         else if V7Dir.Key(y) == V7Dir.Key(V7Dir.DOTDOT) then parent else 0
  }

  /** The same said of strncmp: exactly the names that it takes for the given one mean n now. */
  lemma RebindsNames(v: Vol, w: Vol, p: nat, name: seq<byte>, n: nat, q: nat)
    requires Rebinds(v, w, p, name, n, q)
    ensures forall m, y :: m != q ==> LookIn(w, m, y) == if m == p && V7Dir.SameName(y, name) then n else LookIn(v, m, y)
  {
    hide LookIn, V7Dir.Key, V7Dir.SameName;
    forall m, y | m != q ensures LookIn(w, m, y) == if m == p && V7Dir.SameName(y, name) then n else LookIn(v, m, y) {
      V7Dir.KeyIsStrncmp(y, name);
    }
  }

  /** What is said of directory p says it of all but q. */
  lemma LeftRebinds(v: Vol, w: Vol, p: nat, name: seq<byte>, n: nat, q: nat)
    requires Left(v, w, p, q) && DirsOk(v) && forall m :: 0 <= m < |v.tab| ==> |v.tab[m].addr| == NADDR
    requires LookIn(w, p, name) == n
    requires forall y :: V7Dir.Key(y) != V7Dir.Key(name) ==> LookIn(w, p, y) == LookIn(v, p, y)
    ensures Rebinds(v, w, p, name, n, q)
  {
    hide DirsOk, FileSame, V7Dir.Lookup, Content, V7Dir.Key;
    forall m: nat, y | m != q
      ensures LookIn(w, m, y) == if m == p && V7Dir.Key(y) == V7Dir.Key(name) then n else LookIn(v, m, y)
    {
      if m != p && m < |v.tab| {
        SameNames(v, w, m);
      } else if m == p && V7Dir.Key(y) == V7Dir.Key(name) {
        SameKey(w, p, y, name);
      }
    }
  }

  /** Only the key of a name matters. */
  lemma SameKey(v: Vol, d: nat, y: seq<byte>, name: seq<byte>)
    requires V7Dir.Key(y) == V7Dir.Key(name)
    ensures LookIn(v, d, y) == LookIn(v, d, name)
  {
    if 1 <= d < |v.tab| && v.tab[d].kind == Directory {
      var c := Content(v.disk, v.tab[d]);
      var f, g := V7Dir.FirstNamed(c, y, 0), V7Dir.FirstNamed(c, name, 0);
      assert f < V7Dir.Slots(c) ==> V7Dir.NameAt(c, f) == V7Dir.Key(name);
      assert g < V7Dir.Slots(c) ==> V7Dir.NameAt(c, g) == V7Dir.Key(y);
    }
  }

  /** The names of a directory whose bytes are the dot entries, or none. */
  lemma DotsRead(v: Vol, q: nat, parent: nat)
    requires 1 <= q < |v.tab| <= MAXINO + 1 && 1 <= parent < |v.tab| && v.tab[q].kind == Directory
    requires var c := Content(v.disk, v.tab[q]);
      c == [] || c == V7Dir.Dirent(q, V7Dir.DOT) + V7Dir.Dirent(parent, V7Dir.DOTDOT)
    ensures FreshDir(v, q, parent)
  {
    hide V7Dir.Sound, V7Dir.Dirent, V7Dir.Key;
    V7Dir.NewDirectory(q, parent, |v.tab| - 1);
    NoDots();
  }

  lemma NoDots()
    ensures V7Dir.Key(V7Dir.DOT) != [] && V7Dir.Key(V7Dir.DOTDOT) != []
  {
  }

  /** The first two entries of a new directory, written through the handle on it. */
  method FillDirectory(io: Io, parent: nat) returns (ok: bool)
    requires Consistent(io) && Live(io) && io.ino.kind == Directory && io.ino.size == 0 && 1 <= parent < |io.tab|
    requires io.ino.addr == NoAddrs()
    modifies io`disk, io`sblock, io`b, io`blknos, io`free, io`own, io`tab, io`ino, io`ibuf, io`offset
    ensures Consistent(io) && Live(io)
    ensures OthersSame(old(io.Now()), io.Now(), io.inum)
    ensures io.ino.kind == Directory && io.ino.nlink == old(io.ino).nlink
    ensures ok ==> DirBytes(io) == V7Dir.Dirent(io.inum, V7Dir.DOT) + V7Dir.Dirent(parent, V7Dir.DOTDOT)
    ensures !ok ==> DirBytes(io) == [] && io.free == []
    ensures ok <==> old(io.free) != []
    ensures ok ==> |io.free| == |old(io.free)| - 1
  {
    hide FL.Sound, Owned, Cached, OnDisk, Content, HoleFree, V7Dir.Sound, OthersSame, V7Dir.Key, V7Dir.Lookup, Need;
    OnDirectory(io);
    NeedFirst(io.Now(), io.inum);
    ghost var v := io.Now();
    var d := V7Dir.Dirent(io.inum, V7Dir.DOT) + V7Dir.Dirent(parent, V7Dir.DOTDOT);
    V7Dir.NewDirectory(io.inum, parent, |io.tab| - 1);
    io.offset := 0;
    var put := io.WriteI(d);
    assert DirBytes(io) == d[..put] by {
      assert Content(v.disk, v.tab[io.inum]) == [];
      assert Splice([], 0, d[..put]) == d[..put];
    }
    assert d[..0] == [] && d[..|d|] == d;
    DirsKeep(v, io.Now(), io.inum);
    ok := put == 2 * V7Dir.DIRENT;
  }

  /** Some inode behind the root is not in use. */
  ghost predicate HasUnused(v: Vol) { exists m :: ROOTINO < m < |v.tab| && v.tab[m].kind == Unused }

  /** ialloc, then for a directory its first two entries. */
  method MakeInode(io: Io, kind: Kind, dev: nat, parent: nat) returns (ok: bool, n: nat)
    requires Consistent(io) && kind != Unused && 1 <= parent < |io.tab|
    modifies io`disk, io`sblock, io`b, io`blknos, io`free, io`own, io`tab, io`ino, io`inum, io`ibuf, io`offset
    ensures Consistent(io) && n < |io.tab| && |io.tab| == |old(io.tab)|
    ensures n == 0 ==> !ok && io.Now() == old(io.Now())
    ensures n != 0 ==> ROOTINO < n && old(io.tab)[n].kind == Unused && Live(io) && io.inum == n && io.ino.kind == kind
    ensures OthersSame(old(io.Now()), io.Now(), n)
    ensures n != 0 <==> HasUnused(old(io.Now()))
    ensures n != 0 ==> io.ino.nlink == NewInode(kind, dev).nlink && (kind != Directory ==> io.ino == NewInode(kind, dev))
    ensures n != 0 ==> (ok <==> kind != Directory || old(io.free) != [])
    ensures n != 0 ==> |io.free| == |old(io.free)| - if kind == Directory && ok then 1 else 0
    ensures !ok && n != 0 ==> DirBytes(io) == []
    ensures ok && kind == Directory ==>
      DirBytes(io) == V7Dir.Dirent(n, V7Dir.DOT) + V7Dir.Dirent(parent, V7Dir.DOTDOT)
  {
    hide FL.Sound, Owned, Cached, OnDisk, Content, HoleFree, V7Dir.Sound, OthersSame, V7Dir.Key, V7Dir.Lookup;
    ghost var v := io.Now();
    n := io.IAlloc(kind, dev);
    if n == 0 {
      return false, 0;
    }
    EmptyFile(io);
    DirsKeep(v, io.Now(), n);
    ok := true;
    if kind == Directory {
      ghost var u := io.Now();
      ok := FillDirectory(io, parent);
      OthersSameTwice(v, u, io.Now(), n);
    }
  }

  lemma EmptyFile(io: Io)
    requires io.Busy() && io.ino.size == 0
    ensures DirOk(io.disk, io.tab, io.inum)
  {
    V7Dir.NewDirectory(0, 0, |io.tab| - 1);
    assert Content(io.disk, io.ino) == [];
  }

  /** What a new inode q and its parent p look like after maknode: the inode is as ialloc and the dot entries
      made it; the parent's link count is raised for a directory that got its dot entries, whether or not it
      then got its name. */
  ghost predicate Born(v: Vol, w: Vol, p: nat, q: nat, kind: Kind, dev: nat)
  {
    && p != q && 1 <= p < |w.tab| && ROOTINO < q < |w.tab| == |v.tab| && v.tab[q].kind == Unused
    && w.tab[q].kind == kind && w.tab[q].nlink == NewInode(kind, dev).nlink
    && v.tab[p].kind == w.tab[p].kind == Directory
    && w.tab[p].nlink == (if kind == Directory && w.tab[q].size != 0 then Raised(v.tab[p].nlink) else v.tab[p].nlink)
    && (if kind == Directory then FreshDir(w, q, p) && (w.tab[q].size != 0 <==> v.free != []) else w.tab[q] == NewInode(kind, dev))
  }

  /** There is room for a new inode of this kind with its entry in directory p. */
  ghost predicate MakeRoom(v: Vol, p: nat, kind: Kind)
    requires p < |v.tab|
  {
    NextFree(v, p) / BSIZE < MAXBN && MakeCost(v, p, kind) <= |v.free|
  }

  ghost function MakeCost(v: Vol, p: nat, kind: Kind): nat
    requires p < |v.tab|
  {
    Cost(v, p) + if kind == Directory then 1 else 0
  }

  /** maknode with a new inode q in directory p: it gets its name exactly if there is room. */
  ghost predicate NewNodeDoes(v: Vol, w: Vol, p: nat, name: seq<byte>, kind: Kind, dev: nat, n: nat, q: nat)
  {
    && Born(v, w, p, q, kind, dev) && Left(v, w, p, q) && Rebinds(v, w, p, name, n, q)
    && n == (if MakeRoom(v, p, kind) then q else 0)
    && (n != 0 ==> AddedTo(v, w, p, name, n) && |w.free| == |v.free| - MakeCost(v, p, kind))
  }

  /** The rest of maknode once dlook found no such name: the handle is on the parent directory. */
  method NewNode(io: Io, name: seq<byte>, kind: Kind, dev: nat) returns (n: nat, ghost q: nat)
    requires Consistent(io) && Live(io) && io.ino.kind == Directory && kind != Unused
    requires V7Dir.Key(name) != [] && V7Dir.Lookup(DirBytes(io), name) == 0
    modifies io`disk, io`sblock, io`b, io`blknos, io`free, io`own, io`tab, io`ino, io`inum, io`ibuf, io`offset
    ensures Consistent(io) && |io.tab| == |old(io.tab)|
    ensures if HasUnused(old(io.Now())) then NewNodeDoes(old(io.Now()), io.Now(), old(io.inum), name, kind, dev, n, q)
            else n == 0 && q == 0 && io.Now() == old(io.Now())
  {
    hide FL.Sound, Owned, Cached, OnDisk, Content, HoleFree, V7Dir.Sound, OthersSame, V7Dir.Key, V7Dir.Lookup, V7Dir.Dirent, Rebinds, FreshDir, Born, FileSame, Room, Cost, NextFree, Look, HasUnused;
    ghost var v := io.Now();
    OnDirectory(io);
    var parentnum, parentino := io.inum, io.ino;
    assert LookIn(v, parentnum, name) == 0;
    assert DirOk(v.disk, v.tab, parentnum);
    var ok;
    ok, n := MakeInode(io, kind, dev, parentnum);
    q := n;
    if n == 0 {
      return;
    }
    LeftByOne(v, io.Now(), n, parentnum, q);
    Untouched(v, io.Now(), n, parentnum);
    ghost var u := io.Now();
    RoomElsewhere(v, u, parentnum, q);
    if kind == Directory {
      DotsRead(u, q, parentnum);
      assert io.tab[q].size == |DirBytes(io)|;
    }
    if !ok {
      LeftRebinds(v, io.Now(), parentnum, name, 0, q);
      BornHere(v, u, parentnum, q, kind, dev);
      return 0, q;
    }
    ok := Enter(io, name, n, parentnum, parentino);
    LeftTwice(v, u, io.Now(), parentnum, q);
    AfterEnter(v, u, io.Now(), parentnum, name, n, q, kind, dev, ok);
    if !ok {
      n := 0;
    }
  }

  /** The pieces of maknode put together. */
  lemma AfterEnter(v: Vol, u: Vol, w: Vol, p: nat, name: seq<byte>, n: nat, q: nat, kind: Kind, dev: nat, ok: bool)
    requires DirsOk(v) && DirsOk(u) && |u.tab| == |v.tab| && forall m :: 0 <= m < |v.tab| ==> |v.tab[m].addr| == |u.tab[m].addr| == NADDR
    requires p != q && 1 <= p < |v.tab| == |u.tab| == |w.tab| && ROOTINO < q < |v.tab| && v.tab[q].kind == Unused
    requires u.tab[q].kind == kind && u.tab[q].nlink == NewInode(kind, dev).nlink && u.tab[p] == v.tab[p]
    requires kind == Directory ==> FreshDir(u, q, p) && u.tab[q].size == 2 * V7Dir.DIRENT && v.free != []
    requires kind != Directory ==> u.tab[q] == NewInode(kind, dev)
    requires v.tab[p].kind == w.tab[p].kind == Directory && Left(v, w, p, q) && FileSame(u, w, q)
    requires w.tab[p].nlink == if kind == Directory then Raised(v.tab[p].nlink) else v.tab[p].nlink
    requires LookIn(w, p, name) == if ok then n else 0
    requires forall y :: LookIn(u, p, y) == LookIn(v, p, y)
    requires forall y :: V7Dir.Key(y) != V7Dir.Key(name) ==> LookIn(w, p, y) == LookIn(u, p, y)
    ensures Born(v, w, p, q, kind, dev) && Rebinds(v, w, p, name, if ok then n else 0, q)
  {
    hide LookIn, FileSame, DirsOk, Left, FreshDir, Born, Rebinds, V7Dir.Key;
    SameNames(u, w, q);
    SameInode(u, w, q);
    if kind == Directory {
      FreshStays(u, w, q, p);
    }
    BornHere(v, w, p, q, kind, dev);
    LeftRebinds(v, w, p, name, if ok then n else 0, q);
  }

  lemma SameInode(v: Vol, w: Vol, m: nat)
    requires FileSame(v, w, m)
    ensures m < |v.tab| == |w.tab| && w.tab[m] == v.tab[m]
  {
  }

  /** Work on another inode takes no room from a directory but free blocks. */
  lemma RoomElsewhere(v: Vol, w: Vol, p: nat, q: nat)
    requires OthersSame(v, w, q) && Owned(v.disk, v.tab, v.own) && p != q && p < |v.tab| && v.tab[p].kind == Directory
    requires |v.tab[p].addr| == NADDR && DirOk(v.disk, v.tab, p)
    ensures |w.tab| == |v.tab| && Content(w.disk, w.tab[p]) == Content(v.disk, v.tab[p])
    ensures NextFree(w, p) == NextFree(v, p) && Cost(w, p) == Cost(v, p)
    ensures Room(w, p) <==> NextFree(v, p) / BSIZE < MAXBN && Cost(v, p) <= |w.free|
  {
    OthersAreSame(v, w, q);
    assert FileSame(v, w, p);
    hide Content, HoleFree, Owned, V7Dir.Sound, Look;
    RoomSame(v, w, p);
  }

  lemma BornHere(v: Vol, w: Vol, p: nat, q: nat, kind: Kind, dev: nat)
    requires p != q && 1 <= p < |w.tab| && ROOTINO < q < |w.tab| == |v.tab| && v.tab[q].kind == Unused
    requires w.tab[q].kind == kind && w.tab[q].nlink == NewInode(kind, dev).nlink
    requires v.tab[p].kind == w.tab[p].kind == Directory
    requires w.tab[p].nlink == if kind == Directory && w.tab[q].size != 0 then Raised(v.tab[p].nlink) else v.tab[p].nlink
    requires if kind == Directory then FreshDir(w, q, p) && (w.tab[q].size != 0 <==> v.free != []) else w.tab[q] == NewInode(kind, dev)
    ensures Born(v, w, p, q, kind, dev)
  {
  }

  lemma FreshStays(v: Vol, w: Vol, q: nat, parent: nat)
    requires |w.tab| == |v.tab| && q < |v.tab| && w.tab[q] == v.tab[q]
    requires forall y :: LookIn(w, q, y) == LookIn(v, q, y)
    ensures FreshDir(v, q, parent) ==> FreshDir(w, q, parent)
  {
  }

  /** An inode other than n reads as before. */
  lemma Untouched(v: Vol, w: Vol, n: nat, p: nat)
    requires OthersSame(v, w, n) && Owned(v.disk, v.tab, v.own) && DirsOk(v) && p != n && p < |v.tab|
    requires forall m :: 0 <= m < |v.tab| ==> |v.tab[m].addr| == NADDR
    ensures w.tab[p] == v.tab[p] && forall y :: LookIn(w, p, y) == LookIn(v, p, y)
  {
    OthersAreSame(v, w, n);
    assert FileSame(v, w, p);
    SameNames(v, w, p);
  }

  lemma SameNames(v: Vol, w: Vol, p: nat)
    requires FileSame(v, w, p) && DirsOk(v) && |v.tab[p].addr| == NADDR
    ensures forall y :: LookIn(w, p, y) == LookIn(v, p, y)
  {
    hide V7Dir.Sound, HoleFree, Content;
    assert 1 <= p && v.tab[p].kind == Directory ==> DirOk(v.disk, v.tab, p);
  }

  /** The second half of maknode: the entry for inode n, which the handle is on, in directory p. */
  method Enter(io: Io, name: seq<byte>, n: nat, p: nat, parentino: Inode) returns (ok: bool)
    requires Consistent(io) && Live(io) && io.inum == n && 1 <= p < |io.tab| && p != n
    requires io.tab[p] == parentino && parentino.kind == Directory
    requires V7Dir.Key(name) != [] && LookIn(io.Now(), p, name) == 0
    modifies io`disk, io`sblock, io`b, io`blknos, io`free, io`own, io`tab, io`ino, io`inum, io`ibuf, io`offset
    ensures Consistent(io) && |io.tab| == |old(io.tab)| && io.tab[n] == old(io.tab)[n]
    ensures Left(old(io.Now()), io.Now(), p, n) && FileSame(old(io.Now()), io.Now(), n)
    ensures ok <==> Room(old(io.Now()), p)
    ensures ok ==> |io.free| == |old(io.free)| - Cost(old(io.Now()), p)
    ensures ok ==> AddedTo(old(io.Now()), io.Now(), p, name, n)
    ensures io.tab[p].kind == Directory
    ensures io.tab[p].nlink == if old(io.ino).kind == Directory then Raised(parentino.nlink) else parentino.nlink
    ensures LookIn(io.Now(), p, name) == if ok then n else 0
    ensures forall y :: V7Dir.Key(y) != V7Dir.Key(name) ==> LookIn(io.Now(), p, y) == LookIn(old(io.Now()), p, y)
  {
    hide FL.Sound, Owned, Cached, OnDisk, Content, HoleFree, V7Dir.Sound, OthersSame, V7Dir.Key, V7Dir.Lookup, Room, Cost;
    var newino := io.ino;
    ghost var v := io.Now();
    SwitchTo(io, p, parentino);
    ok := AddEntry(io, name, n, newino.kind == Directory);
    LeftByOne(v, io.Now(), p, p, n);
    Untouched(v, io.Now(), p, n);
    OthersAreSame(v, io.Now(), p);
    assert FileSame(v, io.Now(), n);
    if !ok {
      return;
    }
    SwitchTo(io, n, newino);
    ghost var u := io.Now();
    SaveIno(io);
    assert FileSame(u, io.Now(), n);
    assert FileSame(u, io.Now(), p);
    SameNames(u, io.Now(), p);
    assert DirOk(u.disk, u.tab, p);
    LeftTwice(v, u, io.Now(), p, n);
    io.blknos := [0, 0, 0, 0];
    NoCache(io);
  }

  lemma NoCache(io: Io)
    requires |io.b| == NBUFS && io.blknos == [0, 0, 0, 0]
    ensures io.CacheOk()
  {
  }

  /** The bytes of directory p gained the entry that binds the name to n. */
  ghost predicate AddedTo(v: Vol, w: Vol, p: nat, name: seq<byte>, n: nat)
  {
    && p < |v.tab| && p < |w.tab| && n <= MAXINO
    && Content(w.disk, w.tab[p]) == V7Dir.Added(Content(v.disk, v.tab[p]), name, n)
  }

  /** What an entry takes depends on the directory's bytes and the blocks it has. */
  lemma RoomSame(v: Vol, w: Vol, p: nat)
    requires p < |v.tab| == |w.tab| && Content(w.disk, w.tab[p]) == Content(v.disk, v.tab[p])
    requires forall z: Place :: z.n == p ==> Look(w, z) == Look(v, z)
    ensures NextFree(w, p) == NextFree(v, p) && Cost(w, p) == Cost(v, p)
    ensures Room(w, p) <==> NextFree(v, p) / BSIZE < MAXBN && Cost(v, p) <= |w.free|
    ensures Room(v, p) <==> NextFree(v, p) / BSIZE < MAXBN && Cost(v, p) <= |v.free|
  {
    hide Look, Need, Content, V7Dir.FirstDead;
    if NextFree(v, p) / BSIZE < MAXBN {
      NeedSame(v, w, p, NextFree(v, p) / BSIZE);
    }
  }

  /** adddir with the parent's link count raised first for a new subdirectory. */
  method AddEntry(io: Io, name: seq<byte>, n: nat, sub: bool) returns (ok: bool)
    requires Consistent(io) && Live(io) && io.ino.kind == Directory && 0 < n < |io.tab|
    requires V7Dir.Key(name) != [] && V7Dir.Lookup(DirBytes(io), name) == 0
    modifies io`disk, io`sblock, io`b, io`blknos, io`free, io`own, io`tab, io`ino, io`ibuf, io`offset
    ensures Consistent(io)
    ensures OthersSame(old(io.Now()), io.Now(), io.inum)
    ensures ok <==> Room(old(io.Now()), io.inum)
    ensures ok ==> |io.free| == |old(io.free)| - Cost(old(io.Now()), io.inum)
    ensures ok ==> AddedTo(old(io.Now()), io.Now(), io.inum, name, n)
    ensures io.ino == io.tab[io.inum] && io.ino.kind == Directory
    ensures io.ino.nlink == if sub then Raised(old(io.ino).nlink) else old(io.ino).nlink
    ensures LookIn(io.Now(), io.inum, name) == if ok then n else 0
    ensures forall y :: V7Dir.Key(y) != V7Dir.Key(name) ==> LookIn(io.Now(), io.inum, y) == LookIn(old(io.Now()), io.inum, y)
  {
    hide FL.Sound, Owned, Cached, OnDisk, Content, HoleFree, V7Dir.Sound, OthersSame, V7Dir.Key, V7Dir.Lookup, Room, Cost, NextFree, Look;
    ghost var v := io.Now();
    ghost var c := DirBytes(io);
    if sub {
      SetLinks(io, Raised(io.ino.nlink));
      RoomSame(v, io.Now(), io.inum);
    }
    OthersSameSelf(v, io.inum);
    OnDirectory(io);
    ghost var u := io.Now();
    ok := AddDir(io, name, n);
    OthersSameTwice(v, u, io.Now(), io.inum);
    DirsKeep(u, io.Now(), io.inum);
    V7Dir.AddedSound(c, |io.tab| - 1, name, n);
  }

  lemma OthersSameSelf(v: Vol, n: nat)
    ensures OthersSame(v, v, n)
  {
  }

  /** What maknode does on a path: nothing for a path without a directory; the inode of a name that is there,
      to create only; nothing without an unused inode; else a new inode. */
  ghost predicate MakNodeDoes(v: Vol, w: Vol, path: Path, kind: Kind, dev: nat, n: nat, q: nat)
  {
    if !Enterable(v, path) then n == 0 && q == 0 && w == v
    else if Target(v, path) != 0 then q == 0 && w == v && n == if kind == Regular then Target(v, path) else 0
    else if !HasUnused(v) then n == 0 && q == 0 && w == v
    else NewNodeDoes(v, w, ParentOf(v, path), Last(path), kind, dev, n, q)
  }

  /** maknode: an existing name is returned to create and refused to mkdir and mknod. */
  method MakNode(io: Io, path: Path, kind: Kind, dev: nat) returns (n: nat, ghost q: nat)
    requires Consistent(io) && kind != Unused
    modifies io`disk, io`sblock, io`b, io`blknos, io`free, io`own, io`tab, io`ino, io`inum, io`ibuf, io`offset
    ensures Consistent(io) && |io.tab| == |old(io.tab)| && n < |io.tab|
    ensures MakNodeDoes(old(io.Now()), io.Now(), path, kind, dev, n, q)
    ensures q != 0 && kind == Device ==> io.tab[q].kind == Device && io.tab[q].addr[0] == dev
  {
    hide FirstBearer, FL.Sound, Owned, Cached, OnDisk, Content, HoleFree, V7Dir.Sound, V7Dir.Key, V7Dir.Lookup, Resolve, Rebinds, Born, FileSame, HasUnused, MakeRoom, MakeCost, AddedTo;
    q := 0;
    var ok := PathParent(io, path);
    if !ok {
      return 0, 0;
    }
    var name := path[|path| - 1];
    n := DLook(io, name);
    LookInBounded(io.Now(), io.inum, name);
    if n != 0 {
      if kind != Regular {
        n := 0;
      }
      return;
    }
    ghost var v, p := io.Now(), io.inum;
    n, q := NewNode(io, name, kind, dev);
    if q != 0 {
      BornBounds(v, io.Now(), p, q, kind, dev);
    }
  }

  lemma BornBounds(v: Vol, w: Vol, p: nat, q: nat, kind: Kind, dev: nat)
    requires Born(v, w, p, q, kind, dev)
    ensures ROOTINO < q < |w.tab| && (kind == Device ==> w.tab[q].kind == Device && |w.tab[q].addr| == NADDR && w.tab[q].addr[0] == dev)
  {
  }

  // ---------- giving an inode back ----------

  /** s_tinode of the superblock on disk grows by one. */
  method CountInode(io: Io)
    requires Consistent(io) && 1 <= io.inum < |io.tab|
    modifies io`disk, io`sblock
    ensures Consistent(io) && OthersSame(old(io.Now()), io.Now(), io.inum)
  {
    hide FL.Sound, FL.Holds, Owned, Cached, OnDisk, Content, HoleFree, V7Dir.Sound, OthersSame;
    ghost var v := io.Now();
    io.ReadSb();
    io.sblock := io.sblock.(tinode := io.sblock.tinode + 1);
    FL.Recount(io.disk, io.disk[SUPERB].sb, io.sblock.tinode, io.free);
    io.WriteSb();
    FL.SoundFrame(v.disk, io.disk, io.sblock, io.free);
    CachedFrame(v.disk, io.disk, io.b, io.b, io.blknos, io.own, io.own);
    OnDiskFrame(v.disk, io.disk, v.tab, io.tab, io.isize, 0);
    SameBlocks(v, io.Now(), io.inum, io.isize);
    DirsKeep(v, io.Now(), io.inum);
  }

  /** Truncated, marked unused and written back: nothing is left of the handle's inode, its blocks are
      on the free stack. */
  method FreeInode(io: Io)
    requires Live(io)
    modifies io`disk, io`sblock, io`b, io`blknos, io`free, io`own, io`tab, io`ino
    ensures Consistent(io) && |io.tab| == |old(io.tab)|
    ensures OthersSame(old(io.Now()), io.Now(), io.inum)
    ensures io.tab[io.inum].kind == Unused
    ensures io.free == if HasBlocks(old(io.ino)) then old(io.free) + Slots(old(io.disk), old(io.ino).addr, 0) else old(io.free)
  {
    hide FL.Sound, OnDisk, Content, HoleFree, V7Dir.Sound, Owned, OthersSame, Slots;
    ghost var v := io.Now();
    io.ITrunc();
    ghost var t := io.Now();
    Truncated(v, t, io.inum);
    io.ino := io.ino.(kind := Unused, nlink := 0, size := 0);
    io.tab := io.tab[io.inum := io.ino];
    ghost var u := io.Now();
    Disowned(t, u, io.inum);
    OnDiskFrame(t.disk, u.disk, t.tab, u.tab, io.isize, io.inum);
    OthersSameTwice(v, t, u, io.inum);
    DirsKeep(v, u, io.inum);
    SaveIno(io);
    OthersSameTwice(v, u, io.Now(), io.inum);
    ghost var s := io.Now();
    CountInode(io);
    OthersSameTwice(v, s, io.Now(), io.inum);
  }

  lemma Truncated(v: Vol, w: Vol, n: nat)
    requires Owned(v.disk, v.tab, v.own) && Owned(w.disk, w.tab, w.own)
    requires |w.disk| == |v.disk| && n < |v.tab|
    requires HasBlocks(v.tab[n]) ==> w.own == Without(v.own, n) && |w.tab| == |v.tab| && w.tab == v.tab[n := w.tab[n]]
    requires !HasBlocks(v.tab[n]) ==> w == v
    requires forall x :: x in v.own && v.own[x].n != n && x < |v.disk| ==> w.disk[x] == v.disk[x]
    ensures OthersSame(v, w, n)
    ensures forall x :: x in w.own ==> w.own[x].n != n
  {
    PlacesAreValid(v.disk, v.tab, v.own);
    forall z: Place | z.n != n ensures Look(w, z) == Look(v, z) {
      if z.n < |v.tab| { AtFrame(v.disk, w.disk, v.tab, w.tab, v.own, z); }
    }
  }

  /** An inode that owns nothing may be marked unused. */
  lemma Disowned(v: Vol, w: Vol, n: nat)
    requires Owned(v.disk, v.tab, v.own) && n < |v.tab| && w.disk == v.disk && w.own == v.own
    requires |w.tab| == |v.tab| && w.tab == v.tab[n := w.tab[n]] && w.tab[n].kind == Unused
    requires forall x :: x in v.own ==> v.own[x].n != n
    ensures Owned(w.disk, w.tab, w.own) && OthersSame(v, w, n)
  {
    assert Without(v.own, n) == v.own;
    Detach(v.disk, w.disk, v.tab, w.tab, v.own, n);
    forall z: Place | z.n != n ensures Look(w, z) == Look(v, z) {
      if z.n < |v.tab| { AtFrame(v.disk, w.disk, v.tab, w.tab, v.own, z); }
    }
  }

  predicate IsDot(name: seq<byte>)
  {
    V7Dir.Key(name) == V7Dir.Key(V7Dir.DOT) || V7Dir.Key(name) == V7Dir.Key(V7Dir.DOTDOT)
  }

  /** The slot found for a bound name dies, in directory p; the handle has moved to inode n. */
  method Unbind(io: Io, name: seq<byte>, dc: nat, dbn: nat, ghost p: nat)
    requires Consistent(io) && Live(io) && 1 <= p < |io.tab| && io.tab[p].kind == Directory && V7Dir.Key(name) != []
    requires V7Dir.FirstNamed(Content(io.disk, io.tab[p]), name, 0) < V7Dir.Slots(Content(io.disk, io.tab[p]))
    requires dc == V7Dir.FirstNamed(Content(io.disk, io.tab[p]), name, 0) % PERBLOCK && dbn != 0
    requires dbn == BlockOf(io.disk, io.tab[p].addr, V7Dir.FirstNamed(Content(io.disk, io.tab[p]), name, 0) / PERBLOCK)
    modifies io`disk, io`ibuf
    ensures Consistent(io) && Live(io)
    ensures OthersSame(old(io.Now()), io.Now(), p)
    ensures LookIn(io.Now(), p, name) == 0
    ensures forall y :: V7Dir.Key(y) != V7Dir.Key(name) ==> LookIn(io.Now(), p, y) == LookIn(old(io.Now()), p, y)
  {
    hide FL.Sound, Owned, Cached, OnDisk, Content, HoleFree, V7Dir.Sound, OthersSame, V7Dir.Key, V7Dir.Lookup, V7Dir.FirstNamed, BlockOf;
    ghost var v := io.Now();
    ghost var c := Content(io.disk, io.tab[p]);
    assert DirOk(io.disk, io.tab, p);
    V7Dir.KilledSound(c, |io.tab| - 1, name);
    KillSlot(io, dc, dbn, p, V7Dir.FirstNamed(c, name, 0));
    DirsKeep(v, io.Now(), p);
  }

  /** unlink succeeds exactly on an ordinary name of something that is no directory. */
  ghost predicate UnlinkOk(v: Vol, path: Path)
  {
    && Enterable(v, path) && !IsDot(Last(path))
    && 0 < Target(v, path) < |v.tab| && v.tab[Target(v, path)].kind != Directory
  }

  /** What unlink does: the name goes; with the last link the inode goes too. */
  ghost predicate UnlinkDoes(v: Vol, w: Vol, path: Path, ok: bool)
  {
    var p, t := ParentOf(v, path), Target(v, path);
    && (ok <==> UnlinkOk(v, path))
    && (!ok ==> w == v)
    && (ok ==>
          && Left(v, w, p, t) && Rebinds(v, w, p, Last(path), 0, t) && t != p && w.tab[p] == v.tab[p]
          && if Lowered(v.tab[t].nlink) == 0 then w.tab[t].kind == Unused
             else w.tab[t] == v.tab[t].(nlink := Lowered(v.tab[t].nlink)) && BytesSame(v, w, t))
  }

  /** unlink: the name goes; with the last link the inode and all its blocks go too. */
  method Unlink(io: Io, path: Path) returns (ok: bool)
    requires Consistent(io)
    modifies io`disk, io`sblock, io`b, io`blknos, io`free, io`own, io`tab, io`ino, io`inum, io`ibuf, io`offset
    ensures Consistent(io) && |io.tab| == |old(io.tab)|
    ensures UnlinkDoes(old(io.Now()), io.Now(), path, ok)
  {
    hide FirstBearer, FL.Sound, Owned, Cached, OnDisk, Content, HoleFree, V7Dir.Sound, OthersSame, V7Dir.Key, V7Dir.Lookup, V7Dir.FirstNamed, BlockOf, Resolve, Rebinds;
    ghost var v := io.Now();
    ok := PathParent(io, path);
    if !ok {
      return;
    }
    var name := path[|path| - 1];
    if IsDot(name) {
      return false;
    }
    ghost var p := io.inum;
    var n := DLook(io, name);
    LookInBounded(io.Now(), io.inum, name);
    if n == 0 {
      return false;
    }
    var dc: nat, dbn: nat;
    ok, dc, dbn := FindSlot(io, name, n);
    io.OpenI(n);
    if io.ino.kind == Directory {
      return false;
    }
    Unbind(io, name, dc, dbn, p);
    LeftByOne(v, io.Now(), p, p, n);
    Untouched(v, io.Now(), p, n);
    ghost var u := io.Now();
    DropLink(io);
    OthersAreSame(v, u, p);
    if io.tab[n].kind != Unused {
      BytesTwice(v, u, io.Now(), n);
    }
    LeftByOne(u, io.Now(), n, p, n);
    LeftTwice(v, u, io.Now(), p, n);
    Untouched(u, io.Now(), n, p);
    LeftRebinds(v, io.Now(), p, name, 0, n);
    ok := true;
  }

  /** One link less for the handle's inode; the last one takes the inode with it. */
  method DropLink(io: Io)
    requires Live(io)
    modifies io`disk, io`sblock, io`b, io`blknos, io`free, io`own, io`tab, io`ino
    ensures Consistent(io) && |io.tab| == |old(io.tab)|
    ensures OthersSame(old(io.Now()), io.Now(), io.inum)
    ensures if Lowered(old(io.ino).nlink) == 0 then io.tab[io.inum].kind == Unused
            else io.tab[io.inum] == old(io.ino).(nlink := Lowered(old(io.ino).nlink)) && BytesSame(old(io.Now()), io.Now(), io.inum)
  {
    hide FL.Sound, Owned, Cached, OnDisk, Content, HoleFree, OthersSame;
    ghost var v := io.Now();
    SetLinks(io, Lowered(io.ino.nlink));
    OthersSameSelf(v, io.inum);
    ghost var u := io.Now();
    if io.ino.nlink == 0 {
      FreeInode(io);
    } else {
      SaveIno(io);
      BytesTwice(v, u, io.Now(), io.inum);
    }
    OthersSameTwice(v, u, io.Now(), io.inum);
  }

  /** The inner scan of rmdir: does the directory hold anything but "." and ".."? */
  method IsEmpty(io: Io) returns (empty: bool)
    requires Readable(io)
    modifies io`b, io`blknos, io`ibuf
    ensures Readable(io) && (empty <==> V7Dir.OnlyDots(DirBytes(io)))
  {
    hide FL.Sound, Owned, Cached, OnDisk, Content, HoleFree, Here, V7Dir.Slot, V7Dir.Key;
    var total := io.ino.size / V7Dir.DIRENT;
    ghost var c := DirBytes(io);
    var dc: nat, bn: nat, dbn: nat := 512, 0, 0;
    var i := 0;
    while i < total
      invariant i <= total && Readable(io) && Cursor(io, i, dc, bn, dbn)
      invariant forall k :: 0 <= k < i && V7Dir.InoAt(c, k) != 0 ==> DotKey(V7Dir.NameAt(c, k))
    {
      dc, bn, dbn := NextSlot(io, i, dc, bn, dbn);
      HereIsSlot(io, i, dc, bn, dbn);
      if V7Dir.EntryIno(Here(io.ibuf, dc)) != 0 && !DotKey(V7Dir.Key(V7Dir.EntryName(Here(io.ibuf, dc)))) {
        assert V7Dir.InoAt(c, i) != 0 && !DotKey(V7Dir.NameAt(c, i));
        return false;
      }
      i := i + 1;
    }
    empty := true;
  }

  predicate DotKey(k: seq<byte>)
  {
    k == V7Dir.Key(V7Dir.DOT) || k == V7Dir.Key(V7Dir.DOTDOT)
  }

  /** A directory that holds itself under an ordinary name is not empty. */
  lemma NotItself(c: seq<byte>, name: seq<byte>)
    requires V7Dir.OnlyDots(c) && V7Dir.Lookup(c, name) != 0
    ensures IsDot(name)
  {
    assert V7Dir.InoAt(c, V7Dir.FirstNamed(c, name, 0)) != 0;
  }

  /** rmdir succeeds exactly on an ordinary name of a directory that holds only dot entries. */
  ghost predicate RmdirOk(v: Vol, path: Path)
  {
    && Enterable(v, path) && !IsDot(Last(path))
    && 0 < Target(v, path) < |v.tab| && v.tab[Target(v, path)].kind == Directory
    && V7Dir.OnlyDots(Content(v.disk, v.tab[Target(v, path)]))
  }

  /** What rmdir does: name and inode go, the parent has a link less. */
  ghost predicate RmdirDoes(v: Vol, w: Vol, path: Path, ok: bool)
  {
    var p, t := ParentOf(v, path), Target(v, path);
    && (ok <==> RmdirOk(v, path))
    && (!ok ==> w == v)
    && (ok ==>
          && Left(v, w, p, t) && Rebinds(v, w, p, Last(path), 0, t) && t != p
          && w.tab[t].kind == Unused
          && w.tab[p].kind == Directory && w.tab[p].nlink == Lowered(v.tab[p].nlink))
  }

  /** rmdir: an empty directory goes with its name, its blocks go back to the free stack. */
  method Rmdir(io: Io, path: Path) returns (ok: bool)
    requires Consistent(io)
    modifies io`disk, io`sblock, io`b, io`blknos, io`free, io`own, io`tab, io`ino, io`inum, io`ibuf, io`offset
    ensures Consistent(io) && |io.tab| == |old(io.tab)|
    ensures RmdirDoes(old(io.Now()), io.Now(), path, ok)
  {
    hide FirstBearer, FL.Sound, Owned, Cached, OnDisk, Content, HoleFree, V7Dir.Sound, OthersSame, V7Dir.Key, V7Dir.Lookup, V7Dir.FirstNamed, V7Dir.OnlyDots, BlockOf, Resolve, Rebinds;
    ok := PathParent(io, path);
    if !ok {
      return;
    }
    var name := path[|path| - 1];
    if IsDot(name) {
      return false;
    }
    var n := DLook(io, name);
    LookInBounded(io.Now(), io.inum, name);
    if n == 0 {
      return false;
    }
    var dc: nat, dbn: nat;
    ok, dc, dbn := FindSlot(io, name, n);
    var p, parentino := io.inum, io.ino;
    io.OpenI(n);
    if io.ino.kind != Directory {
      return false;
    }
    OnDirectory(io);
    var empty := IsEmpty(io);
    if !empty {
      return false;
    }
    if n == p { NotItself(DirBytes(io), name); }
    SwitchTo(io, p, parentino);
    RemoveBoth(io, name, dc, dbn, n);
    ok := true;
  }

  /** The two halves of rmdir once the directory is known to be empty: its name goes, then its inode. */
  method RemoveBoth(io: Io, name: seq<byte>, dc: nat, dbn: nat, n: nat)
    requires Consistent(io) && Live(io) && io.ino.kind == Directory && V7Dir.Key(name) != []
    requires V7Dir.FirstNamed(DirBytes(io), name, 0) < V7Dir.Slots(DirBytes(io))
    requires dc == V7Dir.FirstNamed(DirBytes(io), name, 0) % PERBLOCK && dbn != 0
    requires dbn == BlockOf(io.disk, io.ino.addr, V7Dir.FirstNamed(DirBytes(io), name, 0) / PERBLOCK)
    requires 0 < n < |io.tab| && n != io.inum && io.tab[n].kind == Directory
    modifies io`disk, io`sblock, io`b, io`blknos, io`free, io`own, io`tab, io`ino, io`inum, io`ibuf, io`offset
    ensures Consistent(io) && |io.tab| == |old(io.tab)|
    ensures Left(old(io.Now()), io.Now(), old(io.inum), n)
    ensures Rebinds(old(io.Now()), io.Now(), old(io.inum), name, 0, n)
    ensures io.tab[old(io.inum)].kind == Directory && io.tab[old(io.inum)].nlink == Lowered(old(io.ino).nlink)
    ensures io.tab[n].kind == Unused
  {
    hide FL.Sound, Owned, Cached, OnDisk, Content, HoleFree, V7Dir.Sound, OthersSame, V7Dir.Key, V7Dir.Lookup, V7Dir.FirstNamed, V7Dir.OnlyDots, BlockOf, Resolve;
    ghost var v, p := io.Now(), io.inum;
    RemoveFromParent(io, name, dc, dbn);
    LeftByOne(v, io.Now(), p, p, n);
    Untouched(v, io.Now(), p, n);
    ghost var u := io.Now();
    io.OpenI(n);
    FreeInode(io);
    LeftByOne(u, io.Now(), n, p, n);
    LeftTwice(v, u, io.Now(), p, n);
    Untouched(u, io.Now(), n, p);
    LeftRebinds(v, io.Now(), p, name, 0, n);
  }

  /** The parent's half of rmdir: the slot dies, one link less, inode written back. */
  method RemoveFromParent(io: Io, name: seq<byte>, dc: nat, dbn: nat)
    requires Consistent(io) && Live(io) && io.ino.kind == Directory && V7Dir.Key(name) != []
    requires V7Dir.FirstNamed(DirBytes(io), name, 0) < V7Dir.Slots(DirBytes(io))
    requires dc == V7Dir.FirstNamed(DirBytes(io), name, 0) % PERBLOCK && dbn != 0
    requires dbn == BlockOf(io.disk, io.ino.addr, V7Dir.FirstNamed(DirBytes(io), name, 0) / PERBLOCK)
    modifies io`disk, io`b, io`ibuf, io`ino, io`tab
    ensures Consistent(io) && |io.tab| == |old(io.tab)|
    ensures OthersSame(old(io.Now()), io.Now(), io.inum)
    ensures io.tab[io.inum].kind == Directory && io.tab[io.inum].nlink == Lowered(old(io.ino).nlink)
    ensures LookIn(io.Now(), io.inum, name) == 0
    ensures forall y :: V7Dir.Key(y) != V7Dir.Key(name) ==>
              LookIn(io.Now(), io.inum, y) == LookIn(old(io.Now()), io.inum, y)
  {
    hide FL.Sound, Owned, Cached, OnDisk, Content, HoleFree, V7Dir.Sound, OthersSame, V7Dir.Key, V7Dir.Lookup, V7Dir.FirstNamed, BlockOf;
    ghost var v := io.Now();
    Unbind(io, name, dc, dbn, io.inum);
    ghost var u := io.Now();
    OthersSameSelf(u, io.inum);
    SetLinks(io, Lowered(io.ino.nlink));
    ghost var w := io.Now();
    SaveIno(io);
    assert FileSame(w, io.Now(), io.inum);
    SameNames(w, io.Now(), io.inum);
    OthersSameTwice(v, u, w, io.inum);
    OthersSameTwice(v, w, io.Now(), io.inum);
  }

  /** What a path leads to. */
  ghost function Source(v: Vol, src: Path): nat { if src == [] then 0 else Resolve(v, ROOTINO, src) }

  /** link succeeds exactly for something that is no directory and a new ordinary name with room for it. */
  ghost predicate LinkOk(v: Vol, src: Path, dst: Path)
  {
    && 0 < Source(v, src) < |v.tab| && v.tab[Source(v, src)].kind != Directory
    && Enterable(v, dst) && !IsDot(Last(dst)) && Target(v, dst) == 0 && Room(v, ParentOf(v, dst))
  }

  /** What link does: the name means the file, which has one link more. */
  ghost predicate LinkDoes(v: Vol, w: Vol, src: Path, dst: Path, ok: bool)
  {
    var t, p := Source(v, src), ParentOf(v, dst);
    && (ok <==> LinkOk(v, src, dst))
    && Left(v, w, p, t)
    && (!ok ==> SameTree(v, w))
    && (ok ==>
          && t != p && Rebinds(v, w, p, Last(dst), t, t)
          && w.tab[t] == v.tab[t].(nlink := Raised(v.tab[t].nlink)) && BytesSame(v, w, t)
          && w.tab[p].kind == Directory && w.tab[p].nlink == v.tab[p].nlink
          && AddedTo(v, w, p, Last(dst), t) && |w.free| == |v.free| - Cost(v, p))
  }

  /** link: a second name for a file that is no directory. */
  method Link(io: Io, src: Path, dst: Path) returns (ok: bool)
    requires Consistent(io)
    modifies io`disk, io`sblock, io`b, io`blknos, io`free, io`own, io`tab, io`ino, io`inum, io`ibuf, io`offset
    ensures Consistent(io) && |io.tab| == |old(io.tab)|
    ensures LinkDoes(old(io.Now()), io.Now(), src, dst, ok)
  {
    hide FirstBearer, FL.Sound, Owned, Cached, OnDisk, Content, HoleFree, V7Dir.Sound, OthersSame, V7Dir.Key, V7Dir.Lookup, Resolve, Rebinds, Room, Cost, SameTree;
    ghost var v := io.Now();
    SameTreeSelf(v);
    var n := Find(io, src);
    OthersSameSelf(v, n);
    if n == 0 {
      return false;
    }
    io.OpenI(n);
    if io.ino.kind == Directory {
      return false;
    }
    var srcino := io.ino;
    ok := PathParent(io, dst);
    if !ok {
      return;
    }
    var name := dst[|dst| - 1];
    if IsDot(name) {
      return false;
    }
    var there := DLook(io, name);
    if there != 0 {
      return false;
    }
    ok := SecondName(io, name, n, srcino);
  }

  /** The second half of link: the entry for file n in the directory the handle is on, and its link. */
  method SecondName(io: Io, name: seq<byte>, n: nat, srcino: Inode) returns (ok: bool)
    requires Consistent(io) && Live(io) && io.ino.kind == Directory && 0 < n < |io.tab|
    requires n != io.inum && io.tab[n] == srcino && V7Dir.Key(name) != [] && LookIn(io.Now(), io.inum, name) == 0
    modifies io`disk, io`sblock, io`b, io`blknos, io`free, io`own, io`tab, io`ino, io`inum, io`ibuf, io`offset
    ensures Consistent(io) && |io.tab| == |old(io.tab)| && (ok <==> Room(old(io.Now()), old(io.inum)))
    ensures Left(old(io.Now()), io.Now(), old(io.inum), n) && (!ok ==> SameTree(old(io.Now()), io.Now()))
    ensures ok ==>
      && Rebinds(old(io.Now()), io.Now(), old(io.inum), name, n, n)
      && io.tab[n] == srcino.(nlink := Raised(srcino.nlink)) && BytesSame(old(io.Now()), io.Now(), n)
      && io.tab[old(io.inum)].kind == Directory && io.tab[old(io.inum)].nlink == old(io.ino).nlink
      && AddedTo(old(io.Now()), io.Now(), old(io.inum), name, n)
      && |io.free| == |old(io.free)| - Cost(old(io.Now()), old(io.inum))
  {
    hide FL.Sound, Owned, Cached, OnDisk, Content, HoleFree, V7Dir.Sound, OthersSame, V7Dir.Key, V7Dir.Lookup, Rebinds, Room, Cost, SameTree, NextFree;
    ghost var v := io.Now();
    ghost var p := io.inum;
    ok := AddEntry(io, name, n, false);
    LeftByOne(v, io.Now(), p, p, n);
    Untouched(v, io.Now(), p, n);
    if !ok {
      LeftRebinds(v, io.Now(), p, name, 0, n);
      NothingBound(v, io.Now(), p, name, n);
      return;
    }
    ghost var u := io.Now();
    OneLinkMore(io, n, srcino);
    OthersAreSame(v, u, p);
    BytesTwice(v, u, io.Now(), n);
    LeftByOne(u, io.Now(), n, p, n);
    LeftTwice(v, u, io.Now(), p, n);
    Untouched(u, io.Now(), n, p);
    OthersAreSame(u, io.Now(), n);
    AddedStays(v, u, io.Now(), p, name, n);
    LeftRebinds(v, io.Now(), p, name, n, n);
  }

  lemma AddedStays(v: Vol, u: Vol, w: Vol, p: nat, name: seq<byte>, n: nat)
    requires AddedTo(v, u, p, name, n) && FileSame(u, w, p) && DirsOk(u) && 1 <= p && u.tab[p].kind == Directory
    requires |u.tab[p].addr| == NADDR
    ensures AddedTo(v, w, p, name, n)
  {
    hide Content, HoleFree, V7Dir.Sound;
    assert DirOk(u.disk, u.tab, p);
  }

  /** The source file gets a link more. */
  method OneLinkMore(io: Io, n: nat, srcino: Inode)
    requires Consistent(io) && 1 <= n < |io.tab| && io.tab[n] == srcino
    modifies io`disk, io`b, io`tab, io`ino, io`inum
    ensures Consistent(io) && |io.tab| == |old(io.tab)|
    ensures OthersSame(old(io.Now()), io.Now(), n) && io.tab[n] == srcino.(nlink := Raised(srcino.nlink))
    ensures BytesSame(old(io.Now()), io.Now(), n)
  {
    hide FL.Sound, Owned, Cached, OnDisk, Content, HoleFree, V7Dir.Sound, OthersSame;
    ghost var u := io.Now();
    SwitchTo(io, n, srcino);
    SetLinks(io, Raised(io.ino.nlink));
    ghost var w := io.Now();
    SaveIno(io);
    OthersSameTwice(u, w, io.Now(), n);
    BytesTwice(u, w, io.Now(), n);
  }

  /** Binding an absent name to nothing. */
  lemma NothingBound(v: Vol, w: Vol, p: nat, name: seq<byte>, t: nat)
    requires Rebinds(v, w, p, name, 0, t) && LookIn(v, p, name) == 0 && Left(v, w, p, t) && p < |v.tab|
    requires w.tab[p].kind == v.tab[p].kind && w.tab[p].nlink == v.tab[p].nlink
    requires t < |v.tab| && w.tab[t] == v.tab[t] && forall y :: LookIn(w, t, y) == LookIn(v, t, y)
    ensures SameTree(v, w)
  {
    hide V7Dir.Key, V7Dir.Lookup, Content, HoleFree, DirsOk;
    hide LookIn;
    forall m, y ensures LookIn(w, m, y) == LookIn(v, m, y) {
      if m == p && V7Dir.Key(y) == V7Dir.Key(name) {
        SameKey(v, p, y, name);
      }
    }
    forall m | 0 <= m < |v.tab| ensures w.tab[m].kind == v.tab[m].kind && w.tab[m].nlink == v.tab[m].nlink {
      assert m != p && m != t ==> FileSame(v, w, m);
    }
  }

  /** What open for writing does: an existing file is emptied, a new one made as maknode does. */
  ghost predicate OpenDoes(v: Vol, w: Vol, path: Path, n: nat, q: nat)
  {
    && n < |w.tab| == |v.tab|
    && (n != 0 ==> w.tab[n].kind != Directory && path != [] && LookIn(w, ParentOf(v, path), Last(path)) == n)
    && (n != 0 && HasBlocks(w.tab[n]) ==> w.tab[n].size == 0 && w.tab[n].addr == NoAddrs())
    && (q == 0 ==> SameTree(v, w) && Left(v, w, n, n))
    && if !Enterable(v, path) then n == 0 && q == 0
       else if Target(v, path) != 0 then
         q == 0 && Target(v, path) < |v.tab|
         && n == if v.tab[Target(v, path)].kind == Directory then 0 else Target(v, path)
       else if !HasUnused(v) then n == 0 && q == 0
       else NewNodeDoes(v, w, ParentOf(v, path), Last(path), Regular, 0, n, q)
  }

  /** open for writing: the file is created or emptied. */
  method OpenWrite(io: Io, path: Path) returns (n: nat, ghost q: nat)
    requires Consistent(io)
    modifies io`disk, io`sblock, io`b, io`blknos, io`free, io`own, io`tab, io`ino, io`inum, io`ibuf, io`offset
    ensures Consistent(io) && |io.tab| == |old(io.tab)|
    ensures n < |io.tab| && (n != 0 ==> io.inum == n && io.offset == 0 && io.ino == io.tab[n])
    ensures OpenDoes(old(io.Now()), io.Now(), path, n, q)
  {
    hide FL.Sound, Owned, Cached, Content, HoleFree, V7Dir.Sound, OthersSame, Slots, SameTree, MakNodeDoes, OpenDoes;
    ghost var v := io.Now();
    n, q := MakNode(io, path, Regular, 0);
    ghost var u := io.Now();
    if n == 0 {
      NothingOpened(v, u, path, n, q);
      return;
    }
    io.OpenI(n);
    if io.ino.kind == Directory {
      NothingOpened(v, u, path, n, q);
      return 0, q;
    }
    EmptyIt(io);
    io.offset := 0;
    Opened(v, u, io.Now(), path, n, q);
  }

  /** No file for writing: what maknode did stays. */
  lemma NothingOpened(v: Vol, u: Vol, path: Path, n: nat, q: nat)
    requires MakNodeDoes(v, u, path, Regular, 0, n, q) && |u.tab| == |v.tab| && n < |u.tab|
    requires n == 0 || u.tab[n].kind == Directory
    ensures OpenDoes(v, u, path, 0, q)
  {
    hide Born, Rebinds, LookIn, SameTree, HasUnused, MakeRoom, MakeCost, AddedTo, Resolve, V7Dir.Key, Left, Enterable;
    SameTreeSelf(v);
    SameTreeSelf(u);
    if Enterable(v, path) && Target(v, path) == 0 && HasUnused(v) {
      BornKind(v, u, ParentOf(v, path), q, Regular, 0);
    }
  }

  /** A file for writing: it was emptied behind maknode. */
  lemma Opened(v: Vol, u: Vol, w: Vol, path: Path, n: nat, q: nat)
    requires MakNodeDoes(v, u, path, Regular, 0, n, q) && |w.tab| == |u.tab| == |v.tab| && 0 < n < |u.tab|
    requires u.tab[n].kind == w.tab[n].kind != Directory && OthersSame(u, w, n) && SameTree(u, w)
    requires Owned(u.disk, u.tab, u.own) && DirsOk(u) && forall m :: 0 <= m < |u.tab| ==> |u.tab[m].addr| == NADDR
    requires HasBlocks(u.tab[n]) ==>
      w.tab[n] == u.tab[n].(size := 0, addr := NoAddrs()) && w.free == u.free + Slots(u.disk, u.tab[n].addr, 0)
    requires !HasBlocks(u.tab[n]) ==> w == u
    ensures OpenDoes(v, w, path, n, q)
  {
    hide Owned, Content, HoleFree, V7Dir.Sound, V7Dir.Key, OthersSame, Resolve, Slots, Born, Rebinds, FileSame, LookIn, SameTree, HasUnused, MakeRoom, MakeCost, AddedTo, NoAddrs;
    var p := ParentOf(v, path);
    LeftByOne(u, w, n, n, n);
    SameNamesStill(u, w, p, Last(path));
    if q != 0 {
      BornKind(v, u, p, q, Regular, 0);
      SlotsVoid(u.disk, 0);
      LeftByOne(u, w, n, p, q);
      NewStays(v, u, w, p, Last(path), n, q);
    }
  }

  /** open for writing opens the file of an entry that strncmp takes for the name; a file is made only where no
      live entry is taken for it. */
  lemma OpenFinds(v: Vol, w: Vol, path: Path, n: nat, q: nat)
    requires DirsOk(v) && OpenDoes(v, w, path, n, q) && Enterable(v, path) && n != 0
    ensures var c, name := Content(v.disk, v.tab[ParentOf(v, path)]), Last(path);
      && (q == 0 ==> exists k :: 0 <= k < V7Dir.Slots(c) && V7Dir.Bears(c, k, name) && V7Dir.InoAt(c, k) == n)
      && (q != 0 ==> n == q && v.tab[n].kind == Unused
                     && forall k :: 0 <= k < V7Dir.Slots(c) && V7Dir.InoAt(c, k) != 0 ==> !V7Dir.Bears(c, k, name))
  {
    var p, name := ParentOf(v, path), Last(path);
    var c := Content(v.disk, v.tab[p]);
    assert DirOk(v.disk, v.tab, p);
    hide Content, HoleFree, Rebinds, AddedTo, SameTree, Left, MakeRoom, MakeCost, HasUnused, V7Dir.Key, V7Dir.Lookup, Resolve, FreshDir, V7Dir.Sound;
    if Target(v, path) != 0 {
      var k := LiveBearer(c, |v.tab| - 1, name);
    } else {
      forall k | 0 <= k < V7Dir.Slots(c) && V7Dir.InoAt(c, k) != 0 ensures !V7Dir.Bears(c, k, name) {
        hide V7Dir.Bears;
        NoBearer(c, |v.tab| - 1, name, k);
      }
    }
  }

  lemma LiveBearer(c: seq<byte>, maxIno: nat, name: seq<byte>) returns (k: nat)
    requires V7Dir.Sound(c, maxIno) && V7Dir.Lookup(c, name) != 0
    ensures k < V7Dir.Slots(c) && V7Dir.Bears(c, k, name) && V7Dir.InoAt(c, k) == V7Dir.Lookup(c, name)
  {
    V7Dir.LookupIsLive(c, maxIno, name, V7Dir.Lookup(c, name));
    hide V7Dir.Sound, V7Dir.Lookup, V7Dir.InoAt, V7Dir.Key, V7Dir.SameName;
    k :| 0 <= k < V7Dir.Slots(c) && V7Dir.InoAt(c, k) == V7Dir.Lookup(c, name) && V7Dir.NameAt(c, k) == V7Dir.Key(name);
    V7Dir.KeyIsStrncmp(V7Dir.EntryName(V7Dir.Slot(c, k)), name);
  }

  lemma NoBearer(c: seq<byte>, maxIno: nat, name: seq<byte>, k: nat)
    requires V7Dir.Sound(c, maxIno) && V7Dir.Lookup(c, name) == 0 && k < V7Dir.Slots(c) && V7Dir.InoAt(c, k) != 0
    ensures !V7Dir.Bears(c, k, name)
  {
    V7Dir.LookupIsLive(c, maxIno, name, V7Dir.InoAt(c, k));
    hide V7Dir.Sound, V7Dir.Lookup, V7Dir.InoAt, V7Dir.Key, V7Dir.SameName;
    V7Dir.KeyIsStrncmp(V7Dir.EntryName(V7Dir.Slot(c, k)), name);
  }

  lemma SameNamesStill(v: Vol, w: Vol, p: nat, name: seq<byte>)
    requires SameTree(v, w)
    ensures LookIn(w, p, name) == LookIn(v, p, name) && |w.tab| == |v.tab|
  {
    hide LookIn;
  }

  /** What maknode made stays when the new file is emptied. */
  lemma NewStays(v: Vol, u: Vol, w: Vol, p: nat, name: seq<byte>, n: nat, q: nat)
    requires NewNodeDoes(v, u, p, name, Regular, 0, n, q) && n == q && SameTree(u, w) && Left(u, w, p, q) && FileSame(u, w, p)
    requires DirsOk(u) && forall m :: 0 <= m < |u.tab| ==> |u.tab[m].addr| == NADDR
    requires w.tab[q] == u.tab[q] && w.free == u.free
    ensures NewNodeDoes(v, w, p, name, Regular, 0, n, q)
    ensures LookIn(w, p, name) == n
  {
    hide LookIn, Content, HoleFree, V7Dir.Sound, V7Dir.Key, MakeRoom, MakeCost;
    BornThen(v, u, w, p, name, n, q);
    LeftTwice(v, u, w, p, q);
    BornKind(v, u, p, q, Regular, 0);
    assert DirOk(u.disk, u.tab, p);
  }

  /** An inode without blocks gives none back. */
  lemma {:induction false} SlotsVoid(disk: seq<Block>, k: nat)
    requires k <= NADDR
    ensures Slots(disk, NoAddrs(), k) == []
    decreases NADDR - k
  {
    if k < NADDR {
      SlotsVoid(disk, k + 1);
    }
  }

  lemma SameTreeSelf(v: Vol)
    ensures SameTree(v, v) && Left(v, v, 0, 0)
  {
  }

  lemma BornKind(v: Vol, w: Vol, p: nat, q: nat, kind: Kind, dev: nat)
    requires Born(v, w, p, q, kind, dev)
    ensures 0 < q < |w.tab| == |v.tab| && w.tab[q].kind == kind && p != q
    ensures kind != Directory ==> w.tab[q] == NewInode(kind, dev)
  {
  }

  /** Afterwards no name and no link count changes. */
  lemma BornThen(v: Vol, u: Vol, w: Vol, p: nat, name: seq<byte>, n: nat, q: nat)
    requires Born(v, u, p, q, Regular, 0) && Rebinds(v, u, p, name, n, q) && SameTree(u, w) && w.tab[q] == u.tab[q]
    ensures Born(v, w, p, q, Regular, 0) && Rebinds(v, w, p, name, n, q)
    ensures n != 0 ==> LookIn(u, p, name) == LookIn(w, p, name) == n
  {
    hide LookIn;
  }

  /** Only a file that is no directory changed, and neither its kind nor its link count. */
  lemma TreeKept(v: Vol, w: Vol, n: nat)
    requires OthersSame(v, w, n) && Owned(v.disk, v.tab, v.own) && DirsOk(v)
    requires forall m :: 0 <= m < |v.tab| ==> |v.tab[m].addr| == NADDR
    requires n < |v.tab| && v.tab[n].kind == w.tab[n].kind != Directory && v.tab[n].nlink == w.tab[n].nlink
    ensures SameTree(v, w)
  {
    hide Owned, DirsOk, V7Dir.Key, V7Dir.Lookup, Content, FileSame;
    OthersAreSame(v, w, n);
    forall m: nat, y ensures LookIn(w, m, y) == LookIn(v, m, y) {
      if m != n && m < |v.tab| {
        SameNames(v, w, m);
      }
    }
  }

  /** itrunc on the file just opened. */
  method EmptyIt(io: Io)
    requires Consistent(io) && Live(io) && io.ino.kind != Directory
    modifies io`disk, io`sblock, io`b, io`blknos, io`free, io`own, io`tab, io`ino
    ensures Consistent(io) && Live(io) && |io.tab| == |old(io.tab)| && io.ino.kind == old(io.ino).kind
    ensures OthersSame(old(io.Now()), io.Now(), io.inum) && SameTree(old(io.Now()), io.Now())
    ensures HasBlocks(io.ino) ==> io.ino.size == 0 && io.ino.addr == NoAddrs()
    ensures HasBlocks(old(io.ino)) ==>
      && io.ino == old(io.ino).(size := 0, addr := NoAddrs())
      && io.free == old(io.free) + Slots(old(io.disk), old(io.ino).addr, 0)
    ensures !HasBlocks(old(io.ino)) ==> io.Now() == old(io.Now())
  {
    hide FL.Sound, Owned, Cached, Content, HoleFree, V7Dir.Sound, OthersSame, Slots, SameTree;
    ghost var v := io.Now();
    io.ITrunc();
    Truncated(v, io.Now(), io.inum);
    DirsKeep(v, io.Now(), io.inum);
    TreeKept(v, io.Now(), io.inum);
  }

  /** What write does: the bytes counted are written, short only for lack of blocks or of block numbers, and
      within one block exactly when the blocks on the way cannot all be had. */
  ghost predicate WriteDoes(v: Vol, w: Vol, n: nat, off: nat, buf: seq<byte>, count: nat)
  {
    && count <= |buf| && Written(v, w, n, off, buf[..count]) && SameTree(v, w)
    && (count < |buf| ==> w.free == [] || MAXBN * BSIZE <= off + count)
    && (off % BSIZE + |buf| <= BSIZE && buf != [] ==> (count == |buf| <==> Fits(v, n, off)))
  }

  /** write through a handle on regular file n at position off. */
  method Write(io: Io, n: nat, off: nat, buf: seq<byte>) returns (count: nat)
    requires Consistent(io) && 1 <= n < |io.tab| && io.tab[n].kind == Regular
    modifies io`disk, io`sblock, io`b, io`blknos, io`free, io`own, io`tab, io`ino, io`inum, io`ibuf, io`offset
    ensures Consistent(io) && |io.tab| == |old(io.tab)|
    ensures WriteDoes(old(io.Now()), io.Now(), n, off, buf, count)
  {
    hide FL.Sound, Owned, Cached, OnDisk, Content, HoleFree, V7Dir.Sound, OthersSame, Splice, SameTree, Need;
    ghost var v := io.Now();
    io.OpenI(n);
    io.offset := off;
    count := io.WriteI(buf);
    DirsKeep(v, io.Now(), n);
    TreeKept(v, io.Now(), n);
  }

  // ---------- a fresh file system ----------

  const MINBLOCKS: int := 2048
  const MAXBLOCKS: int := 2097152 // 1024 * 1024 * 1024 / BSIZE
  const MAXISIZE: int := 8192

  /** A volume of the given sizes: every data block free but the one with the root's two entries. Every run of
      system calls starts from such a volume or from one a run has left. */
  method MakeVolume(isize: nat, fsize: nat) returns (io: Io)
    requires ROOTINO < isize < fsize && (isize - 2) * INOPB <= MAXINO
    ensures fresh(io) && Consistent(io) && io.isize == isize && io.fsize == fsize && |io.free| == fsize - isize - 1
    ensures io.tab == BlankInodes(isize)[ROOTINO := io.tab[ROOTINO]]
    ensures io.tab[ROOTINO].kind == Directory && io.tab[ROOTINO].nlink == 2 && io.tab[ROOTINO].size == 2 * V7Dir.DIRENT
    ensures FreshDir(io.Now(), ROOTINO, ROOTINO)
    ensures Content(io.disk, io.tab[ROOTINO]) == V7Dir.Dirent(ROOTINO, V7Dir.DOT) + V7Dir.Dirent(ROOTINO, V7Dir.DOTDOT)
  {
    hide FL.Sound, Owned, Cached, OnDisk, V7Dir.Sound, Content, HoleFree, V7Dir.Key, V7Dir.Lookup, V7Dir.Dirent;
    io := new V7Io.V7Io.Blank(isize, fsize);
    io.Format();
    io.AddRoot();
    EmptyFile(io);
    ghost var v := io.Now();
    var ok := FillDirectory(io, ROOTINO);
    DotsRead(io.Now(), ROOTINO, ROOTINO);
    assert |DirBytes(io)| == 2 * V7Dir.DIRENT;
    assert io.tab[ROOTINO] == io.ino;
    assert io.tab == v.tab[ROOTINO := io.tab[ROOTINO]];
  }

  /** makefsv7: one block in twenty-five for inodes. */
  method MakeFs(nblocks: int) returns (io: V7Io.V7Io?)
    ensures io == null <==> !(MINBLOCKS <= nblocks <= MAXBLOCKS)
    ensures io != null ==> fresh(io) && Consistent(io) && io.fsize == nblocks && |io.free| == nblocks - io.isize - 1
    ensures io != null ==> io.isize == if nblocks / 25 > MAXISIZE - 2 then MAXISIZE else 2 + nblocks / 25
    ensures io != null ==>
      && io.tab == BlankInodes(io.isize)[ROOTINO := io.tab[ROOTINO]]
      && io.tab[ROOTINO].kind == Directory && io.tab[ROOTINO].nlink == 2 && io.tab[ROOTINO].size == 2 * V7Dir.DIRENT
      && FreshDir(io.Now(), ROOTINO, ROOTINO)
      && Content(io.disk, io.tab[ROOTINO]) == V7Dir.Dirent(ROOTINO, V7Dir.DOT) + V7Dir.Dirent(ROOTINO, V7Dir.DOTDOT)
  {
    if nblocks < MINBLOCKS || nblocks > MAXBLOCKS {
      return null;
    }
    var n := nblocks / 25;
    if n > MAXISIZE - 2 {
      n := MAXISIZE - 2;
    }
    io := MakeVolume(2 + n, nblocks);
  }
}
