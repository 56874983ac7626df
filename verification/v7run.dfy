/** Runs of system calls, and what every one of them conserves, said about the disk alone. */
module V7Run {
  import opened V7Layout
  import opened V7BlockMap
  import opened V7Content
  import V7Dir
  import FL = V7FreeList
  import V7Io
  import V7Calls
  import L = V7Links

  /** The block at place z according to the inodes on disk. */
  ghost function Reached(disk: seq<Block>, isize: nat, z: Place): nat
  {
    if 2 <= isize && 1 <= z.n <= (isize - 2) * INOPB && HasBlocks(DiskInode(disk, z.n))
       && z.s < NADDR && ValidPath(Height(z.s), z.p)
    then Walk(disk, DiskInode(disk, z.n).addr[z.s], z.p)
    else 0
  }

  /** The chain from the superblock and the inodes on disk share out the data area: every block is in
      the free list, once, or at one place of one file, never both and never neither. */
  ghost predicate SharedOut(disk: seq<Block>, isize: nat, fsize: nat, L: seq<nat>)
  {
    && SUPERB < |disk| && disk[SUPERB].Super?
    && FL.Holds(disk, disk[SUPERB].sb.nfree, disk[SUPERB].sb.free, L)
    && FL.Distinct(L) && disk[SUPERB].sb.tfree == |L|
    && (forall x :: x in L ==> isize <= x < fsize)
    && (forall z :: Reached(disk, isize, z) != 0 ==> isize <= Reached(disk, isize, z) < fsize && Reached(disk, isize, z) !in L)
    && (forall x :: isize <= x < fsize && x !in L ==> exists z :: Reached(disk, isize, z) == x)
    && (forall y, z :: Reached(disk, isize, y) == Reached(disk, isize, z) != 0 ==> y == z)
  }

  lemma Conservation(io: V7Io.V7Io)
    requires io.Valid()
    ensures SharedOut(io.disk, io.isize, io.fsize, io.free)
  {
    forall z ensures Reached(io.disk, io.isize, z) == At(io.disk, io.tab, z) {
    }
    forall x | io.isize <= x < io.fsize && x !in io.free ensures exists z :: Reached(io.disk, io.isize, z) == x {
      assert Reached(io.disk, io.isize, io.own[x]) == x;
    }
  }

  datatype Call =
    | Create(path: V7Calls.Path)
    | Mkdir(path: V7Calls.Path)
    | Mknod(path: V7Calls.Path, kind: Kind, dev: nat)
    | Put(n: nat, off: nat, data: seq<byte>)
    | Link(src: V7Calls.Path, dst: V7Calls.Path)
    | Unlink(path: V7Calls.Path)
    | Rmdir(path: V7Calls.Path)

  function MadeKind(kind: Kind): Kind { if kind == Unused then Regular else kind }

  /** What a call makes of a volume: for each call and volume it says whether the call succeeds. */
  ghost predicate Does(v: Vol, w: Vol, c: Call)
  {
    match c
    case Create(path) => exists n, q :: V7Calls.OpenDoes(v, w, path, n, q)
    case Mkdir(path) => exists n, q :: V7Calls.MakNodeDoes(v, w, path, Directory, 0, n, q)
    case Mknod(path, kind, dev) => exists n, q :: V7Calls.MakNodeDoes(v, w, path, MadeKind(kind), dev, n, q)
    case Put(n, off, data) =>
      if 1 <= n < |v.tab| && v.tab[n].kind == Regular then exists count :: V7Calls.WriteDoes(v, w, n, off, data, count)
      else w == v
    case Link(src, dst) => exists ok :: V7Calls.LinkDoes(v, w, src, dst, ok)
    case Unlink(path) => exists ok :: V7Calls.UnlinkDoes(v, w, path, ok)
    case Rmdir(path) => exists ok :: V7Calls.RmdirDoes(v, w, path, ok)
  }

  /** One system call. A write goes through a handle on a regular file. */
  method Step(io: V7Io.V7Io, c: Call)
    requires V7Calls.Consistent(io)
    modifies io`disk, io`sblock, io`b, io`blknos, io`free, io`own, io`tab, io`ino, io`inum, io`ibuf, io`offset
    ensures V7Calls.Consistent(io) && |io.tab| == |old(io.tab)| && Does(old(io.Now()), io.Now(), c)
  {
    hide V7Calls.Consistent, V7Calls.OpenDoes, V7Calls.MakNodeDoes, V7Calls.WriteDoes, V7Calls.LinkDoes, V7Calls.UnlinkDoes, V7Calls.RmdirDoes;
    match c
    case Create(path) =>
      var n, q := V7Calls.OpenWrite(io, path);
    case Mkdir(path) =>
      var n, q := V7Calls.MakNode(io, path, Directory, 0);
    case Mknod(path, kind, dev) =>
      var n, q := V7Calls.MakNode(io, path, MadeKind(kind), dev);
    case Put(n, off, data) =>
      if 1 <= n {
        var regular := OnRegular(io, n);
        if regular {
          var _ := V7Calls.Write(io, n, off, data);
        }
      }
    case Link(src, dst) =>
      var ok := V7Calls.Link(io, src, dst);
    case Unlink(path) =>
      var ok := V7Calls.Unlink(io, path);
    case Rmdir(path) =>
      var ok := V7Calls.Rmdir(io, path);
  }

  /** Is n an inode a write handle can be on? */
  method OnRegular(io: V7Io.V7Io, n: nat) returns (yes: bool)
    requires V7Calls.Consistent(io) && 1 <= n
    ensures yes <==> n < |io.tab| && io.tab[n].kind == Regular
  {
    yes := false;
    if n <= (io.isize - 2) * INOPB {
      InodesFrame(io.disk, io.disk, io.isize, n);
      yes := DiskInode(io.disk, n).kind == Regular;
    }
  }

  /** The volumes of a run, before the first call and after each. */
  ghost predicate Trace(vs: seq<Vol>, calls: seq<Call>)
  {
    && |vs| == |calls| + 1 && (forall i :: 0 <= i < |vs| ==> V7Calls.DirsOk(vs[i]))
    && forall i :: 0 <= i < |calls| ==> Does(vs[i], vs[i + 1], calls[i])
  }

  lemma ConsistentDirs(io: V7Io.V7Io)
    requires V7Calls.Consistent(io)
    ensures V7Calls.DirsOk(io.Now())
  {
  }

  /** However long the run and whichever of its calls fail: no block leaked, shared or freed twice, and
      every directory sound; and every call does what it does. */
  method Run(io: V7Io.V7Io, calls: seq<Call>) returns (ghost vs: seq<Vol>)
    requires V7Calls.Consistent(io)
    modifies io`disk, io`sblock, io`b, io`blknos, io`free, io`own, io`tab, io`ino, io`inum, io`ibuf, io`offset
    ensures V7Calls.Consistent(io)
    ensures SharedOut(io.disk, io.isize, io.fsize, io.free)
    ensures Trace(vs, calls) && vs[0] == old(io.Now()) && vs[|calls|] == io.Now()
  {
    hide SharedOut, Does, V7Calls.Consistent, V7Calls.DirsOk;
    vs := [io.Now()];
    ConsistentDirs(io);
    assert calls[..0] == [];
    for i := 0 to |calls|
      invariant V7Calls.Consistent(io)
      invariant Trace(vs, calls[..i]) && vs[0] == old(io.Now()) && vs[i] == io.Now()
    {
      Step(io, calls[i]);
      ConsistentDirs(io);
      Longer(vs, calls[..i], io.Now(), calls[i]);
      assert calls[..i + 1] == calls[..i] + [calls[i]];
      vs := vs + [io.Now()];
    }
    assert calls[..|calls|] == calls;
    Conserved(io);
  }

  lemma Conserved(io: V7Io.V7Io)
    requires V7Calls.Consistent(io)
    ensures SharedOut(io.disk, io.isize, io.fsize, io.free)
  {
    hide SharedOut, V7Calls.DirsOk;
    Conservation(io);
  }

  lemma Longer(vs: seq<Vol>, calls: seq<Call>, w: Vol, c: Call)
    requires Trace(vs, calls) && V7Calls.DirsOk(w) && Does(vs[|calls|], w, c)
    ensures Trace(vs + [w], calls + [c])
  {
    hide Does, V7Calls.DirsOk;
  }

  // ---------- the tree over a run ----------

  /** The calls that lose the tree, seen before the call: those that succeed, or get far enough, to raise a
      link count of 32767. */
  ghost predicate Breaks(v: Vol, c: Call)
  {
    match c
    case Mkdir(path) => L.MakeBreaks(v, path, Directory)
    case Mknod(path, kind, _) => L.MakeBreaks(v, path, MadeKind(kind))
    case Link(src, dst) => L.LinkBreaks(v, src, dst)
    case _ => false
  }

  lemma TreeStep(v: Vol, w: Vol, c: Call)
    requires V7Calls.DirsOk(v) && V7Calls.DirsOk(w) && L.Tree(v) && Does(v, w, c)
    ensures L.Tree(w) <==> !Breaks(v, c)
  {
    hide L.Tree, V7Calls.DirsOk, V7Calls.OpenDoes, V7Calls.MakNodeDoes, V7Calls.LinkDoes, V7Calls.UnlinkDoes, V7Calls.RmdirDoes;
    hide L.MakeBreaks, L.LinkBreaks, V7Calls.SameTree, Written;
    match c
    case Create(path) =>
      var n, q :| V7Calls.OpenDoes(v, w, path, n, q);
      L.AfterOpen(v, w, path, n, q);
    case Mkdir(path) =>
      var n, q :| V7Calls.MakNodeDoes(v, w, path, Directory, 0, n, q);
      L.AfterMake(v, w, path, Directory, 0, n, q);
    case Mknod(path, kind, dev) =>
      var n, q :| V7Calls.MakNodeDoes(v, w, path, MadeKind(kind), dev, n, q);
      L.AfterMake(v, w, path, MadeKind(kind), dev, n, q);
    case Put(n, off, data) =>
      if w != v {
        L.NothingRenamed(v, w);
      }
    case Link(src, dst) =>
      var ok :| V7Calls.LinkDoes(v, w, src, dst, ok);
      L.AfterLink(v, w, src, dst, ok);
    case Unlink(path) =>
      var ok :| V7Calls.UnlinkDoes(v, w, path, ok);
      L.AfterUnlink(v, w, path, ok);
    case Rmdir(path) =>
      var ok :| V7Calls.RmdirDoes(v, w, path, ok);
      L.AfterRmdir(v, w, path, ok);
  }

  /** In every run from a tree, the volumes are trees up to the first call that breaks it, and not after that
      call. */
  lemma {:induction false} RunInTree(vs: seq<Vol>, calls: seq<Call>, k: nat)
    requires Trace(vs, calls) && L.Tree(vs[0]) && k <= |calls|
    requires forall i :: 0 <= i < k ==> !Breaks(vs[i], calls[i])
    ensures forall i :: 0 <= i <= k ==> L.Tree(vs[i])
    ensures k < |calls| ==> (L.Tree(vs[k + 1]) <==> !Breaks(vs[k], calls[k]))
    decreases k
  {
    hide L.Tree, Breaks, Does, V7Calls.DirsOk;
    if k > 0 {
      RunInTree(vs, calls, k - 1);
    }
    if k < |calls| {
      TreeStep(vs[k], vs[k + 1], calls[k]);
    }
  }

  /** A volume to start from. */
  method NewVolume(nblocks: int) returns (io: V7Io.V7Io?)
    ensures io == null <==> !(V7Calls.MINBLOCKS <= nblocks <= V7Calls.MAXBLOCKS)
    ensures io != null ==> fresh(io) && V7Calls.Consistent(io) && L.Tree(io.Now())
  {
    io := V7Calls.MakeFs(nblocks);
    if io != null {
      ConsistentDirs(io);
      L.FreshTree(io.Now(), io.isize);
    }
  }
}
