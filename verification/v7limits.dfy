/** Two runs that lose something: a link count that wraps around, and a mkdir that runs out of space. */
module V7Limits {
  import opened V7Layout
  import opened V7BlockMap
  import opened V7Content
  import opened V7Room
  import opened V7Calls
  import V7Dir
  import V7Io
  import V7Run
  import L = V7Links

  // ---------- names ----------

  /** As many names of three bytes as are needed, all different. */
  const TOTAL: nat := 32768

  function NameOf(j: nat): (s: seq<byte>)
    requires j < TOTAL
    ensures |s| == 3
  {
    [110, 1 + j / 200, 1 + j % 200]
  }

  lemma NameKey(j: nat)
    requires j < TOTAL
    ensures V7Dir.Key(NameOf(j)) == NameOf(j) && L.Ordinary(NameOf(j))
  {
    var s := NameOf(j);
    assert s[1..][1..][1..] == [];
    assert V7Dir.KeyUpTo(s[1..][1..], V7Dir.DIRSIZ - 2) == [s[2]];
    assert V7Dir.KeyUpTo(s[1..], V7Dir.DIRSIZ - 1) == [s[1]] + [s[2]];
    assert V7Dir.Key(s) == s;
  }

  lemma NamesDiffer(i: nat, j: nat)
    requires i < TOTAL && j < TOTAL && NameOf(i) == NameOf(j)
    ensures i == j
  {
    assert NameOf(i)[1] == NameOf(j)[1] && NameOf(i)[2] == NameOf(j)[2];
  }

  /** y is one of the names from lo up to hi. */
  ghost predicate Between(y: seq<byte>, lo: nat, hi: nat)
  {
    exists j: nat :: lo <= j < hi && j < TOTAL && V7Dir.Key(y) == NameOf(j)
  }

  /** The root has file t under exactly the names from lo up to hi, and no other name there or anywhere means
      it. */
  ghost predicate Under(v: Vol, t: nat, lo: nat, hi: nat)
  {
    && ROOTINO < t < |v.tab| && v.tab[ROOTINO].kind == Directory && v.tab[t].kind == Regular
    && (forall j: nat :: j < TOTAL ==> LookIn(v, ROOTINO, NameOf(j)) == if lo <= j < hi then t else 0)
    && forall m: nat, y :: LookIn(v, m, y) == t ==> m == ROOTINO && Between(y, lo, hi)
  }

  /** The names of the root stand one behind the other. */
  ghost predicate Packed(v: Vol, hi: nat)
  {
    ROOTINO < |v.tab| && NextFree(v, ROOTINO) == v.tab[ROOTINO].size == V7Dir.DIRENT * (2 + hi)
  }

  lemma OnePath(v: Vol, t: nat, lo: nat, hi: nat, j: nat)
    requires Under(v, t, lo, hi) && j < TOTAL
    ensures Enterable(v, [NameOf(j)]) && ParentOf(v, [NameOf(j)]) == ROOTINO && Last([NameOf(j)]) == NameOf(j)
    ensures Target(v, [NameOf(j)]) == if lo <= j < hi then t else 0
    ensures lo <= j < hi ==> Source(v, [NameOf(j)]) == t
    ensures !IsDot(NameOf(j))
  {
    NameKey(j);
    UnderAt(v, t, lo, hi, j);
    hide LookIn, V7Dir.Key, NameOf, IsDot, Under, Between;
    ResolveOne(v, NameOf(j));
  }

  lemma UnderAt(v: Vol, t: nat, lo: nat, hi: nat, j: nat)
    requires Under(v, t, lo, hi) && j < TOTAL
    ensures LookIn(v, ROOTINO, NameOf(j)) == (if lo <= j < hi then t else 0)
    ensures ROOTINO < t < |v.tab| && v.tab[ROOTINO].kind == Directory && v.tab[t].kind == Regular
  {
    hide LookIn, NameOf, Between;
  }

  lemma ResolveOne(v: Vol, name: seq<byte>)
    ensures Resolve(v, ROOTINO, [name]) == LookIn(v, ROOTINO, name)
  {
    hide LookIn;
    assert [name][1..] == [];
  }

  // ---------- the names after one call ----------

  /** What one rebinding says of one name. */
  lemma RebindsAt(v: Vol, w: Vol, p: nat, name: seq<byte>, n: nat, q: nat, m: nat, y: seq<byte>)
    requires Rebinds(v, w, p, name, n, q) && m != q
    ensures LookIn(w, m, y) == if m == p && V7Dir.Key(y) == V7Dir.Key(name) then n else LookIn(v, m, y)
  {
    hide LookIn, V7Dir.Key;
  }

  lemma BetweenIs(y: seq<byte>, lo: nat, hi: nat, j: nat)
    requires lo <= j < hi && j < TOTAL && V7Dir.Key(y) == NameOf(j)
    ensures Between(y, lo, hi)
  {
    hide V7Dir.Key, NameOf;
  }

  lemma Bound(v: Vol, w: Vol, t: nat, hi: nat)
    requires Under(v, t, 0, hi) && hi < TOTAL && |w.tab| == |v.tab| && Rebinds(v, w, ROOTINO, NameOf(hi), t, t)
    requires w.tab[ROOTINO].kind == Directory && w.tab[t].kind == Regular
    ensures Under(w, t, 0, hi + 1)
  {
    hide LookIn, NameOf, V7Dir.Key, L.Ordinary, Rebinds, Between, Under;
    UnderAt(v, t, 0, hi, hi);
    forall j: nat | j < TOTAL ensures LookIn(w, ROOTINO, NameOf(j)) == if 0 <= j < hi + 1 then t else 0 {
      NamesApart(j, hi);
      UnderAt(v, t, 0, hi, j);
      RebindsAt(v, w, ROOTINO, NameOf(hi), t, t, ROOTINO, NameOf(j));
    }
    forall m: nat, y | LookIn(w, m, y) == t ensures m == ROOTINO && Between(y, 0, hi + 1) {
      BoundOnly(v, w, t, hi, m, y);
    }
    UnderIf(w, t, 0, hi + 1);
  }

  lemma BoundOnly(v: Vol, w: Vol, t: nat, hi: nat, m: nat, y: seq<byte>)
    requires Under(v, t, 0, hi) && hi < TOTAL && t < |w.tab| && Rebinds(v, w, ROOTINO, NameOf(hi), t, t)
    requires w.tab[t].kind == Regular && LookIn(w, m, y) == t
    ensures m == ROOTINO && Between(y, 0, hi + 1)
  {
    hide LookIn, NameOf, V7Dir.Key, L.Ordinary, Rebinds, Between, Under;
    UnderAt(v, t, 0, hi, hi);
    NamesApart(hi, hi);
    NotIn(w, t);
    RebindsAt(v, w, ROOTINO, NameOf(hi), t, t, m, y);
    if m == ROOTINO && V7Dir.Key(y) == NameOf(hi) {
      BetweenIs(y, 0, hi + 1, hi);
    } else {
      OnlyUnder(v, t, 0, hi, m, y);
      Wider(y, 0, hi, hi + 1);
    }
  }

  lemma Unbound(v: Vol, w: Vol, t: nat, lo: nat, hi: nat)
    requires Under(v, t, lo, hi) && lo < hi <= TOTAL && |w.tab| == |v.tab| && Rebinds(v, w, ROOTINO, NameOf(lo), 0, t)
    requires w.tab[ROOTINO].kind == Directory && w.tab[t].kind == Regular
    ensures Under(w, t, lo + 1, hi)
  {
    hide LookIn, NameOf, V7Dir.Key, L.Ordinary, Rebinds, Between, Under;
    UnderAt(v, t, lo, hi, lo);
    forall j: nat | j < TOTAL ensures LookIn(w, ROOTINO, NameOf(j)) == if lo + 1 <= j < hi then t else 0 {
      NamesApart(j, lo);
      UnderAt(v, t, lo, hi, j);
      RebindsAt(v, w, ROOTINO, NameOf(lo), 0, t, ROOTINO, NameOf(j));
    }
    forall m: nat, y | LookIn(w, m, y) == t ensures m == ROOTINO && Between(y, lo + 1, hi) {
      NamesApart(lo, lo);
      NotIn(w, t);
      RebindsAt(v, w, ROOTINO, NameOf(lo), 0, t, m, y);
      OnlyUnder(v, t, lo, hi, m, y);
      OneOut(y, lo, hi);
    }
    UnderIf(w, t, lo + 1, hi);
  }

  lemma NamesApart(i: nat, j: nat)
    requires i < TOTAL && j < TOTAL
    ensures V7Dir.Key(NameOf(i)) == NameOf(i) && (NameOf(i) == NameOf(j) <==> i == j)
  {
    NameKey(i);
    hide NameOf, V7Dir.Key, L.Ordinary;
    if NameOf(i) == NameOf(j) { NamesDiffer(i, j); }
  }

  lemma OnlyUnder(v: Vol, t: nat, lo: nat, hi: nat, m: nat, y: seq<byte>)
    requires Under(v, t, lo, hi) && LookIn(v, m, y) == t
    ensures m == ROOTINO && Between(y, lo, hi)
  {
    hide LookIn, Between, NameOf;
  }

  lemma UnderIf(v: Vol, t: nat, lo: nat, hi: nat)
    requires ROOTINO < t < |v.tab| && v.tab[ROOTINO].kind == Directory && v.tab[t].kind == Regular
    requires forall j: nat :: j < TOTAL ==> LookIn(v, ROOTINO, NameOf(j)) == if lo <= j < hi then t else 0
    requires forall m: nat, y :: LookIn(v, m, y) == t ==> m == ROOTINO && Between(y, lo, hi)
    ensures Under(v, t, lo, hi)
  {
    hide LookIn, Between, NameOf;
  }

  lemma Wider(y: seq<byte>, lo: nat, hi: nat, more: nat)
    requires Between(y, lo, hi) && hi <= more
    ensures Between(y, lo, more)
  {
    hide V7Dir.Key, NameOf;
    var j: nat :| lo <= j < hi && j < TOTAL && V7Dir.Key(y) == NameOf(j);
    BetweenIs(y, lo, more, j);
  }

  lemma OneOut(y: seq<byte>, lo: nat, hi: nat)
    requires Between(y, lo, hi) && lo < TOTAL && V7Dir.Key(y) != NameOf(lo)
    ensures Between(y, lo + 1, hi)
  {
    hide V7Dir.Key, NameOf;
    var j: nat :| lo <= j < hi && j < TOTAL && V7Dir.Key(y) == NameOf(j);
    BetweenIs(y, lo + 1, hi, j);
  }

  lemma NotIn(v: Vol, t: nat)
    requires t < |v.tab| && v.tab[t].kind == Regular
    ensures forall y :: LookIn(v, t, y) == 0
  {
  }

  lemma PackedOn(v: Vol, w: Vol, t: nat, hi: nat)
    requires Packed(v, hi) && hi < TOTAL && AddedTo(v, w, ROOTINO, NameOf(hi), t) && 0 < t && ROOTINO < |w.tab|
    ensures Packed(w, hi + 1)
  {
    hide NameOf, Content;
    var c := Content(v.disk, v.tab[ROOTINO]);
    assert |c| == v.tab[ROOTINO].size && |Content(w.disk, w.tab[ROOTINO])| == w.tab[ROOTINO].size by { Lengths(v); Lengths(w); }
    V7Dir.AddedFull(c, NameOf(hi), t);
  }

  lemma Lengths(v: Vol)
    requires ROOTINO < |v.tab|
    ensures |Content(v.disk, v.tab[ROOTINO])| == v.tab[ROOTINO].size
  {
  }

  /** The next name has room if four blocks are free or if it still fits in the first block. */
  lemma HasRoom(v: Vol, hi: nat)
    requires Packed(v, hi) && hi < TOTAL && DirsOk(v) && v.tab[ROOTINO].kind == Directory && |v.tab[ROOTINO].addr| == NADDR
    requires |v.free| >= 4 || hi < 30
    ensures Room(v, ROOTINO) && Cost(v, ROOTINO) <= 4 && (hi < 30 ==> Cost(v, ROOTINO) == 0)
  {
    var bn := NextFree(v, ROOTINO) / BSIZE;
    assert bn < MAXBN;
    NeedBound(v, ROOTINO, bn);
    if hi < 30 {
      assert DirOk(v.disk, v.tab, ROOTINO);
      assert bn == 0 && 0 * BSIZE < v.tab[ROOTINO].size;
      NeedNothing(v, ROOTINO, 0);
    }
  }

  // ---------- a file with many names ----------

  lemma DotsPacked()
    ensures var c := V7Dir.Dirent(ROOTINO, V7Dir.DOT) + V7Dir.Dirent(ROOTINO, V7Dir.DOTDOT);
      V7Dir.FirstDead(c, 0) == 2 == V7Dir.Slots(c)
  {
    var c := V7Dir.Dirent(ROOTINO, V7Dir.DOT) + V7Dir.Dirent(ROOTINO, V7Dir.DOTDOT);
    V7Dir.DirentReads(ROOTINO, V7Dir.DOT);
    V7Dir.DirentReads(ROOTINO, V7Dir.DOTDOT);
    assert V7Dir.Slot(c, 0) == V7Dir.Dirent(ROOTINO, V7Dir.DOT) && V7Dir.Slot(c, 1) == V7Dir.Dirent(ROOTINO, V7Dir.DOTDOT);
    assert V7Dir.InoAt(c, 0) == ROOTINO && V7Dir.InoAt(c, 1) == ROOTINO;
  }

  /** A volume with nothing in it but the root. */
  ghost predicate Bare(v: Vol)
  {
    && ROOTINO < |v.tab| && v.tab[ROOTINO].kind == Directory && Packed(v, 0) && L.Tree(v)
    && (forall m: nat, y :: (LookIn(v, m, y) == 0 || LookIn(v, m, y) == ROOTINO) && (L.Ordinary(y) ==> LookIn(v, m, y) == 0))
    && forall m :: 0 <= m < |v.tab| && m != ROOTINO ==> v.tab[m].kind != Directory && (ROOTINO < m ==> v.tab[m].kind == Unused)
  }

  method BareVolume(isize: nat, fsize: nat) returns (io: Io)
    requires ROOTINO < isize < fsize && (isize - 2) * INOPB <= MAXINO
    ensures fresh(io) && Consistent(io) && Bare(io.Now()) && io.isize == isize && io.fsize == fsize
    ensures |io.free| == fsize - isize - 1 && io.tab[ROOTINO].nlink == 2 && |io.tab| == (isize - 2) * INOPB + 1
  {
    io := MakeVolume(isize, fsize);
    V7Run.ConsistentDirs(io);
    IsBare(io.Now(), isize);
  }

  lemma IsBare(v: Vol, isize: nat)
    requires DirsOk(v) && ROOTINO < isize && ROOTINO < |v.tab| && v.tab == BlankInodes(isize)[ROOTINO := v.tab[ROOTINO]]
    requires v.tab[ROOTINO].nlink == 2 && v.tab[ROOTINO].size == 2 * V7Dir.DIRENT && FreshDir(v, ROOTINO, ROOTINO)
    requires Content(v.disk, v.tab[ROOTINO]) == V7Dir.Dirent(ROOTINO, V7Dir.DOT) + V7Dir.Dirent(ROOTINO, V7Dir.DOTDOT)
    ensures Bare(v)
  {
    hide LookIn, L.Tree, L.Ordinary, DirsOk, V7Dir.FirstDead, V7Dir.Dirent, V7Dir.Key, Content, L.RootAlone, FreshDir;
    L.FreshTree(v, isize);
    L.FreshAlone(v, isize);
    DotsPacked();
    AloneNames(v, ROOTINO, V7Dir.DOT);
    forall m: nat, y ensures (LookIn(v, m, y) == 0 || LookIn(v, m, y) == ROOTINO) && (L.Ordinary(y) ==> LookIn(v, m, y) == 0) {
      AloneNames(v, m, y);
    }
  }

  lemma AloneNames(v: Vol, m: nat, y: seq<byte>)
    requires L.RootAlone(v) && ROOTINO < |v.tab| && FreshDir(v, ROOTINO, ROOTINO)
    ensures (LookIn(v, m, y) == 0 || LookIn(v, m, y) == ROOTINO) && (L.Ordinary(y) ==> LookIn(v, m, y) == 0)
    ensures v.tab[ROOTINO].kind == Directory && forall e :: 0 <= e < |v.tab| && e != ROOTINO ==> v.tab[e].kind != Directory
  {
    hide LookIn, V7Dir.Key, L.Ordinary;
  }

  lemma BareNames(v: Vol, m: nat, y: seq<byte>)
    requires Bare(v)
    ensures LookIn(v, m, y) == 0 || LookIn(v, m, y) == ROOTINO
    ensures L.Ordinary(y) ==> LookIn(v, m, y) == 0
  {
    hide LookIn, L.Tree, Packed, L.Ordinary;
  }

  lemma FirstBound(v: Vol, w: Vol, t: nat)
    requires Bare(v) && ROOTINO < t < |v.tab| == |w.tab| && Rebinds(v, w, ROOTINO, NameOf(0), t, t)
    requires w.tab[ROOTINO].kind == Directory && w.tab[t].kind == Regular
    ensures Under(w, t, 0, 1)
  {
    hide LookIn, Bare, Rebinds, Between, NameOf, V7Dir.Key, L.Ordinary;
    forall j: nat | j < TOTAL ensures LookIn(w, ROOTINO, NameOf(j)) == if 0 <= j < 1 then t else 0 {
      NameKey(j);
      NamesApart(0, j);
      BareNames(v, ROOTINO, NameOf(j));
      RebindsAt(v, w, ROOTINO, NameOf(0), t, t, ROOTINO, NameOf(j));
    }
    forall m: nat, y | LookIn(w, m, y) == t ensures m == ROOTINO && Between(y, 0, 1) {
      BareNames(v, m, y);
      NameKey(0);
      NotIn(w, t);
      RebindsAt(v, w, ROOTINO, NameOf(0), t, t, m, y);
      BetweenIs(y, 0, 1, 0);
    }
  }

  lemma Numbers()
    ensures 1 < ROOTINO && 30 < MAXLINK < TOTAL == MAXLINK + 1
  {
  }

  /** The first file. */
  method FirstFile(io: Io) returns (t: nat)
    requires Consistent(io) && Bare(io.Now()) && |io.tab| > ROOTINO + 1
    modifies io`disk, io`sblock, io`b, io`blknos, io`free, io`own, io`tab, io`ino, io`inum, io`ibuf, io`offset
    ensures Consistent(io) && L.Tree(io.Now()) && Grown(old(io.Now()), io.Now(), t, 1)
  {
    ghost var v := io.Now();
    Shape(io);
    V7Run.ConsistentDirs(io);
    HasRoom(v, 0);
    BareFirst(v);
    hide *;
    ghost var q;
    t, q := OpenWrite(io, [NameOf(0)]);
    V7Run.ConsistentDirs(io);
    FirstMade(v, io.Now(), t, q);
  }

  lemma Shape(io: Io)
    requires Consistent(io)
    ensures forall m :: 0 <= m < |io.tab| ==> |io.tab[m].addr| == NADDR
    ensures ROOTINO < |io.tab| <= MAXINO + 1
  {
  }

  lemma BareFirst(v: Vol)
    requires Bare(v) && |v.tab| > ROOTINO + 1
    ensures Enterable(v, [NameOf(0)]) && ParentOf(v, [NameOf(0)]) == ROOTINO && Last([NameOf(0)]) == NameOf(0)
    ensures Target(v, [NameOf(0)]) == 0 && HasUnused(v)
  {
    NameKey(0);
    hide LookIn, V7Dir.Key, NameOf, L.Tree, Packed;
    assert v.tab[ROOTINO + 1].kind == Unused;
  }

  lemma FirstMade(v: Vol, w: Vol, t: nat, q: nat)
    requires DirsOk(v) && DirsOk(w) && Bare(v) && OpenDoes(v, w, [NameOf(0)], t, q)
    requires Enterable(v, [NameOf(0)]) && ParentOf(v, [NameOf(0)]) == ROOTINO && Last([NameOf(0)]) == NameOf(0)
    requires Target(v, [NameOf(0)]) == 0 && HasUnused(v) && Room(v, ROOTINO) && Cost(v, ROOTINO) == 0
    ensures L.Tree(w) && Grown(v, w, t, 1)
  {
    L.AfterOpen(v, w, [NameOf(0)], t, q);
    L.BornParent(v, w, ROOTINO, NameOf(0), Regular, 0, t, q);
    BornKind(v, w, ROOTINO, q, Regular, 0);
    L.KindsLeft(v, w, ROOTINO, q);
    hide LookIn, NameOf, V7Dir.Key, L.Tree, Left, Rebinds, Cost, NextFree, Bare, Born, DirsOk, Enterable, Target;
    FirstBound(v, w, t);
    BarePacked(v);
    PackedOn(v, w, t, 0);
  }

  lemma BarePacked(v: Vol)
    requires Bare(v)
    ensures Packed(v, 0) && L.Tree(v)
  {
  }

  /** From v to w the file got more names, up to hi; nothing else changed but free blocks. */
  ghost predicate Grown(v: Vol, w: Vol, t: nat, hi: nat)
  {
    && ROOTINO < t < |w.tab| == |v.tab| && Under(w, t, 0, hi) && Packed(w, hi) && w.tab[t].nlink == hi
    && w.tab[ROOTINO].nlink == v.tab[ROOTINO].nlink
    && (forall m :: 0 <= m < |w.tab| && m != ROOTINO && m != t ==> w.tab[m] == v.tab[m])
    && |w.free| >= |v.free| - 4 * hi && (hi <= 30 ==> |w.free| == |v.free|)
  }

  /** The next name for the file. */
  method LinkNext(io: Io, t: nat, hi: nat)
    requires Consistent(io) && Under(io.Now(), t, 0, hi) && Packed(io.Now(), hi) && 1 <= hi < TOTAL
    requires |io.free| >= 4 || hi < 30
    modifies io`disk, io`sblock, io`b, io`blknos, io`free, io`own, io`tab, io`ino, io`inum, io`ibuf, io`offset
    ensures Consistent(io) && Named(old(io.Now()), io.Now(), t, hi)
  {
    ghost var v := io.Now();
    Shape(io);
    V7Run.ConsistentDirs(io);
    UnderAt(v, t, 0, hi, 0);
    HasRoom(v, hi);
    hide *;
    CanLink(v, t, hi);
    var ok := Link(io, [NameOf(0)], [NameOf(hi)]);
    NameLinked(v, io.Now(), t, hi, ok);
  }

  /** What one more name does. */
  ghost predicate Named(v: Vol, w: Vol, t: nat, hi: nat)
    requires hi < TOTAL
  {
    && LinkOk(v, [NameOf(0)], [NameOf(hi)]) && LinkDoes(v, w, [NameOf(0)], [NameOf(hi)], true)
    && Under(w, t, 0, hi + 1) && Packed(w, hi + 1)
    && ROOTINO < t < |w.tab| == |v.tab| && w.tab[t] == v.tab[t].(nlink := Raised(v.tab[t].nlink))
    && w.tab[ROOTINO].nlink == v.tab[ROOTINO].nlink
    && (forall m :: 0 <= m < |w.tab| && m != ROOTINO && m != t ==> w.tab[m] == v.tab[m])
    && |w.free| >= |v.free| - 4 && (hi < 30 ==> |w.free| == |v.free|)
  }

  lemma CanLink(v: Vol, t: nat, hi: nat)
    requires Under(v, t, 0, hi) && 1 <= hi < TOTAL && Room(v, ROOTINO)
    ensures LinkOk(v, [NameOf(0)], [NameOf(hi)]) && Source(v, [NameOf(0)]) == t
    ensures ParentOf(v, [NameOf(hi)]) == ROOTINO && Last([NameOf(hi)]) == NameOf(hi)
  {
    UnderAt(v, t, 0, hi, 0);
    OnePath(v, t, 0, hi, 0);
    OnePath(v, t, 0, hi, hi);
    hide LookIn, NameOf, V7Dir.Key, Resolve, ParentOf, Room, Enterable, Target, Source, Under;
  }

  lemma NameLinked(v: Vol, w: Vol, t: nat, hi: nat, ok: bool)
    requires Under(v, t, 0, hi) && Packed(v, hi) && 1 <= hi < TOTAL && Room(v, ROOTINO) && Cost(v, ROOTINO) <= 4
    requires hi < 30 ==> Cost(v, ROOTINO) == 0
    requires LinkDoes(v, w, [NameOf(0)], [NameOf(hi)], ok) && |w.tab| == |v.tab|
    ensures ok && Named(v, w, t, hi)
  {
    CanLink(v, t, hi);
    UnderAt(v, t, 0, hi, 0);
    hide LookIn, NameOf, V7Dir.Key, ParentOf, Room, Under, Packed, LinkOk, Source, Rebinds, Left, AddedTo, Cost;
    L.KindsLeft(v, w, ROOTINO, t);
    Bound(v, w, t, hi);
    PackedOn(v, w, t, hi);
  }

  lemma GrownMore(u: Vol, v: Vol, w: Vol, t: nat, hi: nat)
    requires Grown(u, v, t, hi) && 1 <= hi < MAXLINK && Named(v, w, t, hi)
    ensures Grown(u, w, t, hi + 1)
  {
    hide Under, Packed, LinkOk, LinkDoes, NameOf;
  }

  /** More names for the file, up to the greatest link count: the tree stays one. */
  method LinkNames(io: Io, t: nat, to: nat, ghost u: Vol)
    requires Consistent(io) && L.Tree(io.Now()) && Grown(u, io.Now(), t, 1)
    requires 1 <= to <= MAXLINK && (|u.free| >= 4 * to + 4 || to <= 30)
    modifies io`disk, io`sblock, io`b, io`blknos, io`free, io`own, io`tab, io`ino, io`inum, io`ibuf, io`offset
    ensures Consistent(io) && L.Tree(io.Now()) && Grown(u, io.Now(), t, to)
  {
    hide Consistent, L.Tree, Under, Packed, Grown, Named, NameOf, DirsOk;
    for hi := 1 to to
      invariant Consistent(io) && L.Tree(io.Now()) && Grown(u, io.Now(), t, hi)
    {
      ghost var v := io.Now();
      V7Run.ConsistentDirs(io);
      GrownIs(u, v, t, hi);
      LinkNext(io, t, hi);
      V7Run.ConsistentDirs(io);
      TreeAfterName(v, io.Now(), t, hi);
      GrownMore(u, v, io.Now(), t, hi);
    }
  }

  lemma GrownIs(u: Vol, v: Vol, t: nat, hi: nat)
    requires Grown(u, v, t, hi)
    ensures Under(v, t, 0, hi) && Packed(v, hi) && ROOTINO < t < |v.tab| && v.tab[t].nlink == hi && |v.free| >= |u.free| - 4 * hi
  {
    hide Under, Packed;
  }

  lemma TreeAfterName(v: Vol, w: Vol, t: nat, hi: nat)
    requires DirsOk(v) && DirsOk(w) && L.Tree(v) && Under(v, t, 0, hi) && 1 <= hi < TOTAL && Named(v, w, t, hi)
    ensures t < |v.tab| && (L.Tree(w) <==> v.tab[t].nlink != MAXLINK)
  {
    OnePath(v, t, 0, hi, 0);
    UnderAt(v, t, 0, hi, 0);
    hide L.Tree, DirsOk, LinkDoes, Under, NameOf, LinkOk, Packed;
    L.AfterLink(v, w, [NameOf(0)], [NameOf(hi)], true);
    hide Source;
    assert L.LinkBreaks(v, [NameOf(0)], [NameOf(hi)]) <==> v.tab[t].nlink == MAXLINK;
  }

  /** From a fresh file system of the greatest size: a file with 32767 names and as many links, all in order,
      and room for another name. */
  method ManyLinks() returns (io: Io, t: nat)
    ensures fresh(io) && Consistent(io) && L.Tree(io.Now()) && |io.free| >= 4
    ensures Under(io.Now(), t, 0, MAXLINK) && Packed(io.Now(), MAXLINK) && ROOTINO < t < |io.tab| && io.tab[t].nlink == MAXLINK
  {
    hide Consistent, L.Tree, Under, Packed, Bare, Grown;
    io := BareVolume(MAXISIZE, MAXBLOCKS);
    ghost var u := io.Now();
    t := FirstFile(io);
    LinkNames(io, t, MAXLINK, u);
    GrownIs(u, io.Now(), t, MAXLINK);
  }

  /** One more link succeeds and the tree is lost: 32768 names, and a link count below zero. */
  method TreeLost() returns (io: Io, t: nat)
    ensures fresh(io) && Consistent(io) && !L.Tree(io.Now())
    ensures Under(io.Now(), t, 0, TOTAL) && ROOTINO < t < |io.tab| && io.tab[t].nlink == -32768
  {
    hide Consistent, L.Tree, Under, Packed, LinkOk, LinkDoes, NameOf, DirsOk;
    io, t := ManyLinks();
    ghost var v := io.Now();
    V7Run.ConsistentDirs(io);
    LinkNext(io, t, MAXLINK);
    V7Run.ConsistentDirs(io);
    TreeAfterName(v, io.Now(), t, MAXLINK);
  }

  /** Unlinking all its names then does not free the file: it stays in use, and no name leads to it. */
  method NeverFreed() returns (io: Io, t: nat)
    ensures fresh(io) && Consistent(io) && ROOTINO < t < |io.tab| && io.tab[t].kind == Regular
    ensures forall m: nat, y :: LookIn(io.Now(), m, y) != t
  {
    hide Consistent, Under, LookIn;
    io, t := TreeLost();
    for lo := 0 to TOTAL
      invariant fresh(io) && Consistent(io) && ROOTINO < t < |io.tab| && io.tab[t].nlink == -32768
      invariant Under(io.Now(), t, lo, TOTAL)
    {
      UnlinkName(io, t, lo);
    }
    NoneLeft(io.Now(), t);
  }

  lemma NoneLeft(v: Vol, t: nat)
    requires Under(v, t, TOTAL, TOTAL)
    ensures t < |v.tab| && v.tab[t].kind == Regular && forall m: nat, y :: LookIn(v, m, y) != t
  {
    hide LookIn, NameOf;
  }

  method UnlinkName(io: Io, t: nat, lo: nat)
    requires Consistent(io) && Under(io.Now(), t, lo, TOTAL) && lo < TOTAL && ROOTINO < t < |io.tab| && io.tab[t].nlink == -32768
    modifies io`disk, io`sblock, io`b, io`blknos, io`free, io`own, io`tab, io`ino, io`inum, io`ibuf, io`offset
    ensures Consistent(io) && |io.tab| == |old(io.tab)| && Under(io.Now(), t, lo + 1, TOTAL) && io.tab[t].nlink == -32768
  {
    ghost var v := io.Now();
    hide *;
    var ok := Unlink(io, [NameOf(lo)]);
    NameGone(v, io.Now(), t, lo, ok);
  }

  lemma NameGone(v: Vol, w: Vol, t: nat, lo: nat, ok: bool)
    requires Under(v, t, lo, TOTAL) && lo < TOTAL && ROOTINO < t < |v.tab| == |w.tab| && v.tab[t].nlink == -32768
    requires UnlinkDoes(v, w, [NameOf(lo)], ok)
    ensures ok && Under(w, t, lo + 1, TOTAL) && w.tab[t].nlink == -32768
  {
    OnePath(v, t, lo, TOTAL, lo);
    UnderAt(v, t, lo, TOTAL, lo);
    hide LookIn, NameOf, V7Dir.Key, ParentOf, Under, Rebinds, Left, IsDot, Enterable, Target;
    Unbound(v, w, t, lo, TOTAL);
  }

  // ---------- a mkdir without room ----------

  /** Two blocks of data: the root has one, with thirty names in it the first block of the root is full, and a
      mkdir takes the other for its dot entries. */
  method HalfMade() returns (io: Io, ghost q: nat)
    ensures fresh(io) && Consistent(io) && L.Tree(io.Now()) && io.tab[ROOTINO].nlink == 3 && L.Subs(io.Now(), ROOTINO) == {}
    ensures ROOTINO < q < |io.tab| && io.tab[q].kind == Directory && io.tab[q].size != 0 && L.NamesOf(io.Now(), q) == {}
  {
    hide Consistent, L.Tree, Under, Packed, Bare, MakNodeDoes, L.Subs, L.NamesOf, DirsOk, NextFree, Cost, NameOf;
    io := BareVolume(8, 10);
    ghost var start := io.Now();
    BareUnused(start);
    var t := FirstFile(io);
    LinkNames(io, t, 30, start);
    ghost var v := io.Now();
    assert v.tab[if t == 3 then 4 else 3].kind == Unused;
    assert HasUnused(v);
    UnderAt(v, t, 0, 30, 0);
    NoSecondBlock(io);
    V7Run.ConsistentDirs(io);
    var n;
    n, q := MakNode(io, [NameOf(30)], Directory, 0);
    V7Run.ConsistentDirs(io);
    HalfDone(v, io.Now(), t, n, q);
  }

  lemma BareUnused(v: Vol)
    requires Bare(v)
    ensures forall m :: 0 <= m < |v.tab| && m != ROOTINO ==> v.tab[m].kind != Directory && (ROOTINO < m ==> v.tab[m].kind == Unused)
  {
  }

  /** With one block of two in use and the other free, the root has no second block. */
  lemma NoSecondBlock(io: Io)
    requires Consistent(io) && io.isize == 8 && io.fsize == 10 && |io.free| == 1 && Packed(io.Now(), 30)
    requires io.tab[ROOTINO].kind == Directory
    ensures NextFree(io.Now(), ROOTINO) / BSIZE == 1 && Cost(io.Now(), ROOTINO) >= 1
  {
    hide Consistent, Packed, BlockOf, Need, Cost, NextFree, Owned, HasBlocks;
    var v := io.Now();
    Shape(io);
    FullBlock(v);
    RootBlock(io);
    var x, y := BlockOf(v.disk, v.tab[ROOTINO].addr, 0), BlockOf(v.disk, v.tab[ROOTINO].addr, 1);
    Addressed();
    NeedNothing(v, ROOTINO, 1);
    assert v.free[0] in v.free;
    if y != 0 {
      InData(io, 0);
      InData(io, 1);
      DataOwned(io);
      if x == y {
        NoSharing(v, ROOTINO, 0, ROOTINO, 1);
      }
    }
  }

  lemma Addressed()
    ensures 1 < MAXBN
  {
  }

  lemma FullBlock(v: Vol)
    requires Packed(v, 30) && v.tab[ROOTINO].kind == Directory && |v.tab[ROOTINO].addr| == NADDR
    ensures NextFree(v, ROOTINO) / BSIZE == 1 && Cost(v, ROOTINO) == Need(v, ROOTINO, 1) && HasBlocks(v.tab[ROOTINO])
  {
    hide Need, Content;
  }

  lemma RootBlock(io: Io)
    requires Consistent(io) && Packed(io.Now(), 30) && io.tab[ROOTINO].kind == Directory
    ensures BlockOf(io.disk, io.tab[ROOTINO].addr, 0) != 0
  {
    var v := io.Now();
    assert DirOk(v.disk, v.tab, ROOTINO);
    hide BlockOf, Content, V7Dir.Sound;
    assert 0 * BSIZE < v.tab[ROOTINO].size;
  }

  lemma DataOwned(io: Io)
    requires Consistent(io)
    ensures Owned(io.disk, io.tab, io.own) && forall x :: x in io.free ==> io.isize <= x < io.fsize
  {
  }

  lemma InData(io: Io, bn: nat)
    requires Consistent(io) && bn < MAXBN && io.tab[ROOTINO].kind == Directory && BlockOf(io.disk, io.tab[ROOTINO].addr, bn) != 0
    ensures var x := BlockOf(io.disk, io.tab[ROOTINO].addr, bn); io.isize <= x < io.fsize && x !in io.free
  {
    BlockAt(io.Now(), ROOTINO, bn);
  }

  lemma HalfDone(v: Vol, w: Vol, t: nat, n: nat, q: nat)
    requires DirsOk(v) && DirsOk(w) && L.Tree(v) && Under(v, t, 0, 30) && |v.free| == 1 && HasUnused(v)
    requires NextFree(v, ROOTINO) / BSIZE == 1 && Cost(v, ROOTINO) >= 1 && v.tab[ROOTINO].nlink == 2
    requires forall m :: 0 <= m < |v.tab| && m != ROOTINO ==> v.tab[m].kind != Directory
    requires MakNodeDoes(v, w, [NameOf(30)], Directory, 0, n, q)
    ensures L.Tree(w) && |w.tab| == |v.tab| && ROOTINO < q < |w.tab| && w.tab[ROOTINO].nlink == 3
    ensures w.tab[q].kind == Directory && w.tab[q].size != 0 && L.NamesOf(w, q) == {} && L.Subs(w, ROOTINO) == {}
  {
    OnePath(v, t, 0, 30, 30);
    NameKey(30);
    L.RootAnchored(v);
    hide LookIn, NameOf, V7Dir.Key, ParentOf, Under, Rebinds, Left, Enterable, Target, L.Tree, DirsOk, L.NamesOf, Cost, NextFree;
    L.BornParent(v, w, ROOTINO, NameOf(30), Directory, 0, n, q);
    L.Made(v, w, ROOTINO, NameOf(30), Directory, 0, n, q);
    BornBounds(v, w, ROOTINO, q, Directory, 0);
    L.KindsLeft(v, w, ROOTINO, q);
    L.RootUnnamed(w);
  }
}
