/** The chained free list seen as a stack of distinct block numbers. */
module V7FreeList {
  import opened V7Layout

  /** The cached part free[..nfree] and the chain of blocks behind free[0] hold exactly the
      stack L, top last. */
  ghost predicate Holds(disk: seq<Block>, nfree: int, free: seq<nat>, L: seq<nat>)
    decreases |L|
  {
    && 0 <= nfree <= NICFREE
    && |free| == NICFREE
    && if nfree == 0 then L == []
       else if free[0] == 0 then L == free[1..nfree]
       else
         && nfree <= |L|
         && L[|L| - nfree..] == free[..nfree]
         && free[0] < |disk|
         && disk[free[0]].Chain?
         && Holds(disk, disk[free[0]].nfree, disk[free[0]].free, L[..|L| - nfree])
  }

  ghost predicate Distinct(L: seq<nat>)
  {
    forall i, j :: 0 <= i < j < |L| ==> L[i] != L[j]
  }

  ghost predicate InRange(L: seq<nat>, lo: nat, hi: nat)
  {
    forall i :: 0 <= i < |L| ==> lo <= L[i] < hi
  }

  /** The superblock sb and the chain on disk form a sound free list holding L. */
  ghost predicate Sound(disk: seq<Block>, sb: Filsys, L: seq<nat>)
  {
    && Holds(disk, sb.nfree, sb.free, L)
    && Distinct(L)
    && InRange(L, sb.isize, sb.fsize)
    && sb.tfree == |L|
    && SUPERB < sb.isize <= sb.fsize <= |disk|
  }

  /** Writing blocks that are not in the list leaves the list alone. */
  lemma {:induction false} Frame(disk: seq<Block>, disk': seq<Block>, nfree: int, free: seq<nat>, L: seq<nat>)
    requires Holds(disk, nfree, free, L)
    requires |disk| == |disk'|
    requires forall x :: x in L && x < |disk| ==> disk[x] == disk'[x]
    ensures Holds(disk', nfree, free, L)
    decreases |L|
  {
    if nfree > 0 && free[0] != 0 {
      assert free[0] == L[|L| - nfree..][0];
      Frame(disk, disk', disk[free[0]].nfree, disk[free[0]].free, L[..|L| - nfree]);
    }
  }

  lemma SoundFrame(disk: seq<Block>, disk': seq<Block>, sb: Filsys, L: seq<nat>)
    requires Sound(disk, sb, L)
    requires |disk| == |disk'|
    requires forall x :: x in L && x < |disk| ==> disk[x] == disk'[x]
    ensures Sound(disk', sb, L)
  {
    Frame(disk, disk', sb.nfree, sb.free, L);
  }

  lemma Bounds(disk: seq<Block>, sb: Filsys, L: seq<nat>)
    requires Sound(disk, sb, L)
    ensures SUPERB < sb.isize <= sb.fsize <= |disk|
    ensures 0 <= sb.nfree <= NICFREE == |sb.free|
    ensures forall x :: x in L ==> sb.isize <= x < sb.fsize
    ensures Distinct(L)
  {
  }

  /** L holds each number from lo up to hi once. */
  ghost predicate Counts(L: seq<nat>, lo: nat, hi: nat)
  {
    lo + |L| == hi && forall x :: x in L <==> lo <= x < hi
  }

  lemma CountsDown(L: seq<nat>, lo: nat, hi: nat)
    requires Counts(L, lo + 1, hi)
    ensures Counts(L + [lo], lo, hi) && lo !in L
  {
  }

  /** Giving back kid after before: the bookkeeping of the truncation loops. */
  lemma FreedMore(f0: seq<nat>, all: seq<nat>, before: seq<nat>, kid: seq<nat>, after: seq<nat>, lo: nat, hi: nat)
    requires after == before + kid
    requires forall x :: x in all ==> lo <= x < hi && x !in f0
    requires forall x :: x in kid ==> x !in before && x in all
    ensures (f0 + before) + kid == f0 + after
    ensures forall x :: x in kid ==> lo <= x < hi && x !in f0 + before
    ensures forall x :: x in after <==> x in before || x in kid
  {
  }

  /** The free-inode count is no part of the free list. */
  lemma Recount(disk: seq<Block>, sb: Filsys, k: int, L: seq<nat>)
    requires Sound(disk, sb, L)
    ensures Sound(disk, sb.(tinode := k), L)
  {
  }

  /** alloc's test for an exhausted list succeeds exactly when the stack is empty. */
  lemma EmptyExactly(disk: seq<Block>, sb: Filsys, L: seq<nat>)
    requires Sound(disk, sb, L)
    ensures 0 <= sb.nfree <= NICFREE == |sb.free|
    ensures L == [] <==> sb.nfree <= 0 || sb.free[sb.nfree - 1] == 0
    ensures L == [] ==> Sound(disk, sb.(nfree := 0), [])
  {
    if sb.nfree > 0 {
      if sb.free[0] == 0 {
        if sb.nfree > 1 { assert L[sb.nfree - 2] == sb.free[sb.nfree - 1]; }
      } else {
        assert L[|L| - 1] == L[|L| - sb.nfree..][sb.nfree - 1];
      }
    }
  }

  /** The superblock after alloc took the top entry: the cached part shrinks or is refilled
      from the chain block that was taken. */
  function Popped(disk: seq<Block>, sb: Filsys): Filsys
    requires 0 < sb.nfree <= |sb.free|
  {
    var bno := sb.free[sb.nfree - 1];
    var left := sb.nfree - 1;
    if left <= 0 && bno < |disk| && disk[bno].Chain?
    then sb.(nfree := disk[bno].nfree, free := disk[bno].free, tfree := sb.tfree - 1)
    else sb.(nfree := left, tfree := sb.tfree - 1)
  }

  lemma Top(disk: seq<Block>, sb: Filsys, L: seq<nat>)
    requires Sound(disk, sb, L) && L != []
    ensures 0 < sb.nfree && sb.free[sb.nfree - 1] == L[|L| - 1]
    ensures sb.isize <= L[|L| - 1] < sb.fsize <= |disk|
    ensures sb.nfree == 1 ==> sb.free[0] != 0 && disk[L[|L| - 1]].Chain?
    ensures L[|L| - 1] !in L[..|L| - 1]
  {
    EmptyExactly(disk, sb, L);
    if sb.free[0] == 0 {
      assert L[|L| - 1] == sb.free[1..sb.nfree][sb.nfree - 2];
    } else {
      assert L[|L| - 1] == L[|L| - sb.nfree..][sb.nfree - 1];
    }
  }

  lemma OneLess(L: seq<nat>)
    requires Distinct(L) && L != []
    ensures Distinct(L[..|L| - 1]) && L[|L| - 1] !in L[..|L| - 1]
  {
  }

  /** The last entry of the cached part goes. */
  lemma ShorterPart(disk: seq<Block>, n: int, free: seq<nat>, L: seq<nat>)
    requires Holds(disk, n, free, L) && L != [] && n > 1
    ensures Holds(disk, n - 1, free, L[..|L| - 1])
  {
    var rest := L[..|L| - 1];
    if free[0] == 0 {
      assert rest == free[1..n][..n - 2] == free[1..n - 1];
    } else {
      assert rest[|rest| - (n - 1)..] == L[|L| - n..][..n - 1] == free[..n - 1];
      assert rest[..|rest| - (n - 1)] == L[..|L| - n];
    }
  }

  /** The chain block goes and hands its part over. */
  lemma NextPart(disk: seq<Block>, free: seq<nat>, L: seq<nat>)
    requires Holds(disk, 1, free, L) && free[0] != 0
    ensures free[0] < |disk| && disk[free[0]].Chain?
    ensures Holds(disk, disk[free[0]].nfree, disk[free[0]].free, L[..|L| - 1])
  {
  }

  /** Taking the top entry and then clearing that block leaves the rest of the stack intact. */
  lemma Pop(disk: seq<Block>, disk': seq<Block>, sb: Filsys, L: seq<nat>)
    requires Sound(disk, sb, L) && L != []
    requires |disk'| == |disk|
    requires forall x :: 0 <= x < |disk| && x != L[|L| - 1] && x != SUPERB ==> disk'[x] == disk[x]
    ensures 0 < sb.nfree <= |sb.free|
    ensures Sound(disk', Popped(disk, sb), L[..|L| - 1])
  {
    Bounds(disk, sb, L);
    Top(disk, sb, L);
    OneLess(L);
    hide Distinct, Holds;
    if sb.nfree == 1 {
      NextPart(disk, sb.free, L);
    } else {
      ShorterPart(disk, sb.nfree, sb.free, L);
    }
    var rest, sb' := L[..|L| - 1], Popped(disk, sb);
    assert forall x :: x in rest ==> x in L && x != L[|L| - 1];
    Frame(disk, disk', sb'.nfree, sb'.free, rest);
  }

  /** The superblock after bfree(bno). */
  function Pushed(sb: Filsys, bno: nat): Filsys
    requires |sb.free| == NICFREE && sb.nfree <= NICFREE
  {
    var sb1 := if sb.nfree <= 0 then sb.(nfree := 1, free := sb.free[0 := 0]) else sb;
    var sb2 := if sb1.nfree >= NICFREE then sb1.(nfree := 0) else sb1;
    sb2.(free := sb2.free[sb2.nfree := bno], nfree := sb2.nfree + 1, tfree := sb2.tfree + 1)
  }

  /** bfree spills exactly when the cached part is full. */
  predicate Spills(sb: Filsys) { sb.nfree >= NICFREE }

  lemma OneMore(L: seq<nat>, x: nat)
    requires Distinct(L) && x !in L
    ensures Distinct(L + [x])
  {
  }

  lemma Push(disk: seq<Block>, sb: Filsys, L: seq<nat>, bno: nat)
    requires Sound(disk, sb, L)
    requires sb.isize <= bno < sb.fsize && bno !in L
    ensures
      var disk' := if Spills(sb) then disk[bno := Chain(sb.nfree, sb.free)] else disk;
      Sound(disk', Pushed(sb, bno), L + [bno])
  {
    var L' := L + [bno];
    var sb' := Pushed(sb, bno);
    OneMore(L, bno);
    hide Distinct;
    if sb.nfree <= 0 {
      assert L' == sb'.free[1..2];
    } else if Spills(sb) {
      var disk' := disk[bno := Chain(sb.nfree, sb.free)];
      Frame(disk, disk', sb.nfree, sb.free, L);
      assert L'[..|L'| - 1] == L;
      assert L'[|L'| - 1..] == sb'.free[..1];
    } else if sb.free[0] == 0 {
      assert L' == sb'.free[1..sb.nfree + 1];
    } else {
      assert L'[..|L'| - sb'.nfree] == L[..|L| - sb.nfree];
      assert L'[|L'| - sb'.nfree..] == sb'.free[..sb'.nfree];
    }
  }

  /** What one bfree pushes, the next alloc takes back, on both sides of a spill. */
  lemma PushThenPop(disk: seq<Block>, sb: Filsys, L: seq<nat>, bno: nat)
    requires Sound(disk, sb, L)
    requires sb.isize <= bno < sb.fsize && bno !in L
    ensures
      var disk' := if Spills(sb) then disk[bno := Chain(sb.nfree, sb.free)] else disk;
      var sb' := Pushed(sb, bno);
      && sb'.free[sb'.nfree - 1] == bno
      && Sound(disk'[bno := Zero], Popped(disk', sb'), L)
      && (0 < sb.nfree ==> Popped(disk', sb').nfree == sb.nfree)
      && (0 < sb.nfree ==> Popped(disk', sb').free[..sb.nfree] == sb.free[..sb.nfree])
  {
    Bounds(disk, sb, L);
    hide Holds, Distinct, InRange;
    var disk' := if Spills(sb) then disk[bno := Chain(sb.nfree, sb.free)] else disk;
    Push(disk, sb, L, bno);
    assert (L + [bno])[|L|] == bno;
    Pop(disk', disk'[bno := Zero], Pushed(sb, bno), L + [bno]);
    assert (L + [bno])[..|L|] == L;
  }
}
