/** The allocator of local variables and temporaries in a function's frame. */
module Locals {
  import TA = TargetArith

  const TABSIZ: nat := 32

  /** A place in the frame at a negative offset: its size and alignment, and the storage class and kind of
      register it was made for. */
  datatype Local = Local(offset: int, size: nat, al: nat, sc: int, regtype: int)

  predicate PowerOfTwo(a: nat)
  {
    a == 1 || (a > 1 && a % 2 == 0 && PowerOfTwo(a / 2))
  }

  /** align: round x up to a multiple of al. */
  function Align(x: nat, al: nat): (y: nat)
    requires 0 < al
    ensures x <= y < x + al
  {
    RoundUp(x, al);
    (x + al - 1) / al * al
  }

  lemma RoundUp(x: nat, al: nat)
    requires 0 < al
    ensures x <= (x + al - 1) / al * al < x + al
  {
    var q, r := (x + al - 1) / al, (x + al - 1) % al;
    assert x + al - 1 == q * al + r;
  }

  predicate Aligned(o: int, al: nat) { 0 < al && o % al == 0 }

  lemma AlignAligned(x: nat, al: nat)
    requires 0 < al
    ensures Aligned(0 - Align(x, al), al)
  {
    var q := (x + al - 1) / al;
    TA.ModUnique(-(q * al), -q, 0, al);
  }

  lemma AlignKeeps(o: int, al: nat)
    requires o <= 0 && Aligned(o, al)
    ensures Align(0 - o, al) == -o
  {
    var k := o / al;
    assert o == k * al;
    TA.ModUnique(al - 1 - o, -k, al - 1, al);
  }

  /** Of two powers of two the greater is a multiple of the smaller. */
  lemma {:induction false} GreaterIsMultiple(a: nat, b: nat)
    requires PowerOfTwo(a) && PowerOfTwo(b) && b <= a
    ensures exists k: nat :: a == k * b
    decreases b
  {
    if b == 1 {
      assert a == a * b;
    } else {
      GreaterIsMultiple(a / 2, b / 2);
      var k: nat :| a / 2 == k * (b / 2);
      assert a == k * b by {
        assert a == 2 * (a / 2) && b == 2 * (b / 2);
        assert 2 * (k * (b / 2)) == k * (2 * (b / 2));
      }
    }
  }

  /** A place aligned for the greater power of two is aligned for the smaller one. */
  lemma StillAligned(o: int, a: nat, b: nat)
    requires PowerOfTwo(a) && PowerOfTwo(b) && b <= a && Aligned(o, a)
    ensures Aligned(o, b)
  {
    hide PowerOfTwo;
    GreaterIsMultiple(a, b);
    var k: nat :| a == k * b;
    var q := o / a;
    assert o == q * a;
    TA.Associate(q, k, b);
    TA.ModUnique(o, q * k, 0, b);
  }

  predicate Has(l: seq<Local>, o: int) { exists i :: 0 <= i < |l| && l[i].offset == o }

  predicate NoTwice(l: seq<Local>) { forall i, j :: 0 <= i < j < |l| ==> l[i].offset != l[j].offset }

  function Without(l: seq<Local>, i: nat): seq<Local>
    requires i < |l|
  {
    l[..i] + l[i + 1..]
  }

  lemma WithoutHas(l: seq<Local>, i: nat)
    requires i < |l| && NoTwice(l)
    ensures NoTwice(Without(l, i)) && forall o :: Has(Without(l, i), o) <==> Has(l, o) && o != l[i].offset
  {
    var w := Without(l, i);
    forall o | Has(l, o) && o != l[i].offset ensures Has(w, o) {
      var j :| 0 <= j < |l| && l[j].offset == o;
      assert w[if j < i then j else j - 1].offset == o;
    }
    forall o | Has(w, o) ensures Has(l, o) && o != l[i].offset {
      var j :| 0 <= j < |w| && w[j].offset == o;
      assert l[if j < i then j else j + 1].offset == o;
    }
  }

  lemma WithHas(x: Local, l: seq<Local>)
    requires NoTwice(l) && !Has(l, x.offset)
    ensures NoTwice([x] + l) && forall o :: Has([x] + l, o) <==> Has(l, o) || o == x.offset
  {
    var w := [x] + l;
    forall o | Has(l, o) ensures Has(w, o) {
      var j :| 0 <= j < |l| && l[j].offset == o;
      assert w[j + 1].offset == o;
    }
    assert w[0].offset == x.offset;
  }

  /** The bucket of an offset: bits 2 to 6. */
  function Bucket(o: int): nat { o / 4 % TABSIZ }

  /** What was asked for in NewLocal. */
  datatype Asked = Asked(size: nat, al: nat)

  /** The bucket holds exactly the places in use whose offsets belong to it. */
  ghost predicate Holds(bucket: seq<Local>, b: nat, all: map<int, Local>, live: set<int>)
  {
    && NoTwice(bucket)
    && (forall i :: 0 <= i < |bucket| ==> bucket[i].offset in all && all[bucket[i].offset] == bucket[i])
    && (forall o :: Has(bucket, o) <==> o in all && o in live && Bucket(o) == b)
  }

  ghost predicate AllHold(regs: seq<seq<Local>>, all: map<int, Local>, live: set<int>)
  {
    |regs| == TABSIZ && forall b: nat :: b < TABSIZ ==> Holds(regs[b], b, all, live)
  }

  /** A place at the head of its bucket. */
  function Linked(regs: seq<seq<Local>>, tmp: Local): seq<seq<Local>>
    requires |regs| == TABSIZ
  {
    var index := Bucket(tmp.offset);
    regs[index := [tmp] + regs[index]]
  }

  lemma LinkHolds(regs: seq<seq<Local>>, tmp: Local, all: map<int, Local>, used: set<int>)
    requires tmp.offset in all && all[tmp.offset] == tmp && tmp.offset !in used && AllHold(regs, all, used)
    ensures AllHold(Linked(regs, tmp), all, used + {tmp.offset})
  {
    var index := Bucket(tmp.offset);
    assert Holds(regs[index], index, all, used);
    WithHas(tmp, regs[index]);
    forall b: nat | b < TABSIZ ensures Holds(Linked(regs, tmp)[b], b, all, used + {tmp.offset}) {
      assert Holds(regs[b], b, all, used);
    }
  }

  /** A second place at the offset of one in use: the bucket has the offset twice. */
  lemma LinkTwice(regs: seq<seq<Local>>, tmp: Local, all: map<int, Local>, live: set<int>, z: map<int, Local>, l: set<int>)
    requires AllHold(regs, all, live) && tmp.offset in all && tmp.offset in live
    ensures !AllHold(Linked(regs, tmp), z, l)
  {
    var b := Bucket(tmp.offset);
    assert Holds(regs[b], b, all, live);
    assert Has(regs[b], tmp.offset);
    var i :| 0 <= i < |regs[b]| && regs[b][i].offset == tmp.offset;
    var w := Linked(regs, tmp)[b];
    assert w[0].offset == w[i + 1].offset;
    assert !Holds(w, b, z, l);
  }

  /** The places are inside the frame, aligned, and one below the other. */
  ghost predicate LaidOut(all: map<int, Local>, maxBlock: int)
  {
    && maxBlock <= 0
    && (forall o :: o in all ==>
          && all[o].offset == o && maxBlock <= o && o + all[o].size <= 0
          && PowerOfTwo(all[o].al) && Aligned(o, all[o].al))
    && (forall o, p :: o in all && p in all && o < p ==> o + all[o].size <= p)
  }

  /** A place that is not in use belongs to no bucket. */
  lemma HoldsStill(bucket: seq<Local>, b: nat, all: map<int, Local>, live: set<int>, l: Local)
    requires Holds(bucket, b, all, live) && l.offset !in all && l.offset !in live
    ensures Holds(bucket, b, all[l.offset := l], live)
  {
  }

  /** A place below everything made so far. */
  lemma LayBelow(all: map<int, Local>, maxBlock: int, l: Local)
    requires LaidOut(all, maxBlock) && PowerOfTwo(l.al) && Aligned(l.offset, l.al)
    requires l.offset + l.size <= maxBlock
    ensures l.offset < maxBlock ==> l.offset !in all
    ensures l.offset !in all ==> LaidOut(all[l.offset := l], l.offset)
  {
    hide PowerOfTwo, Aligned;
  }

  class Frame {
    /** FreeTmps, first one first. */
    var free: seq<Local>
    /** The buckets of locals in use. */
    var regs: seq<seq<Local>>
    /** sl_max_block: the frame reaches down to here. */
    var maxBlock: int
    /** All places ever made, by offset, and what the ones in use were asked for. */
    ghost var all: map<int, Local>
    ghost var live: map<int, Asked>

    constructor ()
      ensures Valid() && live == map[] && free == [] && maxBlock == 0
    {
      free, regs, maxBlock := [], seq<seq<Local>>(TABSIZ, _ => []), 0;
      all, live := map[], map[];
    }

    ghost predicate Layout()
      reads this`all, this`maxBlock
    {
      LaidOut(all, maxBlock)
    }

    /** The free list holds exactly the places not in use, and each bucket exactly the places in use with
        its offsets. */
    ghost predicate Lists()
      reads this`free, this`regs, this`all, this`live
    {
      && |regs| == TABSIZ && NoTwice(free)
      && live.Keys <= all.Keys
      && (forall i :: 0 <= i < |free| ==> free[i].offset in all && all[free[i].offset] == free[i])
      && (forall o :: Has(free, o) <==> o in all && o !in live)
      && AllHold(regs, all, live.Keys)
    }

    /** Every local in use has at least what was asked for. */
    ghost predicate Served()
      reads this`all, this`live
    {
      forall o :: o in live ==> o in all && live[o].size <= all[o].size && Aligned(o, live[o].al)
    }

    ghost predicate Valid()
      reads this
    {
      Layout() && Lists() && Served()
    }

    /** The locals in use lie in the frame, aligned as asked, and no two of them overlap. */
    lemma LocalsApart(o: int, p: int)
      requires Valid() && o in live && p in live && o != p
      ensures maxBlock <= o && o + live[o].size <= 0 && Aligned(o, live[o].al)
      ensures o + live[o].size <= p || p + live[p].size <= o
    {
    }

    /** LocalSpace: the frame grows by sz bytes, down to a multiple of al. */
    method LocalSpace(sz: nat, al: nat) returns (o: int)
      requires maxBlock <= 0 && 0 < al
      modifies this`maxBlock
      ensures o == maxBlock == -(Align(sz - old(maxBlock), al) as int) && o + sz <= old(maxBlock) && Aligned(o, al)
      ensures old(maxBlock) - sz - al < o
      ensures sz == 0 && Aligned(old(maxBlock), al) ==> o == old(maxBlock)
    {
      AlignAligned(sz - maxBlock, al);
      if sz == 0 && Aligned(maxBlock, al) {
        AlignKeeps(maxBlock, al);
      }
      maxBlock := -(Align(sz - maxBlock, al) as int);
      o := maxBlock;
    }

    /** NewLocal: the first free place that fits, or a new one at the end of the frame. The offset is that of
        no local in use exactly when something is asked for, a free place fits, or the end of the frame is not
        aligned or not the offset of a local in use. The frame stays in order exactly when the end of the
        frame is then not the offset of a free place either. */
    method NewLocal(sz: nat, al: nat, regtype: int, sc: int) returns (o: int)
      requires Valid() && PowerOfTwo(al)
      modifies this
      ensures live == old(live)[o := Asked(sz, al)] && (Valid() ==> Aligned(o, al))
      ensures var apart := sz >= 1 || old(Reusable(sz, al, regtype, sc)) || !Aligned(old(maxBlock), al);
        && (o !in old(live) <==> apart || old(maxBlock) !in old(live))
        && (Valid() <==> apart || old(maxBlock) !in old(all))
      ensures maxBlock <= old(maxBlock) && old(all).Keys <= all.Keys
      ensures o in all && all[o].sc == sc && all[o].regtype == regtype && all[o].size >= sz && all[o].al >= al
      ensures old(Reusable(sz, al, regtype, sc)) <==>
        !forall l :: l in old(free) && l.sc == sc && l.regtype == regtype ==> l.size < sz || l.al < al
      ensures if old(Reusable(sz, al, regtype, sc)) then
          && maxBlock == old(maxBlock)
          && exists i: nat ::
              First(old(free), i, sz, al, regtype, sc) && o == old(free)[i].offset && free == Without(old(free), i)
        else
          free == old(free) && o == maxBlock == -(Align(sz - old(maxBlock), al) as int)
    {
      FitsExactly(free, sz, al, regtype, sc);
      hide Align, Aligned, PowerOfTwo, LaidOut, Holds, Has, NoTwice, Without, Fits;
      var i, tmp := FirstFit(sz, al, regtype, sc);
      if i < |free| {
        TakeFree(i, Asked(sz, al));
        assert First(old(free), i, sz, al, regtype, sc);
      } else {
        tmp := MakePlace(sz, al, regtype, sc);
      }
      o := tmp.offset;
    }

    /** Place i is the first one that fits. */
    predicate First(l: seq<Local>, i: nat, sz: nat, al: nat, regtype: int, sc: int)
    {
      i < |l| && Fits(l[i], sz, al, regtype, sc) && forall j :: 0 <= j < i ==> !Fits(l[j], sz, al, regtype, sc)
    }

    /** A place fits if it was made for the same storage class and kind of register, and is large and aligned
        enough. */
    lemma FitsExactly(l: seq<Local>, sz: nat, al: nat, regtype: int, sc: int)
      ensures (exists i :: 0 <= i < |l| && Fits(l[i], sz, al, regtype, sc)) <==>
        !forall x :: x in l && x.sc == sc && x.regtype == regtype ==> x.size < sz || x.al < al
      ensures forall i :: 0 <= i < |l| && Fits(l[i], sz, al, regtype, sc) ==>
        l[i].sc == sc && l[i].regtype == regtype && l[i].size >= sz && l[i].al >= al
    {
    }

    /** Some free place fits. */
    predicate Reusable(sz: nat, al: nat, regtype: int, sc: int)
      reads this`free
    {
      exists i :: 0 <= i < |free| && Fits(free[i], sz, al, regtype, sc)
    }

    predicate Fits(l: Local, sz: nat, al: nat, regtype: int, sc: int)
    {
      l.al >= al && l.size >= sz && l.sc == sc && l.regtype == regtype
    }

    method FirstFit(sz: nat, al: nat, regtype: int, sc: int) returns (i: nat, tmp: Local)
      ensures i <= |free| && forall j :: 0 <= j < i ==> !Fits(free[j], sz, al, regtype, sc)
      ensures i < |free| ==> tmp == free[i] && Fits(tmp, sz, al, regtype, sc)
    {
      i, tmp := 0, Local(0, 0, 1, sc, regtype);
      while i < |free|
        invariant i <= |free| && forall j :: 0 <= j < i ==> !Fits(free[j], sz, al, regtype, sc)
      {
        if Fits(free[i], sz, al, regtype, sc) {
          return i, free[i];
        }
        i := i + 1;
      }
    }

    lemma NotPositive()
      requires Layout()
      ensures maxBlock <= 0
    {
    }

    lemma PlaceAligned(o: int)
      requires Layout() && o in all
      ensures PowerOfTwo(all[o].al) && Aligned(o, all[o].al)
    {
    }

    /** Unlinks place i of the free list and links it into its bucket. */
    method TakeFree(i: nat, ghost asked: Asked)
      requires Valid() && i < |free| && asked.size <= free[i].size && PowerOfTwo(asked.al) && asked.al <= free[i].al
      modifies this`free, this`regs, this`live
      ensures free == Without(old(free), i)
      ensures Valid() && old(free)[i].offset !in old(live) && live == old(live)[old(free)[i].offset := asked]
    {
      hide Holds, NoTwice, PowerOfTwo, Aligned, LaidOut;
      var tmp := free[i];
      assert Has(free, tmp.offset);
      assert all[tmp.offset] == tmp;
      hide Has;
      PlaceAligned(tmp.offset);
      StillAligned(tmp.offset, tmp.al, asked.al);
      WithoutHas(free, i);
      free := Without(free, i);
      LinkHolds(regs, tmp, all, live.Keys);
      regs := Linked(regs, tmp);
      live := live[tmp.offset := asked];
      assert live.Keys == old(live.Keys) + {tmp.offset};
    }

    /** A new place at the end of the frame, linked into its bucket. */
    method MakePlace(sz: nat, al: nat, regtype: int, sc: int) returns (tmp: Local)
      requires Valid() && PowerOfTwo(al)
      modifies this`maxBlock, this`regs, this`all, this`live
      ensures Aligned(tmp.offset, al) && tmp.offset == maxBlock == -(Align(sz - old(maxBlock), al) as int)
      ensures tmp.offset < old(maxBlock) || (tmp.offset == old(maxBlock) && sz == 0 && Aligned(old(maxBlock), al))
      ensures sz == 0 && Aligned(old(maxBlock), al) ==> tmp.offset == old(maxBlock)
      ensures tmp.offset < old(maxBlock) ==> tmp.offset !in old(all)
      ensures live == old(live)[tmp.offset := Asked(sz, al)]
      ensures tmp == Local(maxBlock, sz, al, sc, regtype) && all == old(all)[tmp.offset := tmp]
      ensures Valid() <==> tmp.offset !in old(all)
      ensures maxBlock <= old(maxBlock) && old(all).Keys <= all.Keys
    {
      assert 0 < al;
      hide Aligned, PowerOfTwo, LaidOut, Holds, Has, NoTwice;
      assert maxBlock <= 0 by {
        NotPositive();
      }
      var o := LocalSpace(sz, al);
      tmp := Local(o, sz, al, sc, regtype);
      LayBelow(all, old(maxBlock), tmp);
      AddPlace(tmp, Asked(sz, al));
    }

    /** A new place in use: the lists stay in order exactly when no other place has its offset. */
    method AddPlace(tmp: Local, ghost asked: Asked)
      requires Lists() && Served() && asked.size <= tmp.size && Aligned(tmp.offset, asked.al)
      modifies this`regs, this`all, this`live
      ensures live == old(live)[tmp.offset := asked] && all == old(all)[tmp.offset := tmp]
      ensures if tmp.offset in old(all) then !Lists() else Lists() && Served()
    {
      hide Aligned, PowerOfTwo, Holds, Has, NoTwice;
      ghost var o := tmp.offset;
      all := all[o := tmp];
      regs := Linked(regs, tmp);
      live := live[o := asked];
      assert live.Keys == old(live.Keys) + {o};
      if o in old(live) {
        LinkTwice(old(regs), tmp, old(all), old(live.Keys), all, live.Keys);
      } else if o in old(all) {
        assert Has(free, o);
      } else {
        forall b: nat | b < TABSIZ ensures Holds(old(regs)[b], b, all, old(live.Keys)) {
          assert Holds(old(regs)[b], b, old(all), old(live.Keys));
          HoldsStill(old(regs)[b], b, old(all), old(live.Keys), tmp);
        }
        LinkHolds(old(regs), tmp, all, old(live.Keys));
      }
    }

    /** FreeLocal: a local in use goes to the head of the free list; any other offset changes nothing. */
    method FreeLocal(off: int)
      requires Valid()
      modifies this`free, this`regs, this`live
      ensures Valid() && live == old(live) - {off}
      ensures off in old(live) ==> free == [all[off]] + old(free)
      ensures off !in old(live) ==> free == old(free) && regs == old(regs)
    {
      hide LaidOut;
      var index := Bucket(off);
      assert Holds(regs[index], index, all, live.Keys);
      var bucket := regs[index];
      var i := 0;
      while i < |bucket| && bucket[i].offset != off
        invariant i <= |bucket| && forall j :: 0 <= j < i ==> bucket[j].offset != off
      {
        i := i + 1;
      }
      if i < |bucket| {
        assert Has(bucket, off);
        Unlink(index, i);
      } else {
        assert !Has(bucket, off);
        assert live - {off} == live;
      }
    }

    method Unlink(index: nat, i: nat)
      requires Valid() && index < TABSIZ && i < |regs[index]|
      modifies this`free, this`regs, this`live
      ensures Valid() && old(regs)[index][i].offset in old(live) && live == old(live) - {old(regs)[index][i].offset}
      ensures free == [old(regs)[index][i]] + old(free)
    {
      hide LaidOut, Aligned;
      var bucket := regs[index];
      var tmp := bucket[i];
      assert Holds(bucket, index, all, live.Keys);
      assert Has(bucket, tmp.offset);
      WithoutHas(bucket, i);
      WithHas(tmp, free);
      regs := regs[index := Without(bucket, i)];
      free := [tmp] + free;
      live := live - {tmp.offset};
      assert AllHold(regs, all, live.Keys) by {
        forall b: nat | b < TABSIZ ensures Holds(regs[b], b, all, live.Keys) {
          assert Holds(old(regs)[b], b, all, old(live.Keys));
        }
      }
    }

    /** The frame size that the end of the function emits, in words of w bytes, covers every local. */
    lemma FrameCovers(w: nat, o: int)
      requires Valid() && 0 < w && o in live
      ensures o >= -(Align(-maxBlock, w) as int)
    {
    }
  }

  /** A local of two bytes and then one of no bytes, an array of no elements: they get the same offset. */
  method NothingShares() returns (x: int, a: int)
    ensures x == a == -2
  {
    assert PowerOfTwo(1) && PowerOfTwo(2);
    var f := new Frame();
    x := f.NewLocal(2, 2, -1, 0);
    a := f.NewLocal(0, 1, -1, 0);
  }
}
