/** How many blocks growing a file takes: exactly one for every place that is empty on the way. */
module V7Room {
  import opened V7Layout
  import opened V7BlockMap
  import FL = V7FreeList

  /** The first t steps on the way to block bn of inode n. */
  ghost function WayTo(n: nat, bn: nat, t: nat): Place
    requires bn < MAXBN && t <= |PathOf(bn)|
  {
    Place(n, SlotOf(bn), PathOf(bn)[..t])
  }

  /** The steps of the way that lead nowhere yet. */
  ghost function Missing(v: Vol, n: nat, bn: nat): set<nat>
    requires bn < MAXBN
  {
    set t | 0 <= t <= |PathOf(bn)| && Look(v, WayTo(n, bn, t)) == 0
  }

  /** The blocks that wbmap has to allocate. */
  ghost function Need(v: Vol, n: nat, bn: nat): nat
    requires bn < MAXBN
  {
    |Missing(v, n, bn)|
  }

  /** There are blocks enough for the one under this offset of the file. */
  ghost predicate Fits(v: Vol, n: nat, off: nat)
  {
    off / BSIZE < MAXBN && Need(v, n, off / BSIZE) <= |v.free|
  }

  lemma PathShort(bn: nat)
    requires bn < MAXBN
    ensures |PathOf(bn)| <= 3 && SlotOf(bn) < NADDR && ValidPath(Height(SlotOf(bn)), PathOf(bn))
  {
    PathOfValid(bn);
  }

  /** Four blocks always do. */
  lemma NeedBound(v: Vol, n: nat, bn: nat)
    requires bn < MAXBN
    ensures Need(v, n, bn) <= 4
  {
    PathShort(bn);
    var four := {0, 1, 2, 3};
    assert Missing(v, n, bn) <= four;
    Fewer(Missing(v, n, bn), four);
    assert |four| == 4;
  }

  lemma {:induction false} Fewer<T>(a: set<T>, b: set<T>)
    requires a <= b
    ensures |a| <= |b| && (a != b ==> |a| < |b|)
  {
    assert b == a + (b - a);
    assert |b| == |a| + |b - a|;
    if a != b {
      assert b - a != {};
    }
  }

  lemma NeedSame(v: Vol, w: Vol, n: nat, bn: nat)
    requires bn < MAXBN && forall z: Place :: z.n == n ==> Look(w, z) == Look(v, z)
    ensures Need(w, n, bn) == Need(v, n, bn)
  {
    hide Look;
    assert Missing(w, n, bn) == Missing(v, n, bn);
  }

  /** A block that is mapped takes nothing, and none that is mapped has a gap above it. */
  lemma NeedNothing(v: Vol, n: nat, bn: nat)
    requires bn < MAXBN && n < |v.tab| && HasBlocks(v.tab[n])
    ensures Need(v, n, bn) == 0 <==> BlockOf(v.disk, v.tab[n].addr, bn) != 0
  {
    PathShort(bn);
    var h := |PathOf(bn)|;
    assert PathOf(bn)[..h] == PathOf(bn);
    if BlockOf(v.disk, v.tab[n].addr, bn) != 0 {
      forall t | 0 <= t <= h ensures Look(v, WayTo(n, bn, t)) != 0 {
        WalkPrefix(v.disk, v.tab[n].addr[SlotOf(bn)], PathOf(bn)[..t], PathOf(bn));
      }
      assert Missing(v, n, bn) == {};
    } else {
      assert h in Missing(v, n, bn);
    }
  }

  /** The first block of an empty file takes one. */
  lemma NeedFirst(v: Vol, n: nat)
    requires n < |v.tab| && HasBlocks(v.tab[n]) && v.tab[n].addr[0] == 0
    ensures Need(v, n, 0) == 1
  {
    assert Missing(v, n, 0) == {0};
  }

  // ---------- counting ----------

  lemma {:induction false} Values(f: map<nat, nat>)
    requires forall a, b :: a in f && b in f && f[a] == f[b] ==> a == b
    ensures |f.Values| == |f|
  {
    if f == map[] {
      assert f.Values == {};
    } else {
      var t :| t in f;
      var g := f - {t};
      Values(g);
      forall x | x in f.Values ensures x in g.Values + {f[t]} {
        var a :| a in f && f[a] == x;
        if a != t {
          assert a in g && g[a] == x;
        }
      }
      forall x | x in g.Values + {f[t]} ensures x in f.Values {
        if x in g.Values {
          var a :| a in g && g[a] == x;
          assert a in f && f[a] == x;
        } else {
          assert t in f && f[t] == x;
        }
      }
      assert f[t] !in g.Values;
      assert f.Values == g.Values + {f[t]};
      assert f.Keys == g.Keys + {t};
    }
  }

  ghost function Elems(L: seq<nat>): set<nat> { set x | x in L }

  lemma {:induction false} Elements(L: seq<nat>)
    requires FL.Distinct(L)
    ensures |Elems(L)| == |L|
  {
    if L != [] {
      var front, last := L[..|L| - 1], L[|L| - 1];
      Elements(front);
      assert last !in front;
      assert last !in Elems(front) && L == front + [last];
      assert Elems(L) == Elems(front) + {last};
    }
  }

  /** The steps of the way that were filled, with their blocks. */
  ghost function Hung(v: Vol, w: Vol, n: nat, bn: nat): map<nat, nat>
    requires bn < MAXBN
  {
    map t | 0 <= t <= |PathOf(bn)| && Look(v, WayTo(n, bn, t)) == 0 && Look(w, WayTo(n, bn, t)) != 0
      :: Look(w, WayTo(n, bn, t))
  }

  lemma HungOnce(v: Vol, w: Vol, n: nat, bn: nat)
    requires bn < MAXBN && Owned(w.disk, w.tab, w.own)
    ensures |Hung(v, w, n, bn).Values| == |Hung(v, w, n, bn)|
  {
    var f := Hung(v, w, n, bn);
    forall a, b | a in f && b in f && f[a] == f[b] ensures a == b {
      assert Look(w, WayTo(n, bn, a)) == Look(w, WayTo(n, bn, b));
      assert WayTo(n, bn, a) == WayTo(n, bn, b);
      assert |PathOf(bn)[..a]| == a && |PathOf(bn)[..b]| == b;
    }
    Values(f);
  }

  /** What left the free stack is what was hung in. */
  lemma TakenIsHung(v: Vol, w: Vol, n: nat, bn: nat, lo: nat, hi: nat, x: nat)
    requires Grew(v, w, n, bn) && bn < MAXBN && Owned(v.disk, v.tab, v.own) && Owned(w.disk, w.tab, w.own)
    requires Covers(v.own, v.free, lo, hi) && Covers(w.own, w.free, lo, hi) && FL.Distinct(v.free)
    ensures x in v.free[|w.free|..] <==> x in Hung(v, w, n, bn).Values
  {
    var f := Hung(v, w, n, bn);
    if x in v.free[|w.free|..] {
      var i :| 0 <= i < |v.free| - |w.free| && v.free[|w.free|..][i] == x;
      assert v.free[|w.free| + i] == x && x in v.free;
      assert x !in w.free;
      assert x in w.own && x !in v.own;
      var z := w.own[x];
      assert Look(w, z) == x;
      assert Look(v, z) != x;
      assert OnPath(z, n, bn) && Look(v, z) == 0;
      assert z == WayTo(n, bn, |z.p|);
      assert f[|z.p|] == x;
    }
    if x in f.Values {
      var t :| t in f && f[t] == x;
      var z := WayTo(n, bn, t);
      assert Look(w, z) == x;
      assert x in w.own && w.own[x] == z;
      assert x !in v.own;
      assert x in v.free && x !in w.free;
      var i :| 0 <= i < |v.free| && v.free[i] == x;
      assert i >= |w.free| ==> v.free[|w.free|..][i - |w.free|] == x;
      assert i < |w.free| ==> w.free[i] == x;
    }
  }

  lemma HungTaken(v: Vol, w: Vol, n: nat, bn: nat, lo: nat, hi: nat)
    requires Grew(v, w, n, bn) && bn < MAXBN && Owned(v.disk, v.tab, v.own) && Owned(w.disk, w.tab, w.own)
    requires Covers(v.own, v.free, lo, hi) && Covers(w.own, w.free, lo, hi) && FL.Distinct(v.free)
    ensures |w.free| <= |v.free| && |Hung(v, w, n, bn)| == |v.free| - |w.free|
  {
    hide Hung, Owned, Covers;
    var X := v.free[|w.free|..];
    forall x: nat ensures x in X <==> x in Hung(v, w, n, bn).Values {
      TakenIsHung(v, w, n, bn, lo, hi, x);
    }
    HungOnce(v, w, n, bn);
    hide Grew;
    assert FL.Distinct(X);
    Elements(X);
    assert Hung(v, w, n, bn).Values == Elems(X);
  }

  /** Growing a file takes a block for every missing step; with too few, all are taken and the block is still
      not there. */
  lemma GrowthCount(v: Vol, w: Vol, n: nat, bn: nat, lo: nat, hi: nat)
    requires Grew(v, w, n, bn) && bn < MAXBN && Owned(v.disk, v.tab, v.own) && Owned(w.disk, w.tab, w.own)
    requires Covers(v.own, v.free, lo, hi) && Covers(w.own, w.free, lo, hi) && FL.Distinct(v.free)
    requires n < |w.tab| && HasBlocks(w.tab[n]) && (w.free == [] || BlockOf(w.disk, w.tab[n].addr, bn) != 0)
    ensures BlockOf(w.disk, w.tab[n].addr, bn) != 0 <==> Need(v, n, bn) <= |v.free|
    ensures BlockOf(w.disk, w.tab[n].addr, bn) != 0 ==> |w.free| == |v.free| - Need(v, n, bn)
  {
    HungTaken(v, w, n, bn, lo, hi);
    HungKeys(v, w, n, bn);
    NeedNothing(w, n, bn);
    hide Hung, Owned, Covers, Grew, BlockOf;
    Fewer(Hung(v, w, n, bn).Keys, Missing(v, n, bn));
    assert |Hung(v, w, n, bn).Keys| == |Hung(v, w, n, bn)|;
  }

  lemma HungKeys(v: Vol, w: Vol, n: nat, bn: nat)
    requires bn < MAXBN && Grew(v, w, n, bn)
    ensures Hung(v, w, n, bn).Keys <= Missing(v, n, bn)
    ensures Hung(v, w, n, bn).Keys == Missing(v, n, bn) <==> Need(w, n, bn) == 0
  {
    forall t | 0 <= t <= |PathOf(bn)| && Look(w, WayTo(n, bn, t)) == 0 ensures Look(v, WayTo(n, bn, t)) == 0 {
      assert Look(w, WayTo(n, bn, t)) != Look(v, WayTo(n, bn, t)) ==> Look(v, WayTo(n, bn, t)) == 0;
    }
    if Need(w, n, bn) == 0 {
      assert Missing(w, n, bn) == {};
      forall t | t in Missing(v, n, bn) ensures t in Hung(v, w, n, bn) {
        assert t !in Missing(w, n, bn);
      }
    } else {
      var t :| t in Missing(w, n, bn);
      assert t in Missing(v, n, bn) && t !in Hung(v, w, n, bn);
    }
  }
}
