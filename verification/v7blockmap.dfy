/** Who owns each block: every block in use sits at one place of one inode's tree. */
module V7BlockMap {
  import opened V7Layout
  import opened V7FreeList

  /** Inode n, address slot s, then the entry numbers p of the indirect blocks below it. */
  datatype Place = Place(n: nat, s: nat, p: seq<nat>)

  /** The block at place q, or 0; tab[n] is inode n. */
  ghost function At(disk: seq<Block>, tab: seq<Inode>, q: Place): nat
  {
    if q.n < |tab| && HasBlocks(tab[q.n]) && q.s < NADDR && ValidPath(Height(q.s), q.p)
    then Walk(disk, tab[q.n].addr[q.s], q.p)
    else 0
  }

  /** own names, for every block reachable from an inode, its one place. */
  ghost predicate Owned(disk: seq<Block>, tab: seq<Inode>, own: map<nat, Place>)
  {
    && (forall q {:trigger At(disk, tab, q)} :: At(disk, tab, q) != 0 ==>
          At(disk, tab, q) in own && own[At(disk, tab, q)] == q)
    && (forall x {:trigger own[x]} {:trigger x in own} :: x in own ==> x != 0 && At(disk, tab, own[x]) == x)
  }

  /** Every data-area block is either owned or free. */
  ghost predicate Covers(own: map<nat, Place>, L: seq<nat>, lo: nat, hi: nat)
  {
    && (forall x :: x in L ==> lo <= x < hi)
    && (forall x {:trigger x in own} {:trigger x in L} :: x in own <==> lo <= x < hi && x !in L)
  }

  lemma CoversPop(own: map<nat, Place>, L: seq<nat>, lo: nat, hi: nat, nb: nat, z: Place)
    requires Covers(own, L + [nb], lo, hi) && nb !in L && lo <= nb < hi
    ensures nb !in own && Covers(own[nb := z], L, lo, hi)
  {
    assert nb == (L + [nb])[|L|];
    assert forall x :: x in L ==> x in L + [nb];
    forall x ensures x in own[nb := z] <==> lo <= x < hi && x !in L {
      assert x in L + [nb] <==> x in L || x == nb;
    }
  }

  /** How far above the data block q stands; 0 for a data block. */
  function Above(q: Place): int { Height(q.s) - |q.p| }

  lemma {:induction false} WalkZero(disk: seq<Block>, p: seq<nat>)
    ensures Walk(disk, 0, p) == 0
  {
    if p != [] { WalkZero(disk, p[..|p| - 1]); }
  }

  /** A nonzero block has nonzero blocks all the way up. */
  lemma {:induction false} WalkPrefix(disk: seq<Block>, root: nat, r: seq<nat>, p: seq<nat>)
    requires r <= p && Walk(disk, root, p) != 0
    ensures Walk(disk, root, r) != 0
  {
    if r != p {
      WalkPrefix(disk, root, r, p[..|p| - 1]);
    }
  }

  lemma WalkPrefixZero(disk: seq<Block>, root: nat, r: seq<nat>, p: seq<nat>)
    requires r <= p && Walk(disk, root, r) == 0
    ensures Walk(disk, root, p) == 0
  {
    if Walk(disk, root, p) != 0 { WalkPrefix(disk, root, r, p); }
  }

  /** Blocks of indirection unchanged, addresses unchanged: every place is unchanged. */
  lemma {:induction false} AtFrame(disk: seq<Block>, disk': seq<Block>, tab: seq<Inode>, tab': seq<Inode>, own: map<nat, Place>, q: Place)
    requires Owned(disk, tab, own)
    requires |disk| == |disk'|
    requires q.n < |tab| && q.n < |tab'| && HasBlocks(tab[q.n]) == HasBlocks(tab'[q.n])
    requires HasBlocks(tab[q.n]) ==> tab[q.n].addr == tab'[q.n].addr
    requires forall x :: x in own && own[x].n == q.n && Above(own[x]) > 0 && x < |disk| ==> disk[x] == disk'[x]
    ensures At(disk', tab', q) == At(disk, tab, q)
    decreases |q.p|
  {
    if q.p != [] && ValidPath(Height(q.s), q.p) && q.s < NADDR {
      var up := q.(p := q.p[..|q.p| - 1]);
      AtFrame(disk, disk', tab, tab', own, up);
      var x := At(disk, tab, up);
      if x != 0 { assert own[x] == up; }
    }
  }

  lemma OwnedFrame(disk: seq<Block>, disk': seq<Block>, tab: seq<Inode>, tab': seq<Inode>, own: map<nat, Place>)
    requires Owned(disk, tab, own)
    requires |disk| == |disk'| && |tab| == |tab'|
    requires forall n :: 0 <= n < |tab| ==> HasBlocks(tab[n]) == HasBlocks(tab'[n])
    requires forall n :: 0 <= n < |tab| && HasBlocks(tab[n]) ==> tab[n].addr == tab'[n].addr
    requires forall x :: x in own && Above(own[x]) > 0 && x < |disk| ==> disk[x] == disk'[x]
    ensures Owned(disk', tab', own)
    ensures forall q :: At(disk', tab', q) == At(disk, tab, q)
  {
    forall q ensures At(disk', tab', q) == At(disk, tab, q) {
      if q.n < |tab| { AtFrame(disk, disk', tab, tab', own, q); }
    }
  }

  lemma PlacesAreValid(disk: seq<Block>, tab: seq<Inode>, own: map<nat, Place>)
    requires Owned(disk, tab, own)
    ensures forall x :: x in own ==>
              own[x].n < |tab| && HasBlocks(tab[own[x].n]) && own[x].s < NADDR && ValidPath(Height(own[x].s), own[x].p)
  {
    forall x | x in own
      ensures own[x].n < |tab| && HasBlocks(tab[own[x].n]) && own[x].s < NADDR && ValidPath(Height(own[x].s), own[x].p)
    {
      assert At(disk, tab, own[x]) == x;
    }
  }

  // ---------- hanging a new block into a tree ----------

  ghost predicate Fresh(disk': seq<Block>, own: map<nat, Place>, nb: nat)
  {
    nb != 0 && nb !in own && (nb < |disk'| ==> disk'[nb] == Zero)
  }

  lemma {:induction false} GraftAt(disk: seq<Block>, disk': seq<Block>, tab: seq<Inode>, own: map<nat, Place>, q: Place, k: nat, nb: nat, z: Place)
    requires Owned(disk, tab, own) && Fresh(disk', own, nb) && |disk| == |disk'|
    requires At(disk, tab, q) != 0 && At(disk, tab, q) < |disk| && Above(q) > 0 && k < NINDIR
    requires Entry(disk, At(disk, tab, q), k) == 0
    requires AsAddrs(disk'[At(disk, tab, q)]) == AsAddrs(disk[At(disk, tab, q)])[k := nb]
    requires forall x :: x in own && x != At(disk, tab, q) && x < |disk| ==> disk'[x] == disk[x]
    ensures At(disk', tab, z) == if z == q.(p := q.p + [k]) then nb else At(disk, tab, z)
    decreases |z.p|
  {
    hide Owned, Entry, At;
    var leaf := q.(p := q.p + [k]);
    assert leaf.p[..|leaf.p| - 1] == q.p && leaf.p[|leaf.p| - 1] == k;
    AtEntry(disk, disk', tab, q);
    AtEntry(disk, disk', tab, leaf);
    AtEntry(disk, disk', tab, z);
    if z.n < |tab| && HasBlocks(tab[z.n]) && z.s < NADDR && ValidPath(Height(z.s), z.p) && z.p != [] {
      var up := z.(p := z.p[..|z.p| - 1]);
      var j := z.p[|z.p| - 1];
      assert z.p == up.p + [j];
      GraftAt(disk, disk', tab, own, q, k, nb, up);
      EntryKept(disk, disk', tab, own, q, k, nb, up, j);
    }
  }

  /** The block at a place below a slot is an entry of the block above it. */
  lemma AtEntry(disk: seq<Block>, disk': seq<Block>, tab: seq<Inode>, z: Place)
    ensures z.n < |tab| && HasBlocks(tab[z.n]) && z.s < NADDR && ValidPath(Height(z.s), z.p) && z.p != [] ==>
      var up, j := z.(p := z.p[..|z.p| - 1]), z.p[|z.p| - 1];
      && At(disk, tab, z) == Entry(disk, At(disk, tab, up), j) && At(disk', tab, z) == Entry(disk', At(disk', tab, up), j)
      && j < NINDIR
    ensures !(z.n < |tab| && HasBlocks(tab[z.n]) && z.s < NADDR && ValidPath(Height(z.s), z.p)) ==>
      At(disk, tab, z) == At(disk', tab, z) == 0
    ensures z.p == [] ==> At(disk, tab, z) == At(disk', tab, z)
  {
    hide Entry;
  }

  /** One entry, before and after: only entry k of the block at q differs, and nb is clear. */
  lemma EntryKept(disk: seq<Block>, disk': seq<Block>, tab: seq<Inode>, own: map<nat, Place>, q: Place, k: nat, nb: nat, up: Place, j: nat)
    requires Owned(disk, tab, own) && Fresh(disk', own, nb) && |disk| == |disk'|
    requires At(disk, tab, q) != 0 && At(disk, tab, q) < |disk| && k < NINDIR && j < NINDIR
    requires AsAddrs(disk'[At(disk, tab, q)]) == AsAddrs(disk[At(disk, tab, q)])[k := nb]
    requires forall x :: x in own && x != At(disk, tab, q) && x < |disk| ==> disk'[x] == disk[x]
    ensures Entry(disk', nb, j) == 0 == Entry(disk, 0, j) == Entry(disk', 0, j)
    ensures Entry(disk', At(disk, tab, up), j) == if up == q && j == k then nb else Entry(disk, At(disk, tab, up), j)
  {
    hide Owned, At;
    AtIsOwned(disk, tab, own, q);
    if At(disk, tab, up) != 0 { AtIsOwned(disk, tab, own, up); }
  }

  lemma AtIsOwned(disk: seq<Block>, tab: seq<Inode>, own: map<nat, Place>, q: Place)
    requires Owned(disk, tab, own) && At(disk, tab, q) != 0
    ensures At(disk, tab, q) in own && own[At(disk, tab, q)] == q
  {
  }

  lemma OneMore(disk: seq<Block>, disk': seq<Block>, tab: seq<Inode>, tab': seq<Inode>, own: map<nat, Place>, leaf: Place, nb: nat)
    requires Owned(disk, tab, own) && nb != 0 && nb !in own && At(disk, tab, leaf) == 0
    requires forall z :: At(disk', tab', z) == if z == leaf then nb else At(disk, tab, z)
    ensures Owned(disk', tab', own[nb := leaf])
  {
    hide At;
  }

  /** Storing a cleared, so far unowned block nb in an empty entry of an indirect block. */
  lemma GraftEntry(disk: seq<Block>, disk': seq<Block>, tab: seq<Inode>, own: map<nat, Place>, q: Place, k: nat, nb: nat)
    requires Owned(disk, tab, own) && Fresh(disk', own, nb) && |disk| == |disk'|
    requires At(disk, tab, q) != 0 && At(disk, tab, q) < |disk| && Above(q) > 0 && k < NINDIR
    requires Entry(disk, At(disk, tab, q), k) == 0
    requires AsAddrs(disk'[At(disk, tab, q)]) == AsAddrs(disk[At(disk, tab, q)])[k := nb]
    requires forall x :: x in own && x != At(disk, tab, q) && x < |disk| ==> disk'[x] == disk[x]
    ensures Owned(disk', tab, own[nb := q.(p := q.p + [k])])
    ensures forall z :: At(disk', tab, z) == if z == q.(p := q.p + [k]) then nb else At(disk, tab, z)
  {
    forall z ensures At(disk', tab, z) == if z == q.(p := q.p + [k]) then nb else At(disk, tab, z) {
      GraftAt(disk, disk', tab, own, q, k, nb, z);
    }
    var leaf := q.(p := q.p + [k]);
    assert leaf.p[..|leaf.p| - 1] == q.p;
    OneMore(disk, disk', tab, tab, own, leaf, nb);
  }

  lemma {:induction false} GraftTopAt(disk: seq<Block>, disk': seq<Block>, tab: seq<Inode>, tab': seq<Inode>, own: map<nat, Place>, n: nat, s: nat, nb: nat, z: Place)
    requires Owned(disk, tab, own) && Fresh(disk', own, nb) && |disk| == |disk'|
    requires n < |tab| && HasBlocks(tab[n]) && s < NADDR && tab[n].addr[s] == 0
    requires tab' == tab[n := tab[n].(addr := tab[n].addr[s := nb])]
    requires forall x :: x in own && x < |disk| ==> disk'[x] == disk[x]
    ensures At(disk', tab', z) == if z == Place(n, s, []) then nb else At(disk, tab, z)
    decreases |z.p|
  {
    hide Owned;
    if z.n < |tab| && HasBlocks(tab[z.n]) && z.s < NADDR && ValidPath(Height(z.s), z.p) && z.p != [] {
      var up := z.(p := z.p[..|z.p| - 1]);
      GraftTopAt(disk, disk', tab, tab', own, n, s, nb, up);
      if At(disk, tab, up) != 0 { AtIsOwned(disk, tab, own, up); }
    }
  }

  /** Storing a cleared, so far unowned block nb in an empty address slot of inode n. */
  lemma GraftTop(disk: seq<Block>, disk': seq<Block>, tab: seq<Inode>, tab': seq<Inode>, own: map<nat, Place>, n: nat, s: nat, nb: nat)
    requires Owned(disk, tab, own) && Fresh(disk', own, nb) && |disk| == |disk'|
    requires n < |tab| && HasBlocks(tab[n]) && s < NADDR && tab[n].addr[s] == 0
    requires tab' == tab[n := tab[n].(addr := tab[n].addr[s := nb])]
    requires forall x :: x in own && x < |disk| ==> disk'[x] == disk[x]
    ensures Owned(disk', tab', own[nb := Place(n, s, [])])
    ensures forall z :: At(disk', tab', z) == if z == Place(n, s, []) then nb else At(disk, tab, z)
  {
    forall z ensures At(disk', tab', z) == if z == Place(n, s, []) then nb else At(disk, tab, z) {
      GraftTopAt(disk, disk', tab, tab', own, n, s, nb, z);
    }
    OneMore(disk, disk', tab, tab', own, Place(n, s, []), nb);
  }

  // ---------- releasing a tree ----------

  ghost function Without(own: map<nat, Place>, n: nat): (own': map<nat, Place>)
    ensures forall x :: x in own' <==> x in own && own[x].n != n
    ensures forall x :: x in own' ==> own'[x] == own[x]
  {
    map x | x in own && own[x].n != n :: own[x]
  }

  /** An inode whose slots are all empty owns nothing; the other inodes keep what they have. */
  lemma Detach(disk: seq<Block>, disk': seq<Block>, tab: seq<Inode>, tab': seq<Inode>, own: map<nat, Place>, n: nat)
    requires Owned(disk, tab, own) && |disk| == |disk'| && |tab| == |tab'| && n < |tab|
    requires HasBlocks(tab'[n]) ==> forall s :: 0 <= s < NADDR ==> tab'[n].addr[s] == 0
    requires forall m :: 0 <= m < |tab| && m != n ==> tab'[m] == tab[m]
    requires forall x :: x in own && own[x].n != n && x < |disk| ==> disk'[x] == disk[x]
    ensures Owned(disk', tab', Without(own, n))
  {
    forall q ensures At(disk', tab', q) == if q.n == n then 0 else At(disk, tab, q) {
      if q.n == n {
        WalkZero(disk', q.p);
      } else if q.n < |tab| {
        AtFrame(disk, disk', tab, tab', own, q);
      }
    }
  }

  /** The blocks tloop frees below and at bn, in its order: entries from the last down to
      the first, each subtree before the next, bn itself at the end. */
  ghost function Post(disk: seq<Block>, bn: nat, h: nat): seq<nat>
    decreases h, NINDIR + 1
  {
    if bn == 0 then []
    else if h == 0 then [bn]
    else Kids(disk, bn, 0, h) + [bn]
  }

  /** The part of Post(disk, bn, h) that comes from entries NINDIR - 1 down to k. */
  ghost function Kids(disk: seq<Block>, bn: nat, k: nat, h: nat): seq<nat>
    requires k <= NINDIR && 0 < h
    decreases h, NINDIR - k
  {
    if k == NINDIR then []
    else Kids(disk, bn, k + 1, h) + Post(disk, Entry(disk, bn, k), h - 1)
  }

  /** The blocks itrunc frees from slots NADDR - 1 down to k. */
  ghost function Slots(disk: seq<Block>, addr: seq<nat>, k: nat): seq<nat>
    requires k <= NADDR && |addr| == NADDR
    decreases NADDR - k
  {
    if k == NADDR then [] else Slots(disk, addr, k + 1) + Post(disk, addr[k], Height(k))
  }

  lemma {:induction false} PostFrame(disk: seq<Block>, disk': seq<Block>, bn: nat, h: nat)
    requires |disk| == |disk'|
    requires forall x :: x in Post(disk, bn, h) && x < |disk| ==> disk[x] == disk'[x]
    ensures Post(disk', bn, h) == Post(disk, bn, h)
    decreases h, NINDIR + 1
  {
    if bn != 0 && h != 0 {
      assert bn in Post(disk, bn, h) && forall x :: x in Kids(disk, bn, 0, h) ==> x in Post(disk, bn, h);
      KidsFrame(disk, disk', bn, 0, h);
    }
  }

  lemma {:induction false} KidsFrame(disk: seq<Block>, disk': seq<Block>, bn: nat, k: nat, h: nat)
    requires |disk| == |disk'| && k <= NINDIR && 0 < h
    requires bn < |disk| ==> disk[bn] == disk'[bn]
    requires forall x :: x in Kids(disk, bn, k, h) && x < |disk| ==> disk[x] == disk'[x]
    ensures Kids(disk', bn, k, h) == Kids(disk, bn, k, h)
    decreases h, NINDIR - k
  {
    if k < NINDIR {
      KidsFrame(disk, disk', bn, k + 1, h);
      PostFrame(disk, disk', Entry(disk, bn, k), h - 1);
    }
  }

  lemma PostUnfold(disk: seq<Block>, bn: nat, h: nat)
    ensures bn == 0 ==> Post(disk, bn, h) == []
    ensures bn != 0 && h == 0 ==> Post(disk, bn, h) == [bn]
    ensures bn != 0 && h != 0 ==> Post(disk, bn, h) == Kids(disk, bn, 0, h) + [bn]
    ensures bn != 0 ==> bn in Post(disk, bn, h)
  {
  }

  lemma KidsNone(disk: seq<Block>, bn: nat, h: nat)
    requires 0 < h
    ensures Kids(disk, bn, NINDIR, h) == []
  {
  }

  /** The list for entries k and up is the beginning of the list for all entries. */
  lemma {:induction false} KidsPrefix(disk: seq<Block>, bn: nat, k: nat, h: nat)
    requires k <= NINDIR && 0 < h
    ensures Kids(disk, bn, k, h) <= Kids(disk, bn, 0, h)
    decreases k
  {
    if k > 0 { KidsPrefix(disk, bn, k - 1, h); }
  }

  lemma AfterPrefix(all: seq<nat>, a: seq<nat>, c: seq<nat>)
    requires Distinct(all) && a + c <= all
    ensures Distinct(c) && forall x :: x in c ==> x !in a && x in all
  {
    var t := a + c;
    assert forall i :: 0 <= i < |t| ==> all[i] == t[i];
    forall i, j | 0 <= i < j < |c| ensures c[i] != c[j] {
      assert t[|a| + i] == c[i] && t[|a| + j] == c[j];
    }
    forall i | 0 <= i < |c| ensures c[i] !in a && c[i] in all {
      assert t[|a| + i] == c[i] && all[|a| + i] == c[i];
      forall j | 0 <= j < |a| ensures a[j] != c[i] {
        assert t[j] == a[j] && all[j] == a[j];
      }
    }
  }

  /** The next subtree tloop frees is new: distinct in itself and from all freed before. */
  lemma KidsStep(disk: seq<Block>, bn: nat, k: nat, h: nat, all: seq<nat>, before: seq<nat>, kid: seq<nat>, after: seq<nat>)
    requires k < NINDIR && 0 < h && bn != 0 && all == Post(disk, bn, h) && Distinct(all)
    requires before == Kids(disk, bn, k + 1, h) && kid == Post(disk, Entry(disk, bn, k), h - 1)
    requires after == Kids(disk, bn, k, h)
    ensures after == before + kid && Distinct(kid)
    ensures forall x :: x in kid ==> x !in before && x in all && x != bn
  {
    KidsPrefix(disk, bn, k, h);
    var kids := Kids(disk, bn, 0, h);
    AfterPrefix(all, kids, [bn]);
    assert bn in [bn];
    assert kids <= all;
    AfterPrefix(all, before, kid);
    forall i | 0 <= i < |kid| ensures kid[i] != bn {
      assert after[|before| + i] == kid[i] == kids[|before| + i];
    }
  }

  /** The last block freed is the indirect block itself. */
  lemma KidsLast(disk: seq<Block>, bn: nat, h: nat, all: seq<nat>, kids: seq<nat>)
    requires 0 < h && bn != 0 && all == Post(disk, bn, h) && Distinct(all) && kids == Kids(disk, bn, 0, h)
    ensures all == kids + [bn] && bn !in kids
  {
    AfterPrefix(all, kids, [bn]);
    assert bn in [bn];
  }

  lemma {:induction false} SlotsPrefix(disk: seq<Block>, addr: seq<nat>, j: nat, k: nat)
    requires j <= k <= NADDR && |addr| == NADDR
    ensures Slots(disk, addr, k) <= Slots(disk, addr, j)
    decreases k - j
  {
    if j < k { SlotsPrefix(disk, addr, j + 1, k); }
  }

  lemma SlotsStep(disk: seq<Block>, addr: seq<nat>, k: nat, all: seq<nat>, before: seq<nat>, tree: seq<nat>, after: seq<nat>)
    requires k < NADDR && |addr| == NADDR && all == Slots(disk, addr, 0) && Distinct(all)
    requires before == Slots(disk, addr, k + 1) && tree == Post(disk, addr[k], Height(k)) && after == Slots(disk, addr, k)
    ensures after == before + tree && Distinct(tree)
    ensures forall x :: x in tree ==> x !in before && x in all
  {
    SlotsPrefix(disk, addr, 0, k);
    AfterPrefix(all, before, tree);
  }

  lemma SlotsNone(disk: seq<Block>, addr: seq<nat>)
    requires |addr| == NADDR
    ensures Slots(disk, addr, NADDR) == []
  {
  }

  /** x is owned at a place at or below place q. */
  ghost predicate Under(own: map<nat, Place>, q: Place, x: nat)
  {
    x in own && own[x].n == q.n && own[x].s == q.s && q.p <= own[x].p
  }

  /** tloop's list names exactly the blocks owned at or below q, each once. */
  lemma {:induction false} PostIsSubtree(disk: seq<Block>, tab: seq<Inode>, own: map<nat, Place>, q: Place)
    requires Owned(disk, tab, own)
    requires q.n < |tab| && HasBlocks(tab[q.n]) && q.s < NADDR && ValidPath(Height(q.s), q.p)
    ensures forall x :: x in Post(disk, At(disk, tab, q), Above(q)) <==> Under(own, q, x)
    ensures Distinct(Post(disk, At(disk, tab, q), Above(q)))
    decreases Above(q), NINDIR + 1
  {
    var bn := At(disk, tab, q);
    if bn == 0 {
      forall x | Under(own, q, x) ensures false {
        WalkPrefix(disk, tab[q.n].addr[q.s], q.p, own[x].p);
      }
    } else {
      assert own[bn] == q;
      forall x | Under(own, q, x) && |own[x].p| == |q.p| ensures x == bn {
        assert own[x] == q;
      }
      if Above(q) == 0 {
        forall x | Under(own, q, x) ensures |own[x].p| == |q.p| {
          assert At(disk, tab, own[x]) != 0;
        }
      } else {
        KidsAreSubtrees(disk, tab, own, q, 0);
        var kids := Kids(disk, bn, 0, Above(q));
        assert forall x :: x in kids ==> |own[x].p| > |q.p|;
        DistinctConcat(kids, [bn]);
      }
    }
  }

  ghost predicate UnderFrom(own: map<nat, Place>, q: Place, k: nat, x: nat)
  {
    Under(own, q, x) && |q.p| < |own[x].p| && k <= own[x].p[|q.p|]
  }

  lemma {:induction false} KidsAreSubtrees(disk: seq<Block>, tab: seq<Inode>, own: map<nat, Place>, q: Place, k: nat)
    requires Owned(disk, tab, own) && k <= NINDIR
    requires q.n < |tab| && HasBlocks(tab[q.n]) && q.s < NADDR && ValidPath(Height(q.s), q.p)
    requires Above(q) > 0 && At(disk, tab, q) != 0
    ensures forall x :: x in Kids(disk, At(disk, tab, q), k, Above(q)) <==> UnderFrom(own, q, k, x)
    ensures Distinct(Kids(disk, At(disk, tab, q), k, Above(q)))
    decreases Above(q), NINDIR - k
  {
    if k == NINDIR {
      NoneFrom(disk, tab, own, q);
    } else {
      hide Distinct, Under, UnderFrom, Owned;
      KidsAreSubtrees(disk, tab, own, q, k + 1);
      var kid := q.(p := q.p + [k]);
      KidAt(disk, tab, own, q, k);
      PostIsSubtree(disk, tab, own, kid);
      JoinSubtrees(own, q, k, Kids(disk, At(disk, tab, q), k + 1, Above(q)), Post(disk, At(disk, tab, kid), Above(kid)));
    }
  }

  lemma NoneFrom(disk: seq<Block>, tab: seq<Inode>, own: map<nat, Place>, q: Place)
    requires Owned(disk, tab, own)
    requires q.n < |tab| && HasBlocks(tab[q.n]) && q.s < NADDR
    ensures forall x :: !UnderFrom(own, q, NINDIR, x)
  {
    PlacesAreValid(disk, tab, own);
  }

  lemma KidAt(disk: seq<Block>, tab: seq<Inode>, own: map<nat, Place>, q: Place, k: nat)
    requires q.n < |tab| && HasBlocks(tab[q.n]) && q.s < NADDR && ValidPath(Height(q.s), q.p)
    requires Above(q) > 0 && k < NINDIR
    ensures At(disk, tab, q.(p := q.p + [k])) == Entry(disk, At(disk, tab, q), k)
    ensures ValidPath(Height(q.s), q.p + [k]) && Above(q.(p := q.p + [k])) == Above(q) - 1
  {
    assert (q.p + [k])[..|q.p|] == q.p;
  }

  lemma JoinSubtrees(own: map<nat, Place>, q: Place, k: nat, before: seq<nat>, tree: seq<nat>)
    requires Distinct(before) && Distinct(tree)
    requires forall x :: x in before <==> UnderFrom(own, q, k + 1, x)
    requires forall x :: x in tree <==> Under(own, q.(p := q.p + [k]), x)
    ensures Distinct(before + tree) && forall x :: x in before + tree <==> UnderFrom(own, q, k, x)
  {
    hide Under, UnderFrom;
    forall x ensures x in before + tree <==> UnderFrom(own, q, k, x) {
      SplitPrefix(own, q, k, x);
    }
    forall x | x in before ensures x !in tree {
      SplitPrefix(own, q, k, x);
    }
    DistinctConcat(before, tree);
  }

  lemma SplitPrefix(own: map<nat, Place>, q: Place, k: nat, x: nat)
    ensures UnderFrom(own, q, k, x) <==> UnderFrom(own, q, k + 1, x) || Under(own, q.(p := q.p + [k]), x)
    ensures !(UnderFrom(own, q, k + 1, x) && Under(own, q.(p := q.p + [k]), x))
  {
    if x in own && |q.p| < |own[x].p| {
      var p := own[x].p;
      assert p[..|q.p| + 1] == p[..|q.p|] + [p[|q.p|]];
      if q.p + [k] <= p {
        assert p[..|q.p| + 1] == q.p + [k];
        assert p[..|q.p|] == q.p;
      }
    }
  }

  lemma DistinctConcat(a: seq<nat>, c: seq<nat>)
    requires Distinct(a) && Distinct(c) && forall x :: x in a ==> x !in c
    ensures Distinct(a + c)
  {
    var b := a + c;
    forall i, j | 0 <= i < j < |b| ensures b[i] != b[j] {
      if j < |a| {
        assert b[i] == a[i] && b[j] == a[j];
      } else if i < |a| {
        assert b[i] == a[i] && b[j] == c[j - |a|];
        assert a[i] in a && c[j - |a|] in c;
      } else {
        assert b[i] == c[i - |a|] && b[j] == c[j - |a|];
      }
    }
  }

  /** itrunc's list names exactly the blocks of inode n in slots k and up, each once. */
  lemma {:induction false} SlotsAreTrees(disk: seq<Block>, tab: seq<Inode>, own: map<nat, Place>, n: nat, k: nat)
    requires Owned(disk, tab, own) && n < |tab| && HasBlocks(tab[n]) && k <= NADDR
    ensures forall x :: x in Slots(disk, tab[n].addr, k) <==> x in own && own[x].n == n && k <= own[x].s
    ensures Distinct(Slots(disk, tab[n].addr, k))
    decreases NADDR - k
  {
    if k == NADDR {
      PlacesAreValid(disk, tab, own);
    } else {
      SlotsAreTrees(disk, tab, own, n, k + 1);
      var q := Place(n, k, []);
      PostIsSubtree(disk, tab, own, q);
      assert At(disk, tab, q) == tab[n].addr[k];
      forall x ensures Under(own, q, x) <==> x in own && own[x].n == n && own[x].s == k {
      }
      DistinctConcat(Slots(disk, tab[n].addr, k + 1), Post(disk, tab[n].addr[k], Height(k)));
    }
  }

  /** The inodes on disk are those in force, inode n excepted. Inodes are numbered from 1. */
  ghost predicate OnDisk(disk: seq<Block>, tab: seq<Inode>, n: nat)
  {
    && (0 < |tab| ==> tab[0].kind == Unused)
    && forall m :: 1 <= m < |tab| && m != n ==> DiskInode(disk, m) == tab[m]
  }

  lemma OnDiskFrame(disk: seq<Block>, disk': seq<Block>, tab: seq<Inode>, tab': seq<Inode>, isize: nat, n: nat)
    requires OnDisk(disk, tab, n) && |disk'| == |disk| && |tab'| == |tab|
    requires 2 <= isize && |tab| <= (isize - 2) * INOPB + 1
    requires 0 < |tab| ==> tab'[0] == tab[0]
    requires forall m :: 1 <= m < |tab| && m != n ==> tab'[m] == tab[m]
    requires forall x :: 2 <= x < isize && x < |disk| ==> disk'[x] == disk[x]
    ensures OnDisk(disk', tab', n)
  {
    forall m | 1 <= m < |tab| && m != n ensures DiskInode(disk', m) == tab'[m] {
      InodesFrame(disk, disk', isize, m);
    }
  }

  /** Inodes without addresses own nothing. */
  lemma NothingOwned(disk: seq<Block>, tab: seq<Inode>)
    requires forall m :: 0 <= m < |tab| ==> tab[m].addr == NoAddrs()
    ensures Owned(disk, tab, map[])
  {
    forall q ensures At(disk, tab, q) == 0 {
      WalkZero(disk, q.p);
    }
  }

  /** Cleared inode blocks hold unused inodes. */
  lemma BlankOnDisk(disk: seq<Block>, tab: seq<Inode>, isize: nat)
    requires 2 <= isize <= |disk| && |tab| == (isize - 2) * INOPB + 1
    requires forall x :: 2 <= x < isize ==> disk[x] == Zero
    requires forall m :: 0 <= m < |tab| && m != 1 ==> tab[m] == FreeInode()
    ensures OnDisk(disk, tab, 1)
  {
    forall m | 1 <= m < |tab| && m != 1 ensures DiskInode(disk, m) == tab[m] {
      InodesFrame(disk, disk, isize, m);
    }
  }

  // ---------- the block cache ----------

  /** blk[j] != 0 always means: b[j] equals that block on disk, an indirect block in use at the
      level this buffer serves. */
  ghost predicate Cached(disk: seq<Block>, b: seq<Block>, blk: seq<nat>, own: map<nat, Place>)
  {
    && |b| == NBUFS && |blk| == NBUFS
    && forall j :: 1 <= j < NBUFS && blk[j] != 0 ==>
         && blk[j] in own && blk[j] < |disk|
         && Above(own[blk[j]]) == NBUFS - j
         && b[j] == disk[blk[j]]
  }

  lemma CachedFrame(disk: seq<Block>, disk': seq<Block>, b: seq<Block>, b': seq<Block>, blk: seq<nat>, own: map<nat, Place>, own': map<nat, Place>)
    requires Cached(disk, b, blk, own) && |disk'| == |disk| && |b'| == NBUFS && b'[1..] == b[1..]
    requires forall x :: x in own ==> x in own' && own'[x] == own[x]
    requires forall x :: 0 <= x < |disk| && x in own && Above(own[x]) > 0 ==> disk'[x] == disk[x]
    ensures Cached(disk', b', blk, own')
  {
    forall j | 1 <= j < NBUFS ensures b'[j] == b[j] {
      assert b'[j] == b'[1..][j - 1] && b[j] == b[1..][j - 1];
    }
  }

  lemma CachedLoad(disk: seq<Block>, b: seq<Block>, blk: seq<nat>, own: map<nat, Place>, j: nat, nb: nat)
    requires Cached(disk, b, blk, own) && 1 <= j < NBUFS
    requires 0 < nb < |disk| && nb in own && Above(own[nb]) == NBUFS - j
    ensures Cached(disk, b[j := disk[nb]], blk[j := nb], own)
    ensures |b| == NBUFS && |blk| == NBUFS && (blk[j] == nb ==> b[j] == disk[nb])
  {
  }

  /** Rewriting a cached block through its buffer keeps the cache exact: no other buffer can
      hold the same block, since each level has its own. */
  lemma CachedStore(disk: seq<Block>, b: seq<Block>, blk: seq<nat>, own: map<nat, Place>, j: nat, blkv: Block)
    requires Cached(disk, b, blk, own) && 1 <= j < NBUFS && blk[j] != 0
    ensures Cached(disk[blk[j] := blkv], b[j := blkv], blk, own)
  {
  }

  lemma ReturnedCovers(own: map<nat, Place>, L: seq<nat>, back: seq<nat>, lo: nat, hi: nat, n: nat)
    requires Covers(own, L, lo, hi)
    requires forall x :: x in back <==> x in own && own[x].n == n && 0 <= own[x].s
    ensures Covers(Without(own, n), L + back, lo, hi)
  {
    forall x ensures x in L + back <==> x in L || x in back {
    }
  }

  // ---------- growing one file ----------

  /** What an operation on the block maps looks at: the disk, the inodes in force, the owner
      of each block in use and the free stack. */
  datatype Vol = Vol(disk: seq<Block>, tab: seq<Inode>, own: map<nat, Place>, free: seq<nat>)

  ghost function Look(v: Vol, z: Place): nat { At(v.disk, v.tab, z) }

  /** z lies on the way to file block bn of inode n. */
  ghost predicate OnPath(z: Place, n: nat, bn: nat)
  {
    z.n == n && bn < MAXBN && z.s == SlotOf(bn) && z.p <= PathOf(bn)
  }

  /** w is v with the cleared top block nb of the free stack hung at place z. */
  ghost predicate Filled(v: Vol, w: Vol, z: Place, nb: nat)
  {
    && |w.disk| == |v.disk| && |w.tab| == |v.tab|
    && v.free == w.free + [nb] && nb !in v.own && w.own == v.own[nb := z]
    && (forall m :: 0 <= m < |v.tab| && m != z.n ==> w.tab[m] == v.tab[m])
    && (z.n < |v.tab| ==> w.tab[z.n] == v.tab[z.n].(addr := w.tab[z.n].addr) && |w.tab[z.n].addr| == |v.tab[z.n].addr|)
    && (forall y :: Look(w, y) == if y == z then nb else Look(v, y))
    && (forall x :: 0 <= x < |v.disk| && x != SUPERB && x != nb && !(x in v.own && Above(v.own[x]) > 0 && v.own[x].n == z.n) ==> w.disk[x] == v.disk[x])
    && nb < |w.disk| && w.disk[nb] == Zero
  }

  /** Nothing changed but the superblock, and there is no free block. */
  ghost predicate Starved(v: Vol, w: Vol)
  {
    && v.free == [] && w.free == [] && w.tab == v.tab && w.own == v.own
    && SUPERB < |v.disk| && |w.disk| == |v.disk| && w.disk == v.disk[SUPERB := w.disk[SUPERB]]
  }

  /** From v to w only empty places on the way to block bn of inode n were filled, with
      cleared blocks from the top of the free stack. */
  ghost predicate Grew(v: Vol, w: Vol, n: nat, bn: nat)
  {
    && |w.disk| == |v.disk| && |w.tab| == |v.tab|
    && w.free <= v.free
    && (forall m :: 0 <= m < |v.tab| && m != n ==> w.tab[m] == v.tab[m])
    && (n < |v.tab| ==> w.tab[n] == v.tab[n].(addr := w.tab[n].addr) && |w.tab[n].addr| == |v.tab[n].addr|)
    && (forall x :: x in v.own ==> x in w.own && w.own[x] == v.own[x])
    && (forall z :: Look(w, z) != Look(v, z) ==> Look(v, z) == 0 && OnPath(z, n, bn))
    && (forall x :: 0 <= x < |v.disk| && x in v.own && (Above(v.own[x]) <= 0 || v.own[x].n != n) ==> w.disk[x] == v.disk[x])
    && (forall x :: 0 <= x < |v.disk| && x != SUPERB && x !in v.own && x !in v.free ==> w.disk[x] == v.disk[x])
    && (forall x :: 0 <= x < |v.disk| && x in w.own && x !in v.own && Above(w.own[x]) <= 0 ==> w.disk[x] == Zero)
    && (forall x :: x in w.own && x !in v.own ==> x in v.free)
  }

  /** The entry form of Filled: nb cleared, then stored in entry k of the block at q. */
  lemma EntryFilled(v: Vol, w: Vol, q: Place, k: nat, nb: nat)
    requires Owned(v.disk, v.tab, v.own) && |w.disk| == |v.disk| && w.tab == v.tab
    requires v.free == w.free + [nb] && nb !in v.own && w.own == v.own[nb := q.(p := q.p + [k])]
    requires 0 < nb < |v.disk| && SUPERB !in v.own && nb != SUPERB
    requires Look(v, q) != 0 && Look(v, q) < |v.disk| && Above(q) > 0 && k < NINDIR
    requires AsAddrs(v.disk[Look(v, q)])[k] == 0
    requires SUPERB < |v.disk| && w.disk[nb] == Zero
    requires w.disk[Look(v, q)] == Addrs(AsAddrs(v.disk[Look(v, q)])[k := nb])
    requires forall x :: 0 <= x < |v.disk| && x != SUPERB && x != nb && x != Look(v, q) ==> w.disk[x] == v.disk[x]
    ensures Owned(w.disk, w.tab, w.own)
    ensures Filled(v, w, q.(p := q.p + [k]), nb)
  {
    GraftEntry(v.disk, w.disk, v.tab, v.own, q, k, nb);
    assert v.own[Look(v, q)] == q;
  }

  lemma FilledGrew(v: Vol, w: Vol, z: Place, nb: nat, n: nat, bn: nat)
    requires Filled(v, w, z, nb) && OnPath(z, n, bn) && Look(v, z) == 0
    requires SUPERB !in v.own && SUPERB !in v.free
    ensures Grew(v, w, n, bn) && Look(w, z) == nb
  {
    assert nb in v.free;
  }

  lemma StarvedGrew(v: Vol, w: Vol, n: nat, bn: nat)
    requires Starved(v, w) && Owned(v.disk, v.tab, v.own)
    requires SUPERB !in v.own
    ensures Grew(v, w, n, bn) && forall z :: Look(w, z) == Look(v, z)
  {
    OwnedFrame(v.disk, w.disk, v.tab, w.tab, v.own);
  }

  lemma GrewNot(v: Vol, n: nat, bn: nat)
    ensures Grew(v, v, n, bn)
  {
  }

  lemma GrewTwice(u: Vol, v: Vol, w: Vol, n: nat, bn: nat)
    requires Grew(u, v, n, bn) && Grew(v, w, n, bn)
    requires forall x :: x in u.free ==> x !in u.own
    requires forall x :: x in u.free && x !in v.free ==> x in v.own || x == SUPERB
    requires SUPERB !in u.own && SUPERB !in w.own
    ensures Grew(u, w, n, bn)
  {
    assert forall x :: x in v.free ==> x in u.free;
  }
}
