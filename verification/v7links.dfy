/** Names and link counts: the named directories form a tree that hangs from the root, every name leads to an
    inode in use, and link counts agree with the names. */
module V7Links {
  import opened V7Layout
  import opened V7BlockMap
  import opened V7Content
  import opened V7Calls
  import opened V7Room
  import V7Dir

  /** A name as it stands in a slot, other than "." and "..". */
  predicate Ordinary(y: seq<byte>) { V7Dir.Key(y) == y && y != [] && !IsDot(y) }

  /** The live entries that name inode n under an ordinary name: directory and name of each. */
  ghost function NamesOf(v: Vol, n: nat): set<(nat, seq<byte>)>
  {
    set m: nat, k: nat | 1 <= m < |v.tab| && v.tab[m].kind == Directory && k < V7Dir.Slots(Content(v.disk, v.tab[m]))
      && V7Dir.InoAt(Content(v.disk, v.tab[m]), k) == n && Ordinary(V7Dir.NameAt(Content(v.disk, v.tab[m]), k))
      :: (m, V7Dir.NameAt(Content(v.disk, v.tab[m]), k))
  }

  /** They are the names that dlook answers n for. */
  lemma NamesAre(v: Vol, n: nat)
    requires DirsOk(v) && n != 0
    ensures forall m: nat, y :: (m, y) in NamesOf(v, n) <==> Ordinary(y) && LookIn(v, m, y) == n
  {
    forall m: nat, y ensures (m, y) in NamesOf(v, n) <==> Ordinary(y) && LookIn(v, m, y) == n {
      NameIs(v, n, m, y);
    }
  }

  lemma NameIs(v: Vol, n: nat, m: nat, y: seq<byte>)
    requires DirsOk(v) && n != 0
    ensures (m, y) in NamesOf(v, n) <==> Ordinary(y) && LookIn(v, m, y) == n
  {
    hide V7Dir.Key, V7Dir.NameAt, V7Dir.InoAt, V7Dir.Lookup, V7Dir.Sound, IsDot, HoleFree;
    if 1 <= m < |v.tab| && v.tab[m].kind == Directory {
      assert DirOk(v.disk, v.tab, m);
      V7Dir.LookupIsLive(Content(v.disk, v.tab[m]), |v.tab| - 1, y, n);
    }
  }

  /** The root, or an inode with a name. */
  ghost predicate Anchored(v: Vol, d: nat)
  {
    1 <= d < |v.tab| && (d == ROOTINO || NamesOf(v, d) != {})
  }

  /** The directories that have a name in directory d. */
  ghost function Subs(v: Vol, d: nat): set<nat>
  {
    set e | 1 <= e < |v.tab| && v.tab[e].kind == Directory && exists y :: (d, y) in NamesOf(v, e)
  }

  /** "." is the directory itself, ".." the one that its name is in. */
  ghost predicate DotsOk(v: Vol, d: nat)
  {
    && LookIn(v, d, V7Dir.DOT) == d
    && if d == ROOTINO then LookIn(v, d, V7Dir.DOTDOT) == ROOTINO
       else exists y :: (LookIn(v, d, V7Dir.DOTDOT), y) in NamesOf(v, d)
  }

  /** An inode with names is in use; a directory has one name, any other inode as many as its link count
      says. */
  ghost predicate Counted(v: Vol, n: nat)
    requires n < |v.tab|
  {
    NamesOf(v, n) != {} ==>
      v.tab[n].kind != Unused && |NamesOf(v, n)| == if v.tab[n].kind == Directory then 1 else v.tab[n].nlink
  }

  /** The directories whose ".." is directory d, named or not. */
  ghost function Kids(v: Vol, d: nat): set<nat>
  {
    set e | 1 <= e < |v.tab| && e != ROOTINO && v.tab[e].kind == Directory && LookIn(v, e, V7Dir.DOTDOT) == d
  }

  /** A directory of the tree has a link for its name, one for its "." and one for the ".." of every directory
      in it; what it has beyond that are links of directories that a failed mkdir left without a name. */
  ghost predicate DirCounted(v: Vol, d: nat)
    requires d < |v.tab|
  {
    Anchored(v, d) && v.tab[d].kind == Directory ==>
      DotsOk(v, d) && 2 + |Subs(v, d)| <= v.tab[d].nlink <= 2 + |Kids(v, d)|
  }

  /** The directory k steps of ".." above d. */
  ghost function Up(v: Vol, d: nat, k: nat): nat
    decreases k
  {
    if k == 0 then d else Up(v, LookIn(v, d, V7Dir.DOTDOT), k - 1)
  }

  ghost predicate Climbs(v: Vol, d: nat) { exists k: nat :: Up(v, d, k) == ROOTINO }

  /** From every directory of the tree some steps of ".." lead to the root. */
  ghost predicate Rooted(v: Vol)
  {
    forall d: nat :: Anchored(v, d) && v.tab[d].kind == Directory ==> Climbs(v, d)
  }

  ghost predicate Tree(v: Vol)
  {
    && ROOTINO < |v.tab| && v.tab[ROOTINO].kind == Directory && NamesOf(v, ROOTINO) == {}
    && (forall n :: 1 <= n < |v.tab| ==> Counted(v, n) && DirCounted(v, n))
    && (forall m: nat, y :: Ordinary(y) && LookIn(v, m, y) != 0 ==> Anchored(v, m))
    && Rooted(v)
  }

  // ---------- paths stay in the tree ----------

  lemma {:induction false} KeyIdem(s: seq<byte>, n: nat)
    ensures V7Dir.KeyUpTo(V7Dir.KeyUpTo(s, n), n) == V7Dir.KeyUpTo(s, n)
  {
    if V7Dir.KeyUpTo(s, n) != [] {
      KeyIdem(s[1..], n - 1);
      assert V7Dir.KeyUpTo(s, n)[1..] == V7Dir.KeyUpTo(s[1..], n - 1);
    }
  }

  lemma OrdinaryKey(name: seq<byte>)
    ensures V7Dir.Key(V7Dir.Key(name)) == V7Dir.Key(name)
    ensures V7Dir.Key(name) != [] && !IsDot(name) ==> Ordinary(V7Dir.Key(name))
  {
    KeyIdem(name, V7Dir.DIRSIZ);
  }

  /** One step of a path from the tree leads into the tree. */
  lemma StepAnchored(v: Vol, d: nat, name: seq<byte>)
    requires Tree(v) && DirsOk(v) && Anchored(v, d) && LookIn(v, d, name) != 0
    ensures Anchored(v, LookIn(v, d, name))
  {
    hide V7Dir.Key, Content, NamesOf;
    var n, key := LookIn(v, d, name), V7Dir.Key(name);
    assert v.tab[d].kind == Directory && key != [] by { InDirectory(v, d, name); }
    LookInBounded(v, d, name);
    hide LookIn;
    if key == V7Dir.Key(V7Dir.DOT) {
      SameKey(v, d, name, V7Dir.DOT);
      assert DirCounted(v, d);
    } else if key == V7Dir.Key(V7Dir.DOTDOT) {
      SameKey(v, d, name, V7Dir.DOTDOT);
      assert DirCounted(v, d);
      if d != ROOTINO {
        var y :| (n, y) in NamesOf(v, d);
        NamesAre(v, d);
      }
    } else {
      OrdinaryKey(name);
      SameKey(v, d, key, name);
      NamesAre(v, n);
      assert (d, key) in NamesOf(v, n);
    }
  }

  lemma InDirectory(v: Vol, d: nat, name: seq<byte>)
    requires LookIn(v, d, name) != 0
    ensures 1 <= d < |v.tab| && v.tab[d].kind == Directory && V7Dir.Key(name) != []
  {
  }

  lemma {:induction false} PathAnchored(v: Vol, d: nat, path: Path)
    requires Tree(v) && DirsOk(v) && Anchored(v, d) && Resolve(v, d, path) != 0
    ensures Anchored(v, Resolve(v, d, path))
    decreases |path|
  {
    if path != [] {
      hide Tree, DirsOk, Anchored, LookIn;
      StepAnchored(v, d, path[0]);
      PathAnchored(v, LookIn(v, d, path[0]), path[1..]);
    }
  }

  lemma ParentAnchored(v: Vol, path: Path)
    requires Tree(v) && DirsOk(v) && ParentOf(v, path) != 0
    ensures Anchored(v, ParentOf(v, path))
  {
    if |path| > 1 {
      PathAnchored(v, ROOTINO, path[..|path| - 1]);
    }
  }

  /** The parent of a directory of the tree is one too, and the directory is in it. */
  lemma ParentIn(v: Vol, d: nat) returns (y: seq<byte>)
    requires Tree(v) && DirsOk(v) && Anchored(v, d) && v.tab[d].kind == Directory && d != ROOTINO
    ensures var e := LookIn(v, d, V7Dir.DOTDOT);
      Anchored(v, e) && v.tab[e].kind == Directory && Ordinary(y) && LookIn(v, e, y) == d
  {
    hide LookIn, NamesOf, V7Dir.Key, DirsOk, Ordinary;
    assert DirCounted(v, d);
    var e := LookIn(v, d, V7Dir.DOTDOT);
    y :| (e, y) in NamesOf(v, d);
    NamesAre(v, d);
    InDirectory(v, e, y);
  }

  lemma {:induction false} ResolveSnoc(v: Vol, d: nat, path: Path, y: seq<byte>)
    requires Resolve(v, d, path) != 0
    ensures Resolve(v, d, path + [y]) == LookIn(v, Resolve(v, d, path), y)
    decreases |path|
  {
    hide LookIn;
    if path == [] {
      assert [y][1..] == [];
    } else {
      assert (path + [y])[0] == path[0] && (path + [y])[1..] == path[1..] + [y];
      ResolveSnoc(v, LookIn(v, d, path[0]), path[1..], y);
    }
  }

  /** A directory from which k steps lead up to the root has a path that leads down to it. */
  lemma {:induction false} PathDown(v: Vol, d: nat, k: nat) returns (path: Path)
    requires Tree(v) && DirsOk(v) && Anchored(v, d) && v.tab[d].kind == Directory && Up(v, d, k) == ROOTINO
    ensures Resolve(v, ROOTINO, path) == d
    decreases k
  {
    hide LookIn, Tree, DirsOk, Anchored, Ordinary;
    if d == ROOTINO {
      path := [];
    } else {
      AnchoredNotZero(v, d);
      var y := ParentIn(v, d);
      AnchoredNotZero(v, LookIn(v, d, V7Dir.DOTDOT));
      path := PathDown(v, LookIn(v, d, V7Dir.DOTDOT), k - 1);
      ResolveSnoc(v, ROOTINO, path, y);
      path := path + [y];
    }
  }

  lemma AnchoredNotZero(v: Vol, d: nat)
    ensures Anchored(v, d) ==> 1 <= d < |v.tab|
  {
  }

  /** In a tree the inodes that paths from the root lead to are exactly the root and the named ones. */
  lemma Reachable(v: Vol, n: nat)
    requires Tree(v) && DirsOk(v) && n != 0
    ensures Anchored(v, n) <==> exists path: Path :: Resolve(v, ROOTINO, path) == n
  {
    RootAnchored(v);
    if path: Path :| Resolve(v, ROOTINO, path) == n {
      PathAnchored(v, ROOTINO, path);
    }
    if Anchored(v, n) {
      var path := PathTo(v, n);
    }
  }

  lemma PathTo(v: Vol, n: nat) returns (path: Path)
    requires Tree(v) && DirsOk(v) && Anchored(v, n)
    ensures Resolve(v, ROOTINO, path) == n
  {
    hide LookIn, NamesOf, DirsOk, Ordinary, Resolve;
    if v.tab[n].kind == Directory {
      assert Climbs(v, n);
      var k: nat :| Up(v, n, k) == ROOTINO;
      path := PathDown(v, n, k);
    } else {
      var at :| at in NamesOf(v, n);
      NamesAre(v, n);
      assert (at.0, at.1) in NamesOf(v, n);
      InDirectory(v, at.0, at.1);
      assert Climbs(v, at.0);
      var k: nat :| Up(v, at.0, k) == ROOTINO;
      path := PathDown(v, at.0, k);
      AnchoredNotZero(v, at.0);
      ResolveSnoc(v, ROOTINO, path, at.1);
      path := path + [at.1];
    }
  }

  /** Where every directory has a name, link counts of directories are exact. */
  lemma ExactLinks(v: Vol, d: nat)
    requires Tree(v) && DirsOk(v) && Anchored(v, d) && v.tab[d].kind == Directory
    requires forall e :: 1 <= e < |v.tab| && v.tab[e].kind == Directory ==> Anchored(v, e)
    ensures v.tab[d].nlink == 2 + |Subs(v, d)|
  {
    hide LookIn, NamesOf, DirsOk, Ordinary;
    assert DirCounted(v, d);
    forall e | e in Kids(v, d) ensures e in Subs(v, d) {
      assert DirCounted(v, e);
    }
    Fewer(Kids(v, d), Subs(v, d));
  }

  // ---------- what a call does to the names ----------

  /** The sets of names after one name in directory p came to mean n instead of o. */
  lemma NamesAfter(v: Vol, w: Vol, p: nat, name: seq<byte>, o: nat, n: nat, q: nat)
    requires DirsOk(v) && DirsOk(w) && Rebinds(v, w, p, name, n, q) && p != q
    requires o == LookIn(v, p, name) && V7Dir.Key(name) != [] && !IsDot(name)
    requires forall y :: Ordinary(y) ==> LookIn(v, q, y) == LookIn(w, q, y) == 0
    ensures var at := (p, V7Dir.Key(name));
      && (forall x :: 1 <= x ==> NamesOf(w, x) == (NamesOf(v, x) - {at}) + if x == n then {at} else {})
      && (forall x :: 1 <= x ==> (at in NamesOf(v, x) <==> x == o))
    ensures forall m: nat, y :: Ordinary(y) && LookIn(w, m, y) != 0 ==> LookIn(v, m, y) != 0 || m == p
  {
    hide LookIn, NamesOf, V7Dir.Key, DirsOk;
    var key := V7Dir.Key(name);
    OrdinaryKey(name);
    SameKey(v, p, key, name);
    SameKey(w, p, key, name);
    forall x: nat | 1 <= x
      ensures NamesOf(w, x) == (NamesOf(v, x) - {(p, key)}) + if x == n then {(p, key)} else {}
      ensures (p, key) in NamesOf(v, x) <==> x == o
    {
      NamesAre(v, x);
      NamesAre(w, x);
      var now := (NamesOf(v, x) - {(p, key)}) + if x == n then {(p, key)} else {};
      forall z: (nat, seq<byte>) ensures z in NamesOf(w, x) <==> z in now {
        var (m, y) := z;
        assert m != q ==> LookIn(w, m, y) == if m == p && V7Dir.Key(y) == key then n else LookIn(v, m, y);
      }
    }
  }

  /** Every directory but p keeps its subdirectories when only names that no directory had, or has, move. */
  lemma SubsSame(v: Vol, w: Vol, d: nat)
    requires |w.tab| == |v.tab|
    requires forall e :: 1 <= e < |v.tab| ==> (v.tab[e].kind == Directory <==> w.tab[e].kind == Directory)
    requires forall e :: 1 <= e < |v.tab| && v.tab[e].kind == Directory ==> NamesOf(w, e) == NamesOf(v, e)
    ensures Subs(w, d) == Subs(v, d)
  {
    hide NamesOf;
  }

  lemma KidsSame(v: Vol, w: Vol, q: nat, d: nat)
    requires |w.tab| == |v.tab|
    requires forall e :: 1 <= e < |v.tab| && e != q ==> (v.tab[e].kind == Directory <==> w.tab[e].kind == Directory)
    requires forall e: nat :: e != q ==> LookIn(w, e, V7Dir.DOTDOT) == LookIn(v, e, V7Dir.DOTDOT)
    ensures Kids(w, d) - {q} == Kids(v, d) - {q}
    ensures q !in Kids(v, d) && q !in Kids(w, d) ==> Kids(w, d) == Kids(v, d)
  {
    hide LookIn;
    assert Kids(w, d) - {q} == Kids(v, d) - {q};
    if q !in Kids(v, d) && q !in Kids(w, d) {
      assert Kids(w, d) == Kids(w, d) - {q} && Kids(v, d) == Kids(v, d) - {q};
    }
  }

  /** The steps up from a directory that stays are the same: none of them is at q, which holds no names. */
  lemma {:induction false} UpSame(v: Vol, w: Vol, q: nat, d: nat, k: nat)
    requires Tree(v) && DirsOk(v) && Anchored(v, d) && v.tab[d].kind == Directory && d != q
    requires forall y :: Ordinary(y) ==> LookIn(v, q, y) == 0
    requires forall e: nat :: e != q ==> LookIn(w, e, V7Dir.DOTDOT) == LookIn(v, e, V7Dir.DOTDOT)
    ensures Up(w, d, k) == Up(v, d, k)
    decreases k
  {
    hide LookIn, NamesOf, Ordinary, DirsOk;
    if k > 0 {
      if d == ROOTINO {
        assert DirCounted(v, d);
      } else {
        var y := ParentIn(v, d);
      }
      UpSame(v, w, q, LookIn(v, d, V7Dir.DOTDOT), k - 1);
    }
  }

  /** When only dot entries of q move, and q, if it is a directory of the tree afterwards, has its parent in the
      tree as it was, every directory of the tree still climbs to the root. */
  lemma RootedKept(v: Vol, w: Vol, q: nat)
    requires Tree(v) && DirsOk(v) && |w.tab| == |v.tab| && q != ROOTINO
    requires forall y :: Ordinary(y) ==> LookIn(v, q, y) == 0
    requires forall e: nat :: e != q ==> LookIn(w, e, V7Dir.DOTDOT) == LookIn(v, e, V7Dir.DOTDOT)
    requires forall e :: 1 <= e < |v.tab| && e != q ==>
               NamesOf(w, e) == NamesOf(v, e) && (v.tab[e].kind == Directory <==> w.tab[e].kind == Directory)
    requires Anchored(w, q) && w.tab[q].kind == Directory ==>
               var p := LookIn(w, q, V7Dir.DOTDOT); p != q && Anchored(v, p) && v.tab[p].kind == Directory
    ensures Rooted(w)
  {
    hide LookIn, NamesOf, Ordinary, DirsOk;
    forall d: nat | Anchored(w, d) && w.tab[d].kind == Directory ensures Climbs(w, d) {
      if d == q {
        var p := LookIn(w, q, V7Dir.DOTDOT);
        assert Climbs(v, p);
        var k: nat :| Up(v, p, k) == ROOTINO;
        UpSame(v, w, q, p, k);
        assert Up(w, q, k + 1) == Up(w, p, k);
      } else {
        assert Climbs(v, d);
        var k: nat :| Up(v, d, k) == ROOTINO;
        UpSame(v, w, q, d, k);
      }
    }
  }

  lemma NothingRenamed(v: Vol, w: Vol)
    requires DirsOk(v) && DirsOk(w) && SameTree(v, w) && Tree(v)
    ensures Tree(w)
  {
    hide LookIn, NamesOf, Ordinary, DirsOk, Subs;
    forall n: nat | 1 <= n ensures NamesOf(w, n) == NamesOf(v, n) {
      NamesAre(v, n);
      NamesAre(w, n);
      assert forall x :: x in NamesOf(w, n) <==> (x.0, x.1) in NamesOf(v, n);
    }
    forall n | 1 <= n < |w.tab| ensures Counted(w, n) && DirCounted(w, n) {
      assert Counted(v, n) && DirCounted(v, n);
      SubsSame(v, w, n);
      KidsSame(v, w, 0, n);
      assert 0 !in Kids(v, n) && 0 !in Kids(w, n);
    }
    assert forall m: nat :: Anchored(v, m) ==> Anchored(w, m);
    forall y ensures LookIn(v, 0, y) == 0 {
      NoInodeZero(v, y);
    }
    RootedKept(v, w, 0);
  }

  /** What is said of all inodes but q, and of the directories among them, when no names of theirs and none of
      their link counts change. */
  lemma StillCounted(v: Vol, w: Vol, n: nat)
    requires Tree(v) && 1 <= n < |v.tab| == |w.tab|
    requires NamesOf(w, n) == NamesOf(v, n) && w.tab[n].kind == v.tab[n].kind && w.tab[n].nlink == v.tab[n].nlink
    ensures Counted(w, n)
    ensures (LookIn(w, n, V7Dir.DOT) == LookIn(v, n, V7Dir.DOT) && LookIn(w, n, V7Dir.DOTDOT) == LookIn(v, n, V7Dir.DOTDOT)
             && |Subs(w, n)| <= |Subs(v, n)| && |Kids(v, n)| <= |Kids(w, n)|) ==> DirCounted(w, n)
  {
    hide NamesOf, LookIn, Ordinary, Subs, Kids, Rooted;
    assert Counted(v, n) && DirCounted(v, n);
  }

  // ---------- unlink ----------

  lemma Unlinked(v: Vol, w: Vol, p: nat, name: seq<byte>, t: nat)
    requires DirsOk(v) && DirsOk(w) && Tree(v) && Left(v, w, p, t) && Rebinds(v, w, p, name, 0, t)
    requires t == LookIn(v, p, name) && 0 < t < |v.tab| && t != p < |v.tab| && !IsDot(name) && w.tab[p] == v.tab[p]
    requires v.tab[t].kind != Directory
    requires if Lowered(v.tab[t].nlink) == 0 then w.tab[t].kind == Unused
             else w.tab[t] == v.tab[t].(nlink := Lowered(v.tab[t].nlink))
    ensures Tree(w)
  {
    hide *;
    var at := (p, V7Dir.Key(name));
    KindsLeft(v, w, p, t);
    InDirectory(v, p, name);
    NoDirectory(v, t);
    NoDirectory(w, t);
    NamesAfter(v, w, p, name, t, 0, t);
    DotsKept(v, w, p, name, 0, t);
    TreeCounts(v, t);
    HolderAnchored(v, p, name);
    RootUnnamed(v);
    forall n: nat | 1 <= n && n != t ensures NamesOf(w, n) == NamesOf(v, n) {
      assert at !in NamesOf(v, n);
    }
    assert NamesOf(w, t) == NamesOf(v, t) - {at};
    UnlinkedLast(v, w, at, t);
    forall n | 1 <= n < |w.tab| && n != t ensures Counted(w, n) && DirCounted(w, n) {
      SubsSame(v, w, n);
      NoKid(v, t, n);
      NoKid(w, t, n);
      KidsSame(v, w, t, n);
      StillCounted(v, w, n);
    }
    forall m: nat, y | Ordinary(y) && LookIn(w, m, y) != 0 ensures Anchored(w, m) {
      HolderKept(v, w, p, t, m, y);
    }
    RootedKept(v, w, t);
    TreeMade(v, w);
  }

  /** The parts of a tree put together again. */
  lemma TreeMade(v: Vol, w: Vol)
    requires Tree(v) && |w.tab| == |v.tab| && w.tab[ROOTINO].kind == Directory && NamesOf(w, ROOTINO) == {}
    requires forall n :: 1 <= n < |w.tab| ==> Counted(w, n) && DirCounted(w, n)
    requires forall m: nat, y :: Ordinary(y) && LookIn(w, m, y) != 0 ==> Anchored(w, m)
    requires Rooted(w)
    ensures Tree(w)
  {
    hide LookIn, NamesOf, Ordinary, Anchored, Counted, DirCounted, Rooted;
  }

  /** What is no directory is nobody's kid. */
  lemma NoKid(v: Vol, q: nat, d: nat)
    requires q < |v.tab| && v.tab[q].kind != Directory
    ensures q !in Kids(v, d)
  {
  }

  /** One name less and one link less, or no name and no inode. */
  lemma UnlinkedLast(v: Vol, w: Vol, at: (nat, seq<byte>), t: nat)
    requires 1 <= t < |v.tab| == |w.tab| && v.tab[t].kind != Directory
    requires Counted(v, t) && at in NamesOf(v, t) && NamesOf(w, t) == NamesOf(v, t) - {at}
    requires if Lowered(v.tab[t].nlink) == 0 then w.tab[t].kind == Unused
             else w.tab[t] == v.tab[t].(nlink := Lowered(v.tab[t].nlink))
    ensures Counted(w, t) && DirCounted(w, t)
  {
    hide NamesOf;
    if |NamesOf(v, t)| == 1 {
      assert NamesOf(v, t) == {at} + NamesOf(w, t);
    }
  }

  lemma KindsLeft(v: Vol, w: Vol, p: nat, q: nat)
    requires Left(v, w, p, q)
    ensures |w.tab| == |v.tab| && forall m :: 0 <= m < |v.tab| && m != q && m != p ==> w.tab[m] == v.tab[m]
  {
    forall m | 0 <= m < |v.tab| && m != q && m != p ensures w.tab[m] == v.tab[m] {
      assert FileSame(v, w, m);
    }
  }

  /** Binding an ordinary name moves no dot entry outside q. */
  lemma DotsKept(v: Vol, w: Vol, p: nat, name: seq<byte>, n: nat, q: nat)
    requires Rebinds(v, w, p, name, n, q) && !IsDot(name)
    ensures forall d: nat :: d != q ==>
      LookIn(w, d, V7Dir.DOT) == LookIn(v, d, V7Dir.DOT) && LookIn(w, d, V7Dir.DOTDOT) == LookIn(v, d, V7Dir.DOTDOT)
  {
    hide LookIn, V7Dir.Key;
  }

  /** A directory with an ordinary name in it is of the tree. */
  lemma HolderKept(v: Vol, w: Vol, p: nat, q: nat, m: nat, y: seq<byte>)
    requires Tree(v) && |w.tab| == |v.tab| && Ordinary(y) && m != q
    requires LookIn(v, m, y) != 0 || (m == p && Anchored(v, p))
    requires 1 <= m ==> NamesOf(w, m) == NamesOf(v, m)
    ensures Anchored(w, m)
  {
    NoInodeZero(v, y);
    hide NamesOf, LookIn;
  }

  lemma HolderAnchored(v: Vol, p: nat, name: seq<byte>)
    requires Tree(v) && LookIn(v, p, name) != 0 && V7Dir.Key(name) != [] && !IsDot(name)
    ensures Anchored(v, p)
  {
    OrdinaryKey(name);
    SameKey(v, p, V7Dir.Key(name), name);
    hide NamesOf, LookIn, V7Dir.Key;
  }

  // ---------- rmdir ----------

  lemma NoNames(v: Vol, t: nat)
    requires t < |v.tab| && V7Dir.OnlyDots(Content(v.disk, v.tab[t]))
    ensures forall y :: Ordinary(y) ==> LookIn(v, t, y) == 0
  {
    hide V7Dir.OnlyDots;
    forall y | Ordinary(y) ensures LookIn(v, t, y) == 0 {
      if LookIn(v, t, y) != 0 {
        NotItself(Content(v.disk, v.tab[t]), y);
      }
    }
  }

  lemma Removed(v: Vol, w: Vol, p: nat, name: seq<byte>, t: nat)
    requires DirsOk(v) && DirsOk(w) && Tree(v) && Left(v, w, p, t) && Rebinds(v, w, p, name, 0, t)
    requires t == LookIn(v, p, name) && 0 < t < |v.tab| && t != p < |v.tab| && !IsDot(name)
    requires v.tab[t].kind == Directory && V7Dir.OnlyDots(Content(v.disk, v.tab[t])) && w.tab[t].kind == Unused
    requires w.tab[p].kind == Directory && w.tab[p].nlink == Lowered(v.tab[p].nlink)
    ensures Tree(w)
  {
    hide *;
    var at := (p, V7Dir.Key(name));
    KindsLeft(v, w, p, t);
    InDirectory(v, p, name);
    NoNames(v, t);
    NoDirectory(w, t);
    NamesAfter(v, w, p, name, t, 0, t);
    DotsKept(v, w, p, name, 0, t);
    OneName(v, t, at);
    ParentCounted(v, p, at, t);
    forall n: nat | 1 <= n && n != t ensures NamesOf(w, n) == NamesOf(v, n) {
      assert at !in NamesOf(v, n);
    }
    assert NamesOf(w, t) == {};
    assert v.tab[p].nlink >= 3;
    RootStays(v, t, at);
    forall n | 1 <= n < |w.tab| && n != t ensures Counted(w, n) && DirCounted(w, n) {
      SubsWithout(v, w, n, t, at);
      NoKid(w, t, n);
      KidsSame(v, w, t, n);
      KidOnce(v, w, t, at, n);
      if n == p {
        ParentLowered(v, w, p, t);
      } else {
        StillCounted(v, w, n);
      }
    }
    Gone(w, t);
    forall m: nat, y | Ordinary(y) && LookIn(w, m, y) != 0 ensures Anchored(w, m) {
      HolderKept(v, w, p, t, m, y);
    }
    RootedKept(v, w, t);
    TreeMade(v, w);
  }

  /** A directory of the tree is a kid of the one its name is in and of no other. */
  lemma KidOnce(v: Vol, w: Vol, t: nat, at: (nat, seq<byte>), d: nat)
    requires Tree(v) && 1 <= t < |v.tab| && v.tab[t].kind == Directory && t != ROOTINO && NamesOf(v, t) == {at}
    requires t !in Kids(w, d) && Kids(w, d) - {t} == Kids(v, d) - {t}
    ensures |Kids(w, d)| == |Kids(v, d)| - if d == at.0 then 1 else 0
  {
    hide NamesOf, LookIn, Ordinary, Subs, Rooted;
    assert at in NamesOf(v, t);
    assert DirCounted(v, t);
    var y :| (LookIn(v, t, V7Dir.DOTDOT), y) in NamesOf(v, t);
    assert LookIn(v, t, V7Dir.DOTDOT) == at.0;
    assert t in Kids(v, d) <==> d == at.0;
    assert Kids(w, d) == Kids(v, d) - {t};
  }

  lemma RootStays(v: Vol, t: nat, at: (nat, seq<byte>))
    requires Tree(v) && at in NamesOf(v, t)
    ensures t != ROOTINO && 1 <= ROOTINO < |v.tab| && NamesOf(v, ROOTINO) == {} && v.tab[ROOTINO].kind == Directory
  {
    hide NamesOf;
  }

  /** The only name of a directory. */
  lemma OneName(v: Vol, t: nat, at: (nat, seq<byte>))
    requires Tree(v) && 1 <= t < |v.tab| && v.tab[t].kind == Directory && at in NamesOf(v, t)
    ensures NamesOf(v, t) == {at}
  {
    hide NamesOf, LookIn;
    assert Counted(v, t);
    assert |NamesOf(v, t) - {at}| == 0;
  }

  lemma Gone(w: Vol, t: nat)
    requires 1 <= t < |w.tab| && w.tab[t].kind == Unused && NamesOf(w, t) == {}
    ensures Counted(w, t) && DirCounted(w, t)
  {
    hide NamesOf;
  }

  /** A directory with a directory in it has three links. */
  lemma ParentCounted(v: Vol, p: nat, at: (nat, seq<byte>), t: nat)
    requires Tree(v) && DirsOk(v) && p == at.0 && at in NamesOf(v, t) && 1 <= t < |v.tab| && v.tab[t].kind == Directory
    requires 1 <= p < |v.tab| && v.tab[p].kind == Directory
    ensures Anchored(v, p) && t in Subs(v, p) && v.tab[p].nlink >= 3
  {
    NameHolder(v, at, t);
    TreeParts(v, p);
    hide NamesOf, LookIn, DirsOk, Kids, Tree, Ordinary, Anchored, DotsOk;
    assert (p, at.1) in NamesOf(v, t);
    assert t in Subs(v, p);
    assert |Subs(v, p)| >= 1;
  }

  lemma NameHolder(v: Vol, at: (nat, seq<byte>), t: nat)
    requires Tree(v) && DirsOk(v) && at in NamesOf(v, t) && t != 0
    ensures Anchored(v, at.0)
  {
    NamesAre(v, t);
    assert (at.0, at.1) in NamesOf(v, t);
    hide NamesOf, LookIn, DirsOk, Rooted, Ordinary, Counted, DirCounted, Anchored;
  }

  lemma SubsWithout(v: Vol, w: Vol, d: nat, t: nat, at: (nat, seq<byte>))
    requires |w.tab| == |v.tab| && 1 <= t < |v.tab| && w.tab[t].kind == Unused && NamesOf(v, t) == {at}
    requires forall e :: 1 <= e < |v.tab| && e != t ==> NamesOf(w, e) == NamesOf(v, e)
    requires forall e :: 1 <= e < |v.tab| && e != t ==> (v.tab[e].kind == Directory <==> w.tab[e].kind == Directory)
    ensures Subs(w, d) == Subs(v, d) - {t}
    ensures t in Subs(v, d) ==> d == at.0 && |Subs(w, d)| == |Subs(v, d)| - 1
    ensures |Subs(w, d)| <= |Subs(v, d)|
  {
    hide NamesOf;
    assert Subs(w, d) == Subs(v, d) - {t};
    assert t !in Subs(v, d) ==> Subs(v, d) - {t} == Subs(v, d);
  }

  /** The parent has a link less and a directory less. */
  lemma ParentLowered(v: Vol, w: Vol, p: nat, t: nat)
    requires Tree(v) && 1 <= p < |v.tab| == |w.tab| && t in Subs(v, p) && |Subs(w, p)| == |Subs(v, p)| - 1
    requires NamesOf(w, p) == NamesOf(v, p) && w.tab[p].kind == v.tab[p].kind == Directory && v.tab[p].nlink >= 3
    requires w.tab[p].nlink == Lowered(v.tab[p].nlink)
    requires LookIn(w, p, V7Dir.DOT) == LookIn(v, p, V7Dir.DOT) && LookIn(w, p, V7Dir.DOTDOT) == LookIn(v, p, V7Dir.DOTDOT)
    requires |Kids(w, p)| == |Kids(v, p)| - 1
    ensures Counted(w, p) && DirCounted(w, p)
  {
    hide NamesOf, LookIn, Subs, Ordinary, Kids, Rooted;
    assert Counted(v, p) && DirCounted(v, p);
  }

  // ---------- create, mkdir, mknod ----------

  /** In a directory of the tree the dot names are taken. */
  lemma NotDot(v: Vol, p: nat, name: seq<byte>)
    requires Tree(v) && DirsOk(v) && Anchored(v, p) && v.tab[p].kind == Directory && LookIn(v, p, name) == 0
    ensures !IsDot(name)
  {
    hide LookIn, NamesOf, V7Dir.Key, DirsOk;
    assert DirCounted(v, p);
    if p != ROOTINO {
      var y :| (LookIn(v, p, V7Dir.DOTDOT), y) in NamesOf(v, p);
      NamesAre(v, p);
      NoInodeZero(v, y);
    }
    if V7Dir.Key(name) == V7Dir.Key(V7Dir.DOT) { SameKey(v, p, name, V7Dir.DOT); }
    if V7Dir.Key(name) == V7Dir.Key(V7Dir.DOTDOT) { SameKey(v, p, name, V7Dir.DOTDOT); }
  }

  lemma NoInodeZero(v: Vol, y: seq<byte>)
    ensures LookIn(v, 0, y) == 0
  {
  }

  /** A new directory raises the link count of its parent if it gets its dot entries, that is if there is a free
      block; the greatest count becomes negative. */
  ghost predicate ParentWraps(v: Vol, p: nat, kind: Kind)
    requires p < |v.tab|
  {
    kind == Directory && v.free != [] && v.tab[p].nlink == MAXLINK
  }

  /** maknode with a new inode q, whether there is room for its name or not: the tree stays one exactly when the
      parent's link count does not wrap around. */
  lemma Made(v: Vol, w: Vol, p: nat, name: seq<byte>, kind: Kind, dev: nat, n: nat, q: nat)
    requires DirsOk(v) && DirsOk(w) && Tree(v) && NewNodeDoes(v, w, p, name, kind, dev, n, q) && kind != Unused
    requires LookIn(v, p, name) == 0 && Anchored(v, p) && V7Dir.Key(name) != []
    ensures Tree(w) <==> !ParentWraps(v, p, kind)
    ensures NamesOf(w, q) == if MakeRoom(v, p, kind) then {(p, V7Dir.Key(name))} else {}
  {
    hide *;
    BornParent(v, w, p, name, kind, dev, n, q);
    var at := (p, V7Dir.Key(name));
    NotDot(v, p, name);
    NothingIn(v, w, p, q, kind, dev);
    NamesAfter(v, w, p, name, 0, n, q);
    KindsLeft(v, w, p, q);
    DotsKept(v, w, p, name, n, q);
    UnusedUnnamed(v, q);
    assert NamesOf(w, q) == if n == q then {at} else {};
    Newborn(v, w, p, at, n, q, kind, dev);
    forall x: nat | 1 <= x && x != q ensures NamesOf(w, x) == NamesOf(v, x) {
      assert at !in NamesOf(v, x);
    }
    forall x | 1 <= x < |w.tab| && x != q && x != p ensures Counted(w, x) && DirCounted(w, x) {
      SubsWith(v, w, x, q, at, n, kind);
      KidsSame(v, w, q, x);
      KidsWith(v, w, p, q, kind, x);
      StillCounted(v, w, x);
    }
    SubsWith(v, w, p, q, at, n, kind);
    KidsSame(v, w, q, p);
    KidsWith(v, w, p, q, kind, p);
    ParentRaised(v, w, p, q, n, kind);
    forall m: nat, y | Ordinary(y) && LookIn(w, m, y) != 0 ensures Anchored(w, m) {
      HolderKept(v, w, p, q, m, y);
    }
    RootUnnamed(v);
    NewClimbs(w, q);
    RootedKept(v, w, q);
    if Tree(w) {
      TreeParts(w, p);
    } else if !ParentWraps(v, p, kind) {
      TreeMade(v, w);
    }
  }

  lemma NewClimbs(w: Vol, q: nat)
    ensures Anchored(w, q) && q != ROOTINO ==> NamesOf(w, q) != {}
  {
    hide NamesOf;
  }

  /** The new directory is a kid of its parent once it has its dot entries. */
  lemma KidsWith(v: Vol, w: Vol, p: nat, q: nat, kind: Kind, d: nat)
    requires |w.tab| == |v.tab| && 1 <= q < |v.tab| && q != ROOTINO && v.tab[q].kind == Unused && w.tab[q].kind == kind && 1 <= d
    requires kind == Directory ==> LookIn(w, q, V7Dir.DOTDOT) == if w.tab[q].size != 0 then p else 0
    requires Kids(w, d) - {q} == Kids(v, d) - {q}
    ensures |Kids(w, d)| == |Kids(v, d)| + if kind == Directory && w.tab[q].size != 0 && d == p then 1 else 0
  {
    hide LookIn;
    assert q !in Kids(v, d) && Kids(v, d) - {q} == Kids(v, d);
    if q in Kids(w, d) {
      assert Kids(w, d) == Kids(v, d) + {q};
    } else {
      assert Kids(w, d) - {q} == Kids(w, d);
    }
  }

  lemma TreeParts(v: Vol, p: nat)
    requires Tree(v) && 1 <= p < |v.tab|
    ensures DirCounted(v, p)
  {
    hide NamesOf, LookIn, Ordinary;
  }

  lemma RootUnnamed(v: Vol)
    requires Tree(v)
    ensures 1 <= ROOTINO < |v.tab| && v.tab[ROOTINO].kind == Directory && NamesOf(v, ROOTINO) == {}
  {
    hide NamesOf, LookIn;
  }

  lemma UnusedUnnamed(v: Vol, q: nat)
    requires Tree(v) && 1 <= q < |v.tab| && v.tab[q].kind == Unused
    ensures NamesOf(v, q) == {} && q != ROOTINO
  {
    hide NamesOf, LookIn;
    assert Counted(v, q);
  }

  lemma NothingIn(v: Vol, w: Vol, p: nat, q: nat, kind: Kind, dev: nat)
    requires Born(v, w, p, q, kind, dev)
    ensures forall y :: Ordinary(y) ==> LookIn(v, q, y) == LookIn(w, q, y) == 0
  {
    hide V7Dir.Key, V7Dir.Lookup, Content;
    forall y | Ordinary(y) ensures LookIn(v, q, y) == LookIn(w, q, y) == 0 {
      assert kind == Directory ==> FreshDir(w, q, p);
    }
  }

  /** The new inode itself. */
  lemma Newborn(v: Vol, w: Vol, p: nat, at: (nat, seq<byte>), n: nat, q: nat, kind: Kind, dev: nat)
    requires Born(v, w, p, q, kind, dev) && kind != Unused && n in {0, q} && p == at.0
    requires NamesOf(w, q) == if n == q then {at} else {}
    requires kind == Directory && w.tab[q].size == 0 ==> n == 0
    requires DirsOk(w) && forall y :: Ordinary(y) ==> LookIn(w, q, y) == 0
    ensures Counted(w, q) && DirCounted(w, q)
  {
    hide NamesOf, Ordinary, DirsOk;
    if kind == Directory && n == q {
      assert FreshDir(w, q, p);
      NoDots();
      assert LookIn(w, q, V7Dir.DOT) == q && LookIn(w, q, V7Dir.DOTDOT) == p by { DotsDiffer(); }
      hide LookIn;
      assert at == (LookIn(w, q, V7Dir.DOTDOT), at.1);
      assert Subs(w, q) == {} by {
        forall e, y | 1 <= e < |w.tab| && (q, y) in NamesOf(w, e) ensures false {
          NamesAre(w, e);
        }
      }
    }
  }

  lemma DotsDiffer()
    ensures V7Dir.Key(V7Dir.DOT) != V7Dir.Key(V7Dir.DOTDOT)
  {
    assert V7Dir.DOT[1..] == [] && V7Dir.DOTDOT[1..] == V7Dir.DOT;
  }

  lemma BornParent(v: Vol, w: Vol, p: nat, name: seq<byte>, kind: Kind, dev: nat, n: nat, q: nat)
    requires NewNodeDoes(v, w, p, name, kind, dev, n, q)
    ensures Born(v, w, p, q, kind, dev) && Left(v, w, p, q) && Rebinds(v, w, p, name, n, q) && n in {0, q}
    ensures p != q && 1 <= p < |w.tab| == |v.tab| && 1 <= q < |w.tab| && v.tab[p].kind == w.tab[p].kind == Directory
    ensures w.tab[q].kind == kind && v.tab[q].kind == Unused && (n == q <==> MakeRoom(v, p, kind))
    ensures w.tab[p].nlink == if kind == Directory && w.tab[q].size != 0 then Raised(v.tab[p].nlink) else v.tab[p].nlink
    ensures kind == Directory ==> LookIn(w, q, V7Dir.DOTDOT) == if w.tab[q].size != 0 then p else 0
    ensures kind == Directory ==> (w.tab[q].size != 0 <==> v.free != [])
    ensures kind == Directory && n == q ==> w.tab[q].size != 0
  {
    hide LookIn, V7Dir.Key, Rebinds, Cost, NextFree, FileSame;
    if kind == Directory {
      assert FreshDir(w, q, p);
      DotsDiffer();
    }
  }

  lemma SubsWith(v: Vol, w: Vol, d: nat, q: nat, at: (nat, seq<byte>), n: nat, kind: Kind)
    requires |w.tab| == |v.tab| && 1 <= q < |v.tab| && v.tab[q].kind == Unused && w.tab[q].kind == kind
    requires NamesOf(w, q) == (if n == q then {at} else {}) && n in {0, q}
    requires forall e :: 1 <= e < |v.tab| && e != q ==> NamesOf(w, e) == NamesOf(v, e)
    requires forall e :: 1 <= e < |v.tab| && e != q ==> (v.tab[e].kind == Directory <==> w.tab[e].kind == Directory)
    ensures |Subs(w, d)| == |Subs(v, d)| + if kind == Directory && n == q && d == at.0 then 1 else 0
  {
    hide NamesOf;
    var more := kind == Directory && n == q && d == at.0;
    assert at == (at.0, at.1);
    assert q !in Subs(v, d);
    assert Subs(w, d) == Subs(v, d) + if more then {q} else {};
  }

  /** The parent of a new inode. */
  lemma ParentRaised(v: Vol, w: Vol, p: nat, q: nat, n: nat, kind: Kind)
    requires Tree(v) && 1 <= p < |v.tab| == |w.tab| && 1 <= q < |v.tab| && q != p && Anchored(v, p)
    requires |Subs(w, p)| == |Subs(v, p)| + if kind == Directory && n == q then 1 else 0
    requires NamesOf(w, p) == NamesOf(v, p) && w.tab[p].kind == v.tab[p].kind == Directory
    requires kind == Directory && w.tab[q].size == 0 ==> n == 0
    requires w.tab[p].nlink == if kind == Directory && w.tab[q].size != 0 then Raised(v.tab[p].nlink) else v.tab[p].nlink
    requires kind == Directory ==> (w.tab[q].size != 0 <==> v.free != [])
    requires |Kids(w, p)| == |Kids(v, p)| + if kind == Directory && w.tab[q].size != 0 then 1 else 0
    requires LookIn(w, p, V7Dir.DOT) == LookIn(v, p, V7Dir.DOT) && LookIn(w, p, V7Dir.DOTDOT) == LookIn(v, p, V7Dir.DOTDOT)
    ensures Counted(w, p) && (DirCounted(w, p) <==> !ParentWraps(v, p, kind))
  {
    hide NamesOf, LookIn, Subs, Ordinary, Kids, Rooted;
    assert Counted(v, p) && DirCounted(v, p);
  }

  /** The calls of maknode that lose the tree, seen before the call. */
  ghost predicate MakeBreaks(v: Vol, path: Path, kind: Kind)
  {
    Enterable(v, path) && Target(v, path) == 0 && HasUnused(v) && ParentWraps(v, ParentOf(v, path), kind)
  }

  lemma AfterMake(v: Vol, w: Vol, path: Path, kind: Kind, dev: nat, n: nat, q: nat)
    requires DirsOk(v) && DirsOk(w) && Tree(v) && kind != Unused && MakNodeDoes(v, w, path, kind, dev, n, q)
    ensures Tree(w) <==> !MakeBreaks(v, path, kind)
  {
    hide Tree, DirsOk, NewNodeDoes, LookIn, ParentOf, HasUnused, V7Dir.Key, Anchored, ParentWraps;
    if Enterable(v, path) && Target(v, path) == 0 && HasUnused(v) {
      ParentAnchored(v, path);
      Made(v, w, ParentOf(v, path), Last(path), kind, dev, n, q);
    }
  }

  lemma AfterOpen(v: Vol, w: Vol, path: Path, n: nat, q: nat)
    requires DirsOk(v) && DirsOk(w) && Tree(v) && OpenDoes(v, w, path, n, q)
    ensures Tree(w)
  {
    hide Tree, DirsOk, LookIn, ParentOf, HasUnused, V7Dir.Key, Anchored, Born, Left, Rebinds, SameTree, MakeRoom, MakeCost, AddedTo;
    if q == 0 {
      NothingRenamed(v, w);
    } else {
      ParentAnchored(v, path);
      Made(v, w, ParentOf(v, path), Last(path), Regular, 0, n, q);
    }
  }

  // ---------- link ----------

  /** A second name: the tree stays one exactly when the link count does not wrap around. */
  lemma Linked(v: Vol, w: Vol, p: nat, name: seq<byte>, t: nat)
    requires DirsOk(v) && DirsOk(w) && Tree(v) && Left(v, w, p, t) && Rebinds(v, w, p, name, t, t)
    requires LookIn(v, p, name) == 0 && 0 < t < |v.tab| && t != p && 1 <= p < |v.tab| && Anchored(v, t) && Anchored(v, p)
    requires v.tab[t].kind != Directory && V7Dir.Key(name) != [] && !IsDot(name)
    requires w.tab[t] == v.tab[t].(nlink := Raised(v.tab[t].nlink))
    requires w.tab[p].kind == v.tab[p].kind && w.tab[p].nlink == v.tab[p].nlink
    ensures Tree(w) <==> v.tab[t].nlink != MAXLINK
  {
    hide *;
    var at := (p, V7Dir.Key(name));
    RootUnnamed(v);
    KindsLeft(v, w, p, t);
    NoDirectory(v, t);
    NoDirectory(w, t);
    NamesAfter(v, w, p, name, 0, t, t);
    DotsKept(v, w, p, name, t, t);
    Named(v, t);
    forall n: nat | 1 <= n && n != t ensures NamesOf(w, n) == NamesOf(v, n) {
      assert at !in NamesOf(v, n);
    }
    assert NamesOf(w, t) == NamesOf(v, t) + {at} && at !in NamesOf(v, t);
    OneLinkMore(v, w, at, t);
    forall n | 1 <= n < |w.tab| && n != t ensures Counted(w, n) && DirCounted(w, n) {
      SubsSame(v, w, n);
      NoKid(v, t, n);
      NoKid(w, t, n);
      KidsSame(v, w, t, n);
      StillCounted(v, w, n);
    }
    RootedKept(v, w, t);
    forall m: nat, y | Ordinary(y) && LookIn(w, m, y) != 0 ensures Anchored(w, m) {
      HolderKept(v, w, p, t, m, y);
    }
    if Tree(w) {
      TreeCounts(w, t);
    } else if v.tab[t].nlink != MAXLINK {
      TreeMade(v, w);
    }
  }

  lemma NoDirectory(v: Vol, t: nat)
    requires t < |v.tab| && v.tab[t].kind != Directory
    ensures forall y :: LookIn(v, t, y) == 0
  {
  }

  lemma Named(v: Vol, t: nat)
    requires Tree(v) && Anchored(v, t) && v.tab[t].kind != Directory
    ensures NamesOf(v, t) != {} && Counted(v, t)
  {
    hide NamesOf, LookIn, Ordinary;
  }

  lemma TreeCounts(v: Vol, t: nat)
    requires Tree(v) && 1 <= t < |v.tab|
    ensures Counted(v, t)
  {
    hide NamesOf, LookIn, Ordinary;
  }

  /** The calls of link that lose the tree, seen before the call. */
  ghost predicate LinkBreaks(v: Vol, src: Path, dst: Path)
  {
    LinkOk(v, src, dst) && v.tab[Source(v, src)].nlink == MAXLINK
  }

  lemma AfterLink(v: Vol, w: Vol, src: Path, dst: Path, ok: bool)
    requires DirsOk(v) && DirsOk(w) && Tree(v) && LinkDoes(v, w, src, dst, ok)
    ensures Tree(w) <==> !LinkBreaks(v, src, dst)
  {
    hide Tree, DirsOk, LookIn, ParentOf, Resolve, V7Dir.Key, Anchored, Left, Rebinds, SameTree, Room, Cost, AddedTo, IsDot;
    if ok {
      RootAnchored(v);
      ParentAnchored(v, dst);
      PathAnchored(v, ROOTINO, src);
      Linked(v, w, ParentOf(v, dst), Last(dst), Source(v, src));
    } else {
      NothingRenamed(v, w);
    }
  }

  lemma AfterUnlink(v: Vol, w: Vol, path: Path, ok: bool)
    requires DirsOk(v) && DirsOk(w) && Tree(v) && UnlinkDoes(v, w, path, ok)
    ensures Tree(w)
  {
    hide Tree, DirsOk, LookIn, ParentOf, V7Dir.Key, Left, Rebinds, IsDot;
    if ok {
      Unlinked(v, w, ParentOf(v, path), Last(path), Target(v, path));
    }
  }

  lemma AfterRmdir(v: Vol, w: Vol, path: Path, ok: bool)
    requires DirsOk(v) && DirsOk(w) && Tree(v) && RmdirDoes(v, w, path, ok)
    ensures Tree(w)
  {
    hide Tree, DirsOk, LookIn, ParentOf, V7Dir.Key, Left, Rebinds, IsDot, V7Dir.OnlyDots, Content;
    if ok {
      Removed(v, w, ParentOf(v, path), Last(path), Target(v, path));
    }
  }

  lemma RootAnchored(v: Vol)
    requires Tree(v)
    ensures Anchored(v, ROOTINO)
  {
    hide NamesOf, LookIn;
  }

  lemma OneLinkMore(v: Vol, w: Vol, at: (nat, seq<byte>), t: nat)
    requires 1 <= t < |v.tab| == |w.tab| && v.tab[t].kind != Directory && Counted(v, t)
    requires NamesOf(v, t) != {} && at !in NamesOf(v, t) && NamesOf(w, t) == NamesOf(v, t) + {at}
    requires w.tab[t] == v.tab[t].(nlink := Raised(v.tab[t].nlink))
    ensures DirCounted(w, t) && (Counted(w, t) <==> v.tab[t].nlink != MAXLINK)
  {
    hide NamesOf;
  }

  // ---------- a fresh volume ----------

  /** In a fresh volume the root holds its two dot entries and nothing else holds anything. */
  ghost predicate RootAlone(v: Vol)
  {
    && (forall m: nat, y :: Ordinary(y) || m != ROOTINO ==> LookIn(v, m, y) == 0)
    && LookIn(v, ROOTINO, V7Dir.DOT) == LookIn(v, ROOTINO, V7Dir.DOTDOT) == ROOTINO
    && forall e :: 0 <= e < |v.tab| && e != ROOTINO ==> v.tab[e].kind != Directory
  }

  lemma FreshAlone(v: Vol, isize: nat)
    requires ROOTINO < isize && ROOTINO < |v.tab| && v.tab == BlankInodes(isize)[ROOTINO := v.tab[ROOTINO]]
    requires v.tab[ROOTINO].size == 2 * V7Dir.DIRENT && FreshDir(v, ROOTINO, ROOTINO)
    ensures RootAlone(v)
  {
    hide V7Dir.Lookup, Content, V7Dir.Key;
    DotsDiffer();
    forall m: nat, y | Ordinary(y) || m != ROOTINO ensures LookIn(v, m, y) == 0 {
    }
  }

  lemma FreshTree(v: Vol, isize: nat)
    requires DirsOk(v) && ROOTINO < isize && ROOTINO < |v.tab| && v.tab == BlankInodes(isize)[ROOTINO := v.tab[ROOTINO]]
    requires v.tab[ROOTINO].nlink == 2 && v.tab[ROOTINO].size == 2 * V7Dir.DIRENT && FreshDir(v, ROOTINO, ROOTINO)
    ensures Tree(v)
  {
    FreshAlone(v, isize);
    hide LookIn, Ordinary, DirsOk, NamesOf, V7Dir.Key, FreshDir, BlankInodes;
    forall n: nat | 1 <= n ensures NamesOf(v, n) == {} {
      NamesAre(v, n);
      assert forall z :: z in NamesOf(v, n) ==> (z.0, z.1) in NamesOf(v, n);
    }
    assert Subs(v, ROOTINO) == {} && Kids(v, ROOTINO) == {};
    forall n | 1 <= n < |v.tab| ensures Counted(v, n) && DirCounted(v, n) {
    }
    assert Up(v, ROOTINO, 0) == ROOTINO;
  }
}
