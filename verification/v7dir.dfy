/** Directories as byte strings: sixteen-byte entries, an inode number and a name each. A slot with
    inode number 0 is dead; its name stays behind. */
module V7Dir {
  import opened V7Layout
  import opened V7Content

  const DIRENT: nat := 16
  const DIRSIZ: nat := 14

  /** A name as strncmp(.., .., DIRSIZ) sees it: the bytes before the first NUL, at most DIRSIZ. */
  function Key(s: seq<byte>): (k: seq<byte>)
    ensures |k| <= DIRSIZ && k <= s
  {
    KeyUpTo(s, DIRSIZ)
  }

  function KeyUpTo(s: seq<byte>, n: nat): (k: seq<byte>)
    ensures |k| <= n && k <= s
  {
    if n == 0 || s == [] || s[0] == 0 then [] else [s[0]] + KeyUpTo(s[1..], n - 1)
  }

  function Zeros(n: nat): (z: seq<byte>)
    ensures |z| == n && forall i :: 0 <= i < n ==> z[i] == 0
  {
    seq(n, _ => 0)
  }

  /** The d_name adddir stores: the key, padded with NULs. */
  function Pad(s: seq<byte>): (d: seq<byte>)
    ensures |d| == DIRSIZ
  {
    Key(s) + Zeros(DIRSIZ - |Key(s)|)
  }

  lemma {:induction false} KeyUpToPadded(s: seq<byte>, n: nat, m: nat)
    ensures KeyUpTo(KeyUpTo(s, n) + Zeros(m), n) == KeyUpTo(s, n)
  {
    var k := KeyUpTo(s, n);
    if k != [] {
      KeyUpToPadded(s[1..], n - 1, m);
      assert (k + Zeros(m))[1..] == KeyUpTo(s[1..], n - 1) + Zeros(m);
    }
  }

  /** Storing a name and comparing against the stored form loses nothing strncmp looks at. */
  lemma KeyOfPad(s: seq<byte>)
    ensures Key(Pad(s)) == Key(s)
  {
    KeyUpToPadded(s, DIRSIZ, DIRSIZ - |Key(s)|);
  }

  // ---------- what the key keeps of a name ----------

  /** Byte i of a C string. */
  function CharAt(s: seq<byte>, i: nat): byte { if i < |s| then s[i] else 0 }

  /** strncmp with DIRSIZ: equal byte by byte up to the first NUL or up to DIRSIZ bytes. */
  ghost predicate SameName(x: seq<byte>, y: seq<byte>) { SameUpTo(x, y, DIRSIZ) }

  ghost predicate SameUpTo(x: seq<byte>, y: seq<byte>, n: nat)
  {
    forall i :: 0 <= i < n && (forall j :: 0 <= j < i ==> CharAt(x, j) == CharAt(y, j) != 0) ==> CharAt(x, i) == CharAt(y, i)
  }

  /** The key is the name up to its first NUL, cut to DIRSIZ bytes. */
  lemma {:induction false} KeyUpToIs(s: seq<byte>, n: nat, k: nat)
    requires k <= n && k <= |s| && (forall i :: 0 <= i < k ==> s[i] != 0) && (k == n || CharAt(s, k) == 0)
    ensures KeyUpTo(s, n) == s[..k]
    decreases k
  {
    if k > 0 {
      assert CharAt(s[1..], k - 1) == CharAt(s, k);
      KeyUpToIs(s[1..], n - 1, k - 1);
      assert s[..k] == [s[0]] + s[1..][..k - 1];
    }
  }

  /** A name without NULs is its own key if it has at most 14 bytes; of a longer one the key has the first 14. */
  lemma KeyOfName(s: seq<byte>)
    requires 0 !in s
    ensures |s| <= 14 ==> Key(s) == s
    ensures |s| >= 14 ==> Key(s) == s[..14]
  {
    KeyUpToIs(s, DIRSIZ, if |s| <= 14 then |s| else 14);
  }

  lemma KeyBytes(s: seq<byte>, i: nat)
    requires i < DIRSIZ
    ensures i < |Key(s)| ==> Key(s)[i] == CharAt(s, i) != 0
    ensures i == |Key(s)| ==> CharAt(s, i) == 0
  {
    KeyUpToBytes(s, DIRSIZ, i);
  }

  lemma {:induction false} KeyUpToBytes(s: seq<byte>, n: nat, i: nat)
    requires i < n
    ensures i < |KeyUpTo(s, n)| ==> KeyUpTo(s, n)[i] == CharAt(s, i) != 0
    ensures i == |KeyUpTo(s, n)| ==> CharAt(s, i) == 0
    decreases i
  {
    if i > 0 && s != [] && s[0] != 0 {
      KeyUpToBytes(s[1..], n - 1, i - 1);
      assert CharAt(s[1..], i - 1) == CharAt(s, i);
    }
  }

  /** Two names have one key exactly when strncmp takes them for the same. */
  lemma KeyIsStrncmp(x: seq<byte>, y: seq<byte>)
    ensures Key(x) == Key(y) <==> SameName(x, y)
  {
    hide Key, CharAt;
    if SameName(x, y) {
      var k := if |Key(x)| <= |Key(y)| then |Key(x)| else |Key(y)|;
      Agree(x, y, k);
      if k < DIRSIZ {
        assert CharAt(x, k) == CharAt(y, k);
        KeyBytes(x, k);
        KeyBytes(y, k);
      }
      assert |Key(x)| == |Key(y)| && Key(x) == Key(y);
    }
    if Key(x) == Key(y) {
      forall i | 0 <= i < DIRSIZ && (forall j :: 0 <= j < i ==> CharAt(x, j) == CharAt(y, j) != 0) ensures CharAt(x, i) == CharAt(y, i) {
        SameChar(x, y, i);
      }
    }
  }

  lemma SameChar(x: seq<byte>, y: seq<byte>, i: nat)
    requires Key(x) == Key(y) && i < DIRSIZ && forall j :: 0 <= j < i ==> CharAt(x, j) != 0
    ensures CharAt(x, i) == CharAt(y, i)
  {
    hide Key, CharAt;
    KeyBytes(x, i);
    KeyBytes(y, i);
    if |Key(x)| < i {
      KeyBytes(x, |Key(x)|);
    }
  }

  /** Names that strncmp takes for the same have the same bytes as far as both keys go. */
  lemma {:induction false} Agree(x: seq<byte>, y: seq<byte>, k: nat)
    requires SameName(x, y) && k <= |Key(x)| && k <= |Key(y)|
    ensures forall j :: 0 <= j < k ==> CharAt(x, j) == CharAt(y, j) != 0 && Key(x)[j] == Key(y)[j]
    decreases k
  {
    hide Key, CharAt;
    if k > 0 {
      Agree(x, y, k - 1);
      KeyBytes(x, k - 1);
      KeyBytes(y, k - 1);
    }
  }

  /** The bytes of one struct direct. */
  function Dirent(ino: nat, name: seq<byte>): (d: seq<byte>)
    requires ino <= MAXINO
    ensures |d| == DIRENT
  {
    [ino / 256, ino % 256] + Pad(name)
  }

  function EntryIno(d: seq<byte>): nat
    requires |d| == DIRENT
  {
    (d[0] as int) * 256 + (d[1] as int)
  }

  function EntryName(d: seq<byte>): (s: seq<byte>)
    requires |d| == DIRENT
    ensures |s| == DIRSIZ
  {
    d[2..]
  }

  lemma DirentReads(ino: nat, name: seq<byte>)
    requires ino <= MAXINO
    ensures EntryIno(Dirent(ino, name)) == ino
    ensures Key(EntryName(Dirent(ino, name))) == Key(name)
  {
    KeyOfPad(name);
    assert EntryName(Dirent(ino, name)) == Pad(name);
  }

  /** The sixteen bytes of an entry: the inode number, high byte first, and the name up to its first NUL, filled up
      with NULs. */
  lemma DirentBytes(ino: nat, name: seq<byte>, i: nat)
    requires ino <= MAXINO && i < DIRSIZ
    ensures var d := Dirent(ino, name);
      && ino == d[0] as int * 256 + d[1] as int
      && d[2 + i] == if 0 in name[..if i < |name| then i else |name|] then 0 else CharAt(name, i)
  {
    KeyBytes(name, i);
    var k := |Key(name)|;
    if i < k {
      assert Key(name)[i] == name[i] && Pad(name)[i] == Key(name)[i];
      assert forall j :: 0 <= j < i ==> name[j] == Key(name)[j] != 0 by {
        forall j | 0 <= j < i ensures name[j] == Key(name)[j] != 0 { KeyBytes(name, j); }
      }
    } else {
      if k < DIRSIZ { KeyBytes(name, k); }
      if k < i && k < |name| {
        assert name[..if i < |name| then i else |name|][k] == 0;
      }
    }
  }

  // ---------- a directory's byte string ----------

  function Slots(c: seq<byte>): nat { |c| / DIRENT }

  function Slot(c: seq<byte>, k: nat): (d: seq<byte>)
    requires k < Slots(c)
    ensures |d| == DIRENT
  {
    c[k * DIRENT..k * DIRENT + DIRENT]
  }

  function InoAt(c: seq<byte>, k: nat): nat
    requires k < Slots(c)
  {
    EntryIno(Slot(c, k))
  }

  function NameAt(c: seq<byte>, k: nat): seq<byte>
    requires k < Slots(c)
  {
    Key(EntryName(Slot(c, k)))
  }

  /** No slot, live or dead, stands before a live slot of the same name. */
  ghost predicate Sound(c: seq<byte>, maxIno: nat)
  {
    && |c| % DIRENT == 0
    && (forall k :: 0 <= k < Slots(c) ==> InoAt(c, k) <= maxIno)
    && (forall i, j :: 0 <= i < j < Slots(c) && InoAt(c, j) != 0 ==> NameAt(c, i) != NameAt(c, j))
  }

  /** First slot from k on that bears the name; Slots(c) if none. */
  function FirstNamed(c: seq<byte>, name: seq<byte>, k: nat): (r: nat)
    requires k <= Slots(c)
    ensures k <= r <= Slots(c)
    ensures r < Slots(c) ==> NameAt(c, r) == Key(name)
    ensures forall i :: k <= i < r ==> NameAt(c, i) != Key(name)
    decreases Slots(c) - k
  {
    if k == Slots(c) || NameAt(c, k) == Key(name) then k else FirstNamed(c, name, k + 1)
  }

  /** First dead slot from k on; Slots(c) if none. */
  function FirstDead(c: seq<byte>, k: nat): (r: nat)
    requires k <= Slots(c)
    ensures k <= r <= Slots(c)
    ensures r < Slots(c) ==> InoAt(c, r) == 0
    ensures forall i :: k <= i < r ==> InoAt(c, i) != 0
    decreases Slots(c) - k
  {
    if k == Slots(c) || InoAt(c, k) == 0 then k else FirstDead(c, k + 1)
  }

  /** What dlook answers: the inode number in the first slot of that name, dead or alive. */
  function Lookup(c: seq<byte>, name: seq<byte>): nat
  {
    var k := FirstNamed(c, name, 0);
    if k < Slots(c) then InoAt(c, k) else 0
  }

  /** dlook does not skip dead slots, yet in a sound directory it finds inode n under a name
      exactly when a live entry says so. */
  lemma LookupIsLive(c: seq<byte>, maxIno: nat, name: seq<byte>, n: nat)
    requires Sound(c, maxIno) && n != 0
    ensures Lookup(c, name) == n <==> exists k :: 0 <= k < Slots(c) && InoAt(c, k) == n && NameAt(c, k) == Key(name)
  {
    var f := FirstNamed(c, name, 0);
    if k :| 0 <= k < Slots(c) && InoAt(c, k) == n && NameAt(c, k) == Key(name) {
      assert f <= k;
      assert NameAt(c, f) == NameAt(c, k);
    }
  }

  /** The name in slot k is this name to strncmp. */
  ghost predicate Bears(c: seq<byte>, k: nat, name: seq<byte>)
    requires k < Slots(c)
  {
    SameName(EntryName(Slot(c, k)), name)
  }

  /** Lookup answers with the first slot that bears the name. */
  lemma LookupFirst(c: seq<byte>, name: seq<byte>)
    ensures forall k :: 0 <= k < Slots(c) && Bears(c, k, name) && (forall i :: 0 <= i < k ==> !Bears(c, i, name)) ==>
              Lookup(c, name) == InoAt(c, k)
    ensures (forall k :: 0 <= k < Slots(c) ==> !Bears(c, k, name)) ==> Lookup(c, name) == 0
  {
    hide Slot, EntryName, Key, SameName, InoAt;
    forall k | 0 <= k < Slots(c) ensures Bears(c, k, name) <==> NameAt(c, k) == Key(name) {
      KeyIsStrncmp(EntryName(Slot(c, k)), name);
    }
  }

  // ---------- changing one slot ----------

  lemma SpliceSlot(c: seq<byte>, k: nat, s: seq<byte>, i: nat)
    requires |c| % DIRENT == 0 && k <= Slots(c)
    requires |s| == DIRENT || (|s| == 2 && k < Slots(c))
    requires i < Slots(Splice(c, k * DIRENT, s))
    ensures Slots(Splice(c, k * DIRENT, s)) == if k == Slots(c) then Slots(c) + 1 else Slots(c)
    ensures |Splice(c, k * DIRENT, s)| % DIRENT == 0
    ensures i != k ==> Slot(Splice(c, k * DIRENT, s), i) == Slot(c, i)
    ensures i == k && |s| == DIRENT ==> Slot(Splice(c, k * DIRENT, s), i) == s
    ensures i == k && |s| == 2 ==> Slot(Splice(c, k * DIRENT, s), i) == s + Slot(c, i)[2..]
  {
    assert |c| == Slots(c) * DIRENT;
  }

  /** adddir: the first dead slot, or a new one at the end. */
  function Added(c: seq<byte>, name: seq<byte>, ino: nat): seq<byte>
    requires ino <= MAXINO
  {
    Splice(c, FirstDead(c, 0) * DIRENT, Dirent(ino, name))
  }

  /** Adding an absent name keeps the directory sound, binds that name and no other. */
  lemma AddedSound(c: seq<byte>, maxIno: nat, name: seq<byte>, ino: nat)
    requires Sound(c, maxIno) && Lookup(c, name) == 0 && 0 < ino <= maxIno <= MAXINO
    ensures Sound(Added(c, name, ino), maxIno)
    ensures Lookup(Added(c, name, ino), name) == ino
    ensures forall y :: Key(y) != Key(name) ==> Lookup(Added(c, name, ino), y) == Lookup(c, y)
  {
    var k := FirstDead(c, 0);
    var d := Dirent(ino, name);
    var c' := Added(c, name, ino);
    DirentReads(ino, name);
    assert Slots(c') == if k == Slots(c) then Slots(c) + 1 else Slots(c) by { SpliceSlot(c, k, d, 0); }
    forall i | 0 <= i < Slots(c') ensures Slot(c', i) == if i == k then d else Slot(c, i) {
      SpliceSlot(c, k, d, i);
    }
    Rebound(c, c', k, maxIno, name, ino);
  }

  /** Slot k was dead or new and now binds an absent name. */
  lemma Rebound(c: seq<byte>, c': seq<byte>, k: nat, maxIno: nat, name: seq<byte>, ino: nat)
    requires Sound(c, maxIno) && Lookup(c, name) == 0 && 0 < ino <= maxIno
    requires k == FirstDead(c, 0) && |c'| % DIRENT == 0
    requires Slots(c') == if k == Slots(c) then Slots(c) + 1 else Slots(c)
    requires forall i :: 0 <= i < Slots(c') && i != k ==> Slot(c', i) == Slot(c, i)
    requires InoAt(c', k) == ino && NameAt(c', k) == Key(name)
    ensures Sound(c', maxIno)
    ensures Lookup(c', name) == ino
    ensures forall y :: Key(y) != Key(name) ==> Lookup(c', y) == Lookup(c, y)
  {
    SoundAgain(c, c', k, maxIno, name, ino);
    hide InoAt, NameAt, Lookup, Sound;
    forall y | Key(y) != Key(name) ensures Lookup(c', y) == Lookup(c, y) {
      var n, n' := Lookup(c, y), Lookup(c', y);
      if n != 0 {
        LookupIsLive(c, maxIno, y, n);
        LookupIsLive(c', maxIno, y, n);
        var j :| 0 <= j < Slots(c) && InoAt(c, j) == n && NameAt(c, j) == Key(y);
        assert InoAt(c', j) == n && NameAt(c', j) == Key(y);
      } else if n' != 0 {
        LookupIsLive(c, maxIno, y, n');
        LookupIsLive(c', maxIno, y, n');
      }
    }
    LookupIsLive(c', maxIno, name, ino);
  }

  lemma SoundAgain(c: seq<byte>, c': seq<byte>, k: nat, maxIno: nat, name: seq<byte>, ino: nat)
    requires Sound(c, maxIno) && Lookup(c, name) == 0 && 0 < ino <= maxIno
    requires k == FirstDead(c, 0) && |c'| % DIRENT == 0
    requires Slots(c') == if k == Slots(c) then Slots(c) + 1 else Slots(c)
    requires forall i :: 0 <= i < Slots(c') && i != k ==> Slot(c', i) == Slot(c, i)
    requires InoAt(c', k) == ino && NameAt(c', k) == Key(name)
    ensures Sound(c', maxIno)
    ensures forall i :: 0 <= i < Slots(c') && i != k ==> InoAt(c', i) == InoAt(c, i) && NameAt(c', i) == NameAt(c, i)
    ensures k < Slots(c) ==> InoAt(c, k) == 0
    ensures k <= Slots(c)
  {
    assert forall i :: 0 <= i < Slots(c') && i != k ==> InoAt(c', i) == InoAt(c, i) && NameAt(c', i) == NameAt(c, i);
    forall i | 0 <= i < Slots(c) && NameAt(c, i) == Key(name) ensures InoAt(c, i) == 0 {
      if InoAt(c, i) != 0 { LookupIsLive(c, maxIno, name, InoAt(c, i)); }
    }
  }

  /** An entry behind the last one of a directory without dead slots. */
  lemma AddedFull(c: seq<byte>, name: seq<byte>, ino: nat)
    requires |c| % DIRENT == 0 && FirstDead(c, 0) == Slots(c) && 0 < ino <= MAXINO
    ensures var d := Added(c, name, ino); Slots(d) == Slots(c) + 1 && FirstDead(d, 0) == Slots(d) && |d| == |c| + DIRENT
  {
    var d, k := Added(c, name, ino), Slots(c);
    DirentReads(ino, name);
    SpliceSlot(c, k, Dirent(ino, name), 0);
    forall i | 0 <= i < Slots(d) ensures InoAt(d, i) != 0 {
      SpliceSlot(c, k, Dirent(ino, name), i);
      if i < k {
        assert InoAt(c, i) != 0;
      }
    }
  }

  /** unlink and rmdir: slot k dies, its name stays. */
  function Killed(c: seq<byte>, k: nat): seq<byte>
    requires k < Slots(c)
  {
    Splice(c, k * DIRENT, [0, 0])
  }

  /** Killing the slot dlook found keeps the directory sound and unbinds that name only. */
  lemma KilledSound(c: seq<byte>, maxIno: nat, name: seq<byte>)
    requires Sound(c, maxIno) && FirstNamed(c, name, 0) < Slots(c)
    ensures Sound(Killed(c, FirstNamed(c, name, 0)), maxIno)
    ensures Lookup(Killed(c, FirstNamed(c, name, 0)), name) == 0
    ensures forall y :: Key(y) != Key(name) ==> Lookup(Killed(c, FirstNamed(c, name, 0)), y) == Lookup(c, y)
  {
    var k := FirstNamed(c, name, 0);
    var c' := Killed(c, k);
    assert Slots(c') == Slots(c) && |c'| == |c|;
    forall i | 0 <= i < Slots(c) ensures Slot(c', i) == if i == k then [0, 0] + Slot(c, i)[2..] else Slot(c, i) {
      SpliceSlot(c, k, [0, 0], i);
    }
    assert EntryName(Slot(c', k)) == EntryName(Slot(c, k));
    assert forall i :: 0 <= i < Slots(c) ==>
             NameAt(c', i) == NameAt(c, i) && InoAt(c', i) == if i == k then 0 else InoAt(c, i);
    SameNames(c, c', k, maxIno, name);
  }

  /** Slot k died, all names stand where they stood. */
  lemma SameNames(c: seq<byte>, c': seq<byte>, k: nat, maxIno: nat, name: seq<byte>)
    requires Sound(c, maxIno) && k == FirstNamed(c, name, 0) && k < Slots(c)
    requires |c'| == |c|
    requires forall i :: 0 <= i < Slots(c) ==>
               NameAt(c', i) == NameAt(c, i) && InoAt(c', i) == if i == k then 0 else InoAt(c, i)
    ensures Sound(c', maxIno) && Lookup(c', name) == 0
    ensures forall y :: Key(y) != Key(name) ==> Lookup(c', y) == Lookup(c, y)
  {
    hide Slot, EntryName, EntryIno, Key, InoAt, NameAt;
    forall y ensures FirstNamed(c', y, 0) == FirstNamed(c, y, 0) {
      SameFirst(c, c', y);
    }
  }

  lemma SameFirst(c: seq<byte>, c': seq<byte>, y: seq<byte>)
    requires |c'| == |c|
    requires forall i :: 0 <= i < Slots(c) ==> NameAt(c', i) == NameAt(c, i)
    ensures FirstNamed(c', y, 0) == FirstNamed(c, y, 0)
  {
    hide Slot, EntryName, Key, NameAt;
    var f, f' := FirstNamed(c, y, 0), FirstNamed(c', y, 0);
    assert f < Slots(c) ==> NameAt(c', f) == Key(y);
    assert f' < Slots(c) ==> NameAt(c, f') == Key(y);
  }

  // ---------- adding and killing, said of strncmp ----------

  lemma AddedNames(c: seq<byte>, maxIno: nat, name: seq<byte>, ino: nat)
    requires Sound(c, maxIno) && Lookup(c, name) == 0 && 0 < ino <= maxIno <= MAXINO
    ensures forall y :: Lookup(Added(c, name, ino), y) == if SameName(y, name) then ino else Lookup(c, y)
  {
    AddedSound(c, maxIno, name, ino);
    hide Lookup, Added, Key, SameName, Sound;
    forall y ensures Lookup(Added(c, name, ino), y) == if SameName(y, name) then ino else Lookup(c, y) {
      KeyIsStrncmp(y, name);
      if SameName(y, name) { SameKey(Added(c, name, ino), y, name); }
    }
  }

  lemma KilledNames(c: seq<byte>, maxIno: nat, name: seq<byte>)
    requires Sound(c, maxIno) && FirstNamed(c, name, 0) < Slots(c)
    ensures forall y :: Lookup(Killed(c, FirstNamed(c, name, 0)), y) == if SameName(y, name) then 0 else Lookup(c, y)
  {
    KilledSound(c, maxIno, name);
    hide Lookup, Killed, Key, SameName, Sound;
    var d := Killed(c, FirstNamed(c, name, 0));
    forall y ensures Lookup(d, y) == if SameName(y, name) then 0 else Lookup(c, y) {
      KeyIsStrncmp(y, name);
      if SameName(y, name) { SameKey(d, y, name); }
    }
  }

  lemma SameKey(c: seq<byte>, x: seq<byte>, y: seq<byte>)
    requires Key(x) == Key(y)
    ensures Lookup(c, x) == Lookup(c, y)
  {
    hide Key, NameAt;
    KeyFirst(c, x, y, 0);
  }

  lemma {:induction false} KeyFirst(c: seq<byte>, x: seq<byte>, y: seq<byte>, k: nat)
    requires Key(x) == Key(y) && k <= Slots(c)
    ensures FirstNamed(c, x, k) == FirstNamed(c, y, k)
    decreases Slots(c) - k
  {
    hide Key, NameAt;
    if k < Slots(c) {
      KeyFirst(c, x, y, k + 1);
    }
  }

  // ---------- a new directory ----------

  const DOT: seq<byte> := [46]
  const DOTDOT: seq<byte> := [46, 46]

  lemma TwoSlots(c: seq<byte>, y: seq<byte>)
    requires Slots(c) == 2
    ensures Lookup(c, y) == if NameAt(c, 0) == Key(y) then InoAt(c, 0) else if NameAt(c, 1) == Key(y) then InoAt(c, 1) else 0
  {
    hide Key, NameAt, InoAt;
    assert FirstNamed(c, y, 2) == 2;
    assert FirstNamed(c, y, 1) == if NameAt(c, 1) == Key(y) then 1 else 2;
  }

  lemma NewDirectory(self: nat, parent: nat, maxIno: nat)
    requires self <= maxIno <= MAXINO && parent <= maxIno
    ensures Sound([], maxIno)
    ensures var c := Dirent(self, DOT) + Dirent(parent, DOTDOT);
      && Sound(c, maxIno) && Key(DOT) != Key(DOTDOT)
      && forall y :: Lookup(c, y) == if Key(y) == Key(DOT) then self else if Key(y) == Key(DOTDOT) then parent else 0
  {
    var c := Dirent(self, DOT) + Dirent(parent, DOTDOT);
    assert Slot(c, 0) == Dirent(self, DOT) && Slot(c, 1) == Dirent(parent, DOTDOT);
    DirentReads(self, DOT);
    DirentReads(parent, DOTDOT);
    assert Key(DOT) == DOT && Key(DOTDOT) == DOTDOT by {
      assert DOT[1..] == [] && DOTDOT[1..] == DOT;
    }
    assert Slots(c) == 2 && NameAt(c, 0) == Key(DOT) && NameAt(c, 1) == Key(DOTDOT);
    assert InoAt(c, 0) == self && InoAt(c, 1) == parent;
    hide Key, Slot, NameAt, InoAt, Dirent, Lookup, Sound;
    forall y
      ensures Lookup(c, y) == if Key(y) == Key(DOT) then self else if Key(y) == Key(DOTDOT) then parent else 0
    {
      TwoSlots(c, y);
    }
  }

  /** Live only "." and "..": what rmdir calls empty. */
  ghost predicate OnlyDots(c: seq<byte>)
  {
    forall k :: 0 <= k < Slots(c) && InoAt(c, k) != 0 ==> NameAt(c, k) == Key(DOT) || NameAt(c, k) == Key(DOTDOT)
  }
}
