/** File contents over the block maps: what growing a file and storing into one of its blocks
    does to the bytes a reader sees, in this file and in every other. */
module V7Content {
  import opened V7Layout
  import opened V7BlockMap

  /** The place of file block bn of inode n. */
  ghost function PlaceOf(n: nat, bn: nat): Place { Place(n, SlotOf(bn), PathOf(bn)) }

  lemma BlockAt(v: Vol, n: nat, bn: nat)
    requires n < |v.tab| && HasBlocks(v.tab[n]) && bn < MAXBN
    ensures BlockOf(v.disk, v.tab[n].addr, bn) == Look(v, PlaceOf(n, bn))
    ensures Above(PlaceOf(n, bn)) == 0
  {
    PathOfValid(bn);
  }

  /** No two file blocks, of one file or of two, share a disk block. */
  lemma NoSharing(v: Vol, n: nat, x: nat, m: nat, y: nat)
    requires Owned(v.disk, v.tab, v.own)
    requires n < |v.tab| && HasBlocks(v.tab[n]) && x < MAXBN
    requires m < |v.tab| && HasBlocks(v.tab[m]) && y < MAXBN
    requires BlockOf(v.disk, v.tab[n].addr, x) != 0
    requires BlockOf(v.disk, v.tab[n].addr, x) == BlockOf(v.disk, v.tab[m].addr, y)
    ensures n == m && x == y
  {
    BlockAt(v, n, x);
    BlockAt(v, m, y);
    assert PlaceOf(n, x) == PlaceOf(m, y);
    PathOfInjective(x, y);
  }

  /** wbmap(bn) changes the mapping of bn alone. */
  lemma OthersKeep(v: Vol, w: Vol, n: nat, bn: nat, m: nat, y: nat)
    requires Grew(v, w, n, bn) && (m != n || y != bn)
    requires m < |v.tab| && HasBlocks(v.tab[m]) && |v.tab[m].addr| == NADDR && y < MAXBN
    ensures HasBlocks(w.tab[m])
    ensures BlockOf(w.disk, w.tab[m].addr, y) == BlockOf(v.disk, v.tab[m].addr, y)
  {
    BlockAt(v, m, y);
    BlockAt(w, m, y);
    if OnPath(PlaceOf(m, y), n, bn) {
      PathOfValid(bn);
      PathOfValid(y);
      assert PathOf(y) == PathOf(bn);
      PathOfInjective(y, bn);
    }
  }

  /** A stretch inside one block, read from the disk. */
  lemma InOneBlock(disk: seq<Block>, ino: Inode, off: nat, n: nat)
    requires n <= BSIZE - off % BSIZE && off + n <= ino.size
    requires BlockOf(disk, ino.addr, off / BSIZE) < |disk|
    ensures AsBytes(disk[BlockOf(disk, ino.addr, off / BSIZE)])[off % BSIZE..off % BSIZE + n] == Content(disk, ino)[off..off + n]
  {
    hide BlockOf;
    var d := AsBytes(disk[BlockOf(disk, ino.addr, off / BSIZE)])[off % BSIZE..off % BSIZE + n];
    var c := Content(disk, ino)[off..off + n];
    forall k | 0 <= k < n ensures d[k] == c[k] {
      assert (off + k) / BSIZE == off / BSIZE && (off + k) % BSIZE == off % BSIZE + k;
      assert c[k] == ByteAt(disk, ino.addr, off + k);
    }
  }

  // ---------- the other files ----------

  /** Inode n apart, inodes, maps and the blocks in use are the same in v and w. */
  ghost predicate OthersSame(v: Vol, w: Vol, n: nat)
  {
    && |w.disk| == |v.disk| && |w.tab| == |v.tab|
    && (forall m :: 0 <= m < |v.tab| && m != n ==> w.tab[m] == v.tab[m])
    && (forall z: Place :: z.n != n ==> Look(w, z) == Look(v, z))
    && (forall x :: x in v.own && v.own[x].n != n ==> x in w.own && w.own[x] == v.own[x])
    && (forall x :: 0 <= x < |v.disk| && x in v.own && v.own[x].n != n ==> w.disk[x] == v.disk[x])
  }

  lemma OthersSameTwice(u: Vol, v: Vol, w: Vol, n: nat)
    requires OthersSame(u, v, n) && OthersSame(v, w, n)
    ensures OthersSame(u, w, n)
  {
  }

  lemma GrewOthers(v: Vol, w: Vol, n: nat, bn: nat)
    requires Grew(v, w, n, bn) && Owned(v.disk, v.tab, v.own) && Owned(w.disk, w.tab, w.own)
    ensures OthersSame(v, w, n)
  {
  }

  /** What holds of another file's bytes before still holds after. */
  lemma ContentSame(v: Vol, w: Vol, n: nat, m: nat)
    requires OthersSame(v, w, n) && Owned(v.disk, v.tab, v.own)
    requires m < |v.tab| && m != n && HasBlocks(v.tab[m]) && HoleFree(v.disk, v.tab[m])
    ensures w.tab[m] == v.tab[m] && HoleFree(w.disk, w.tab[m])
    ensures Content(w.disk, w.tab[m]) == Content(v.disk, v.tab[m])
  {
    forall bn | 0 <= bn && bn * BSIZE < v.tab[m].size
      ensures BlockOf(w.disk, w.tab[m].addr, bn) == BlockOf(v.disk, v.tab[m].addr, bn) != 0
    {
      BlockAt(v, m, bn);
      BlockAt(w, m, bn);
    }
    forall k | 0 <= k < v.tab[m].size ensures ByteAt(w.disk, w.tab[m].addr, k) == ByteAt(v.disk, v.tab[m].addr, k) {
      BlockAt(v, m, k / BSIZE);
      assert k / BSIZE * BSIZE < v.tab[m].size;
    }
  }

  /** Growing alone shows a reader nothing. */
  lemma GrewContent(v: Vol, w: Vol, n: nat, bn: nat)
    requires Grew(v, w, n, bn) && Owned(v.disk, v.tab, v.own)
    requires n < |v.tab| && HasBlocks(v.tab[n]) && HoleFree(v.disk, v.tab[n])
    requires forall x :: x in v.own ==> x < |v.disk|
    ensures HasBlocks(w.tab[n]) && HoleFree(w.disk, w.tab[n])
    ensures Content(w.disk, w.tab[n]) == Content(v.disk, v.tab[n])
  {
    forall y | 0 <= y && y * BSIZE < v.tab[n].size
      ensures BlockOf(w.disk, w.tab[n].addr, y) == BlockOf(v.disk, v.tab[n].addr, y) != 0
      ensures BlockOf(v.disk, v.tab[n].addr, y) in v.own
      ensures w.disk[BlockOf(v.disk, v.tab[n].addr, y)] == v.disk[BlockOf(v.disk, v.tab[n].addr, y)]
    {
      BlockAt(v, n, y);
      BlockAt(w, n, y);
      LeafOwned(v, n, y);
    }
    forall k | 0 <= k < v.tab[n].size ensures ByteAt(w.disk, w.tab[n].addr, k) == ByteAt(v.disk, v.tab[n].addr, k) {
      assert k / BSIZE * BSIZE < v.tab[n].size;
    }
  }

  /** Inode m is the same in v and w, and so is what a reader of its file sees. */
  ghost predicate FileSame(v: Vol, w: Vol, m: nat)
  {
    && m < |v.tab| && |w.tab| == |v.tab| && w.tab[m] == v.tab[m]
    && (HasBlocks(v.tab[m]) && HoleFree(v.disk, v.tab[m]) ==>
          HoleFree(w.disk, w.tab[m]) && Content(w.disk, w.tab[m]) == Content(v.disk, v.tab[m]))
  }

  /** The bytes of file m stay what they are, whatever becomes of its link count. */
  ghost predicate BytesSame(v: Vol, w: Vol, m: nat)
  {
    && m < |v.tab| && |w.tab| == |v.tab| && HasBlocks(w.tab[m]) == HasBlocks(v.tab[m]) && w.tab[m].size == v.tab[m].size
    && (HasBlocks(v.tab[m]) && HoleFree(v.disk, v.tab[m]) ==>
          HoleFree(w.disk, w.tab[m]) && Content(w.disk, w.tab[m]) == Content(v.disk, v.tab[m]))
  }

  lemma BytesTwice(u: Vol, v: Vol, w: Vol, m: nat)
    requires (FileSame(u, v, m) || BytesSame(u, v, m)) && (FileSame(v, w, m) || BytesSame(v, w, m))
    ensures BytesSame(u, w, m)
  {
    hide HoleFree, Content;
  }

  lemma OthersAreSame(v: Vol, w: Vol, n: nat)
    requires OthersSame(v, w, n) && Owned(v.disk, v.tab, v.own)
    ensures forall m :: 0 <= m < |v.tab| && m != n ==> FileSame(v, w, m)
  {
    hide Owned;
    forall m | 0 <= m < |v.tab| && m != n ensures FileSame(v, w, m) {
      if HasBlocks(v.tab[m]) && HoleFree(v.disk, v.tab[m]) { ContentSame(v, w, n, m); }
    }
  }

  /** Inode n's links or kind of bookkeeping changed, its size and addresses did not, and no block
      of the data area did: every place and every byte is where it was. */
  lemma SameBlocks(v: Vol, w: Vol, n: nat, lo: nat)
    requires Owned(v.disk, v.tab, v.own) && |w.disk| == |v.disk| && |w.tab| == |v.tab| && n < |v.tab|
    requires forall m :: 0 <= m < |v.tab| && m != n ==> w.tab[m] == v.tab[m]
    requires w.tab[n].kind == v.tab[n].kind && w.tab[n].size == v.tab[n].size && w.tab[n].addr == v.tab[n].addr
    requires w.own == v.own && forall x :: x in v.own ==> lo <= x
    requires forall x :: lo <= x < |v.disk| ==> w.disk[x] == v.disk[x]
    ensures OthersSame(v, w, n) && Owned(w.disk, w.tab, w.own) && forall z :: Look(w, z) == Look(v, z)
    ensures HasBlocks(v.tab[n]) && HoleFree(v.disk, v.tab[n]) ==>
              HoleFree(w.disk, w.tab[n]) && Content(w.disk, w.tab[n]) == Content(v.disk, v.tab[n])
  {
    OwnedFrame(v.disk, w.disk, v.tab, w.tab, v.own);
    if HasBlocks(v.tab[n]) && HoleFree(v.disk, v.tab[n]) {
      SameBytes(v, w, n, lo);
    }
  }

  lemma SameBytes(v: Vol, w: Vol, n: nat, lo: nat)
    requires Owned(v.disk, v.tab, v.own) && |w.disk| == |v.disk| && |w.tab| == |v.tab| && n < |v.tab|
    requires HasBlocks(v.tab[n]) && HoleFree(v.disk, v.tab[n]) && HasBlocks(w.tab[n])
    requires w.tab[n].size == v.tab[n].size && w.tab[n].addr == v.tab[n].addr
    requires forall x :: x in v.own ==> lo <= x
    requires forall x :: lo <= x < |v.disk| ==> w.disk[x] == v.disk[x]
    requires forall z :: Look(w, z) == Look(v, z)
    ensures HoleFree(w.disk, w.tab[n]) && Content(w.disk, w.tab[n]) == Content(v.disk, v.tab[n])
  {
    hide Owned, Walk;
    forall y | 0 <= y && y * BSIZE < v.tab[n].size
      ensures BlockOf(w.disk, w.tab[n].addr, y) == BlockOf(v.disk, v.tab[n].addr, y) != 0
      ensures lo <= BlockOf(v.disk, v.tab[n].addr, y)
    {
      BlockAt(v, n, y);
      BlockAt(w, n, y);
      LeafOwned(v, n, y);
    }
    forall k | 0 <= k < v.tab[n].size ensures ByteAt(w.disk, w.tab[n].addr, k) == ByteAt(v.disk, v.tab[n].addr, k) {
      assert k / BSIZE * BSIZE < v.tab[n].size;
    }
  }

  // ---------- storing into a block of a file ----------

  /** c with s written over it from position off on, longer if s reaches past the end. */
  function Splice(c: seq<byte>, off: nat, s: seq<byte>): (r: seq<byte>)
    requires off <= |c|
    ensures |r| == if off + |s| <= |c| then |c| else off + |s|
    ensures forall k :: 0 <= k < |r| ==> r[k] == if off <= k < off + |s| then s[k - off] else c[k]
  {
    c[..off] + s + if off + |s| <= |c| then c[off + |s|..] else []
  }

  lemma SpliceTwice(c: seq<byte>, off: nat, s: seq<byte>, t: seq<byte>)
    requires off <= |c|
    ensures Splice(Splice(c, off, s), off + |s|, t) == Splice(c, off, s + t)
  {
  }

  /** The leaf behind file block bn of inode n got new bytes and the size was raised to cover
      them; nothing else changed. */
  ghost predicate Stored(u: Vol, w: Vol, n: nat, bn: nat, o: nat, s: seq<byte>)
  {
    && n < |u.tab| && HasBlocks(u.tab[n]) && bn < MAXBN && o + |s| <= BSIZE && |w.disk| == |u.disk|
    && var nb := BlockOf(u.disk, u.tab[n].addr, bn);
    && 0 < nb < |u.disk|
    && w.disk == u.disk[nb := w.disk[nb]]
    && AsBytes(w.disk[nb])[o..o + |s|] == s
    && AsBytes(w.disk[nb])[..o] == AsBytes(u.disk[nb])[..o]
    && AsBytes(w.disk[nb])[o + |s|..] == AsBytes(u.disk[nb])[o + |s|..]
    && w.own == u.own && w.free == u.free
    && var end := bn * BSIZE + o + |s|;
    && w.tab == u.tab[n := u.tab[n].(size := if end > u.tab[n].size then end else u.tab[n].size)]
  }

  /** From v to w inode n's file, if it had no holes, had s written over it from off on; whether
      holes or not, no other file was touched. */
  ghost predicate Written(v: Vol, w: Vol, n: nat, off: nat, s: seq<byte>)
  {
    && OthersSame(v, w, n)
    && n < |v.tab| && n < |w.tab| && HasBlocks(v.tab[n]) && HasBlocks(w.tab[n])
    && w.tab[n].kind == v.tab[n].kind && w.tab[n].nlink == v.tab[n].nlink
    && (HoleFree(v.disk, v.tab[n]) && off <= v.tab[n].size ==>
          && HoleFree(w.disk, w.tab[n])
          && Content(w.disk, w.tab[n]) == Splice(Content(v.disk, v.tab[n]), off, s))
  }

  lemma WrittenTwice(u: Vol, v: Vol, w: Vol, n: nat, off: nat, s: seq<byte>, t: seq<byte>)
    requires Written(u, v, n, off, s) && Written(v, w, n, off + |s|, t)
    ensures Written(u, w, n, off, s + t)
  {
    OthersSameTwice(u, v, w, n);
    if HoleFree(u.disk, u.tab[n]) && off <= u.tab[n].size {
      SpliceTwice(Content(u.disk, u.tab[n]), off, s, t);
    }
  }

  lemma SizeKept(v: Vol, w: Vol, n: nat, bn: nat)
    requires Grew(v, w, n, bn) && n < |v.tab|
    ensures w.tab[n] == v.tab[n].(addr := w.tab[n].addr)
  {
  }

  lemma WrittenNothing(v: Vol, w: Vol, n: nat, bn: nat, off: nat)
    requires Grew(v, w, n, bn) && Owned(v.disk, v.tab, v.own) && Owned(w.disk, w.tab, w.own)
    requires n < |v.tab| && HasBlocks(v.tab[n])
    requires forall x :: x in v.own ==> x < |v.disk|
    ensures Written(v, w, n, off, [])
  {
    GrewOthers(v, w, n, bn);
    if HoleFree(v.disk, v.tab[n]) && off <= v.tab[n].size {
      GrewContent(v, w, n, bn);
      assert Splice(Content(v.disk, v.tab[n]), off, []) == Content(v.disk, v.tab[n]);
    }
  }

  lemma WrittenChunk(v: Vol, u: Vol, w: Vol, n: nat, off: nat, s: seq<byte>)
    requires Owned(v.disk, v.tab, v.own) && Owned(u.disk, u.tab, u.own)
    requires n < |v.tab| && HasBlocks(v.tab[n])
    requires forall x :: x in v.own ==> x < |v.disk|
    requires Grew(v, u, n, off / BSIZE) && Stored(u, w, n, off / BSIZE, off % BSIZE, s)
    ensures Written(v, w, n, off, s) && Owned(w.disk, w.tab, w.own)
    ensures forall z :: Look(w, z) == Look(u, z)
  {
    GrewOthers(v, u, n, off / BSIZE);
    StoredKeeps(u, w, n, off / BSIZE, off % BSIZE, s);
    OthersSameTwice(v, u, w, n);
    if HoleFree(v.disk, v.tab[n]) && off <= v.tab[n].size {
      ChunkWritten(v, u, w, n, off, s);
    }
  }

  /** The buffer writei writes: s laid over the old bytes, which only matter when s does not
      cover the whole block. */
  function Patch(base: seq<byte>, o: nat, s: seq<byte>): (d: seq<byte>)
    requires |base| == BSIZE && o + |s| <= BSIZE
    ensures |d| == BSIZE
  {
    base[..o] + s + base[o + |s|..]
  }

  lemma MakeStored(u: Vol, w: Vol, n: nat, off: nat, s: seq<byte>, base: seq<byte>, nb: nat)
    requires n < |u.tab| && HasBlocks(u.tab[n]) && off / BSIZE < MAXBN && off % BSIZE + |s| <= BSIZE && |base| == BSIZE
    requires nb == BlockOf(u.disk, u.tab[n].addr, off / BSIZE) && 0 < nb < |u.disk|
    requires off % BSIZE != 0 || |s| != BSIZE ==> base == AsBytes(u.disk[nb])
    requires w.disk == u.disk[nb := Bytes(Patch(base, off % BSIZE, s))]
    requires w.own == u.own && w.free == u.free
    requires w.tab == u.tab[n := u.tab[n].(size := if off + |s| > u.tab[n].size then off + |s| else u.tab[n].size)]
    ensures Stored(u, w, n, off / BSIZE, off % BSIZE, s)
  {
    hide BlockOf;
    var o := off % BSIZE;
    var d := Patch(base, o, s);
    assert d[o..o + |s|] == s && d[..o] == base[..o] && d[o + |s|..] == base[o + |s|..];
    var was := AsBytes(u.disk[nb]);
    if o == 0 && |s| == BSIZE {
      assert was[..0] == base[..0] && was[BSIZE..] == base[BSIZE..];
    }
  }

  lemma StoredKeeps(u: Vol, w: Vol, n: nat, bn: nat, o: nat, s: seq<byte>)
    requires Owned(u.disk, u.tab, u.own) && Stored(u, w, n, bn, o, s)
    ensures Owned(w.disk, w.tab, w.own) && OthersSame(u, w, n)
    ensures forall z :: Look(w, z) == Look(u, z)
  {
    BlockAt(u, n, bn);
    OwnedFrame(u.disk, w.disk, u.tab, w.tab, u.own);
  }

  /** One round of writei on a file without holes: the chunk is spliced into the byte string. */
  lemma ChunkWritten(v: Vol, u: Vol, w: Vol, n: nat, off: nat, s: seq<byte>)
    requires Owned(v.disk, v.tab, v.own) && Owned(u.disk, u.tab, u.own)
    requires n < |v.tab| && HasBlocks(v.tab[n]) && HoleFree(v.disk, v.tab[n]) && off <= v.tab[n].size
    requires forall x :: x in v.own ==> x < |v.disk|
    requires Grew(v, u, n, off / BSIZE) && Stored(u, w, n, off / BSIZE, off % BSIZE, s)
    ensures HasBlocks(w.tab[n]) && HoleFree(w.disk, w.tab[n])
    ensures Content(w.disk, w.tab[n]) == Splice(Content(v.disk, v.tab[n]), off, s)
  {
    hide Owned, Grew, Stored, BlockOf;
    SizeAfter(v, u, w, n, off, s);
    StoredKeeps(u, w, n, off / BSIZE, off % BSIZE, s);
    assert w.tab[n].size <= MAXBN * BSIZE by {
      assert off / BSIZE * BSIZE + off % BSIZE == off;
    }
    forall y | 0 <= y && y * BSIZE < w.tab[n].size ensures BlockOf(w.disk, w.tab[n].addr, y) != 0 {
      StillMapped(v, u, w, n, off, s, y);
    }
    forall k | 0 <= k < w.tab[n].size
      ensures ByteAt(w.disk, w.tab[n].addr, k) == Splice(Content(v.disk, v.tab[n]), off, s)[k]
    {
      ByteWritten(v, u, w, n, off, s, k);
    }
  }

  /** The inode after a round of writei. */
  lemma SizeAfter(v: Vol, u: Vol, w: Vol, n: nat, off: nat, s: seq<byte>)
    requires n < |v.tab| && HasBlocks(v.tab[n])
    requires Grew(v, u, n, off / BSIZE) && Stored(u, w, n, off / BSIZE, off % BSIZE, s)
    ensures |w.tab| == |v.tab| && HasBlocks(w.tab[n]) && HasBlocks(u.tab[n]) && w.tab[n].addr == u.tab[n].addr
    ensures w.tab[n].size == if off + |s| > v.tab[n].size then off + |s| else v.tab[n].size
    ensures off / BSIZE < MAXBN && off % BSIZE + |s| <= BSIZE
  {
    hide BlockOf;
    SizeKept(v, u, n, off / BSIZE);
  }

  /** Every file block the new size asks for is there, where it was after growing. */
  lemma StillMapped(v: Vol, u: Vol, w: Vol, n: nat, off: nat, s: seq<byte>, y: nat)
    requires Owned(v.disk, v.tab, v.own) && Owned(u.disk, u.tab, u.own)
    requires n < |v.tab| && HasBlocks(v.tab[n]) && HoleFree(v.disk, v.tab[n]) && off <= v.tab[n].size
    requires Grew(v, u, n, off / BSIZE) && Stored(u, w, n, off / BSIZE, off % BSIZE, s)
    requires n < |w.tab| && y * BSIZE < w.tab[n].size && y < MAXBN
    ensures BlockOf(w.disk, w.tab[n].addr, y) == BlockOf(u.disk, u.tab[n].addr, y) != 0
  {
    hide Owned, Grew, BlockOf;
    SizeAfter(v, u, w, n, off, s);
    StoredKeeps(u, w, n, off / BSIZE, off % BSIZE, s);
    BlockAt(u, n, y);
    BlockAt(w, n, y);
    if y != off / BSIZE {
      assert y * BSIZE < v.tab[n].size;
      OthersKeep(v, u, n, off / BSIZE, n, y);
    }
  }

  lemma ByteWritten(v: Vol, u: Vol, w: Vol, n: nat, off: nat, s: seq<byte>, k: nat)
    requires Owned(v.disk, v.tab, v.own) && Owned(u.disk, u.tab, u.own)
    requires n < |v.tab| && HasBlocks(v.tab[n]) && HoleFree(v.disk, v.tab[n]) && off <= v.tab[n].size
    requires forall x :: x in v.own ==> x < |v.disk|
    requires Grew(v, u, n, off / BSIZE) && Stored(u, w, n, off / BSIZE, off % BSIZE, s)
    requires n < |w.tab| && k < w.tab[n].size && k / BSIZE < MAXBN
    ensures ByteAt(w.disk, w.tab[n].addr, k) == if off <= k < off + |s| then s[k - off] else ByteAt(v.disk, v.tab[n].addr, k)
  {
    hide Owned, Grew, BlockOf, Stored;
    var bn, y := off / BSIZE, k / BSIZE;
    SizeAfter(v, u, w, n, off, s);
    assert y * BSIZE < w.tab[n].size;
    StillMapped(v, u, w, n, off, s, y);
    if y != bn {
      OtherBlock(v, u, w, n, off, s, k);
    } else {
      SameBlockByte(v, u, w, n, off, s, k);
    }
  }

  lemma SameBlockByte(v: Vol, u: Vol, w: Vol, n: nat, off: nat, s: seq<byte>, k: nat)
    requires Owned(v.disk, v.tab, v.own)
    requires n < |v.tab| && HasBlocks(v.tab[n]) && HoleFree(v.disk, v.tab[n]) && off <= v.tab[n].size
    requires forall x :: x in v.own ==> x < |v.disk|
    requires Grew(v, u, n, off / BSIZE) && Stored(u, w, n, off / BSIZE, off % BSIZE, s)
    requires n < |w.tab| && k < w.tab[n].size && k / BSIZE == off / BSIZE
    requires BlockOf(w.disk, w.tab[n].addr, k / BSIZE) == BlockOf(u.disk, u.tab[n].addr, k / BSIZE)
    ensures ByteAt(w.disk, w.tab[n].addr, k) == if off <= k < off + |s| then s[k - off] else ByteAt(v.disk, v.tab[n].addr, k)
  {
    hide Owned, Grew, BlockOf;
    var bn := off / BSIZE;
    SizeAfter(v, u, w, n, off, s);
    var nb := BlockOf(u.disk, u.tab[n].addr, bn);
    PatchedByte(AsBytes(u.disk[nb]), AsBytes(w.disk[nb]), off % BSIZE, s, k % BSIZE);
    assert off <= k < off + |s| <==> off % BSIZE <= k % BSIZE < off % BSIZE + |s|;
    if !(off <= k < off + |s|) {
      assert k < v.tab[n].size;
      assert bn * BSIZE < v.tab[n].size;
      LeafOwned(v, n, bn);
      SameBlock(v, u, n, bn);
    }
  }

  /** A block that was there keeps its place and its bytes while the file grows. */
  lemma SameBlock(v: Vol, u: Vol, n: nat, bn: nat)
    requires Owned(v.disk, v.tab, v.own)
    requires n < |v.tab| && HasBlocks(v.tab[n]) && bn < MAXBN
    requires BlockOf(v.disk, v.tab[n].addr, bn) != 0 && BlockOf(v.disk, v.tab[n].addr, bn) < |v.disk|
    requires Grew(v, u, n, bn)
    ensures BlockOf(u.disk, u.tab[n].addr, bn) == BlockOf(v.disk, v.tab[n].addr, bn)
    ensures u.disk[BlockOf(v.disk, v.tab[n].addr, bn)] == v.disk[BlockOf(v.disk, v.tab[n].addr, bn)]
  {
    BlockAt(v, n, bn);
    BlockAt(u, n, bn);
    LeafOwned(v, n, bn);
  }

  lemma PatchedByte(was: seq<byte>, now: seq<byte>, o: nat, s: seq<byte>, i: nat)
    requires |was| == |now| && o + |s| <= |now| && i < |now|
    requires now[o..o + |s|] == s && now[..o] == was[..o] && now[o + |s|..] == was[o + |s|..]
    ensures now[i] == if o <= i < o + |s| then s[i - o] else was[i]
  {
    if i < o {
      assert now[..o][i] == was[..o][i];
    } else if i < o + |s| {
      assert now[o..o + |s|][i - o] == s[i - o];
    } else {
      assert now[o + |s|..][i - o - |s|] == was[o + |s|..][i - o - |s|];
    }
  }

  lemma OtherBlock(v: Vol, u: Vol, w: Vol, n: nat, off: nat, s: seq<byte>, k: nat)
    requires Owned(v.disk, v.tab, v.own) && Owned(u.disk, u.tab, u.own)
    requires n < |v.tab| && HasBlocks(v.tab[n]) && HoleFree(v.disk, v.tab[n]) && off <= v.tab[n].size
    requires forall x :: x in v.own ==> x < |v.disk|
    requires Grew(v, u, n, off / BSIZE) && Stored(u, w, n, off / BSIZE, off % BSIZE, s)
    requires n < |w.tab| && k < w.tab[n].size && k / BSIZE < MAXBN && k / BSIZE != off / BSIZE
    requires BlockOf(w.disk, w.tab[n].addr, k / BSIZE) == BlockOf(u.disk, u.tab[n].addr, k / BSIZE)
    ensures k < v.tab[n].size && !(off <= k < off + |s|)
    ensures ByteAt(w.disk, w.tab[n].addr, k) == ByteAt(v.disk, v.tab[n].addr, k)
  {
    hide Owned, BlockOf;
    var bn, y := off / BSIZE, k / BSIZE;
    SizeAfter(v, u, w, n, off, s);
    OthersKeep(v, u, n, bn, n, y);
    assert k < v.tab[n].size;
    assert y * BSIZE < v.tab[n].size;
    var x := BlockOf(v.disk, v.tab[n].addr, y);
    LeafOwned(v, n, y);
    if x == BlockOf(u.disk, u.tab[n].addr, bn) { NoSharing(u, n, y, n, bn); }
  }

  lemma LeafOwned(v: Vol, n: nat, y: nat)
    requires Owned(v.disk, v.tab, v.own)
    requires n < |v.tab| && HasBlocks(v.tab[n]) && y < MAXBN
    requires BlockOf(v.disk, v.tab[n].addr, y) != 0
    ensures BlockOf(v.disk, v.tab[n].addr, y) in v.own
    ensures Above(v.own[BlockOf(v.disk, v.tab[n].addr, y)]) == 0
  {
    BlockAt(v, n, y);
  }
}
