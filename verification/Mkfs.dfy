/** mkfs.c: inodes and blocks handed out from two counters, files appended block by block, and the
    bitmap written last.  Sectors are zero at the start. */
module Mkfs {
  import opened FsModel
  import opened FsCode

  class Image {
    const g: Geometry
    var disk: seq<Block>
    var inodes: seq<Inode>
    var freeblock: nat
    var freeinode: nat
    ghost var owner: map<nat, Slot>
    /** What each file holds. */
    ghost var content: seq<seq<byte>>

    /** Blocks nmeta..freeblock-1 are exactly those some slot names, each once. */
    ghost predicate Counted()
      reads this
    {
      && 1 <= g.nmeta <= freeblock <= g.size < LIMIT && |disk| == g.size
      && Sized(inodes) && 1 <= freeinode <= |inodes|
      && Owned(g, disk, inodes, owner, {})
      && (forall b: nat :: b in owner <==> g.nmeta <= b < freeblock)
      && (forall b: nat :: freeblock <= b < g.size ==> disk[b] == ZERO)
      && (forall n :: freeinode <= n < |inodes| ==> inodes[n] == Inode(0, 0, 0, 0, 0, NoBlocks()))
    }

    /** ...every file has exactly the blocks its size needs, and the counter has passed that many. */
    ghost predicate Valid()
      reads this
    {
      && Counted() && Holds(disk, inodes, content) && freeblock == g.nmeta + Total(content)
      && forall n :: 0 <= n < |inodes| ==> Exact(disk, inodes, n, inodes[n].size) && inodes[n].size == |content[n]|
    }

    /** The inodes handed out are in use, those not handed out are blank, and link counts are small. */
    ghost predicate Tidy()
      reads this
    {
      && 1 <= |inodes| && inodes[0] == Inode(0, 0, 0, 0, 0, NoBlocks())
      && forall m :: 0 <= m < |inodes| ==>
           inodes[m].nlink < 65536 && if 1 <= m < freeinode then inodes[m].typ != 0 else inodes[m] == Inode(0, 0, 0, 0, 0, NoBlocks())
    }

    /** The layout and zeroed sectors of main. */
    constructor (g: Geometry, ninodes: nat)
      requires 1 <= g.nmeta <= g.size < LIMIT && ninodes >= 1
      ensures Valid() && this.g == g && |inodes| == ninodes && freeinode == 1 && freeblock == g.nmeta
      ensures forall m :: 0 <= m < ninodes ==> inodes[m].typ == 0 && inodes[m].nlink == 0
      ensures content == seq(ninodes, _ => []) && Tidy()
    {
      this.g := g;
      disk := seq(g.size, _ => ZERO);
      inodes := seq(ninodes, _ => Inode(0, 0, 0, 0, 0, NoBlocks()));
      freeblock, freeinode := g.nmeta, 1;
      owner, content := map[], seq(ninodes, _ => []);
      TotalEmpty(ninodes);
    }

    /** ialloc: the next inode number.  false where the inode blocks are used up: the program does not
        check, and the inode would go over the bitmap. */
    method Ialloc(typ: nat) returns (ok: bool, inum: nat)
      requires Valid()
      modifies this`inodes, this`freeinode
      ensures Valid() && inum == old(freeinode) && (ok <==> inum < |old(inodes)|)
      ensures ok ==> freeinode == inum + 1 && inodes == old(inodes)[inum := Inode(typ, 0, 0, 1, 0, NoBlocks())]
      ensures !ok ==> inodes == old(inodes) && freeinode == old(freeinode)
    {
      hide Owned, Total, FileFull, Keeps;
      ghost var i0 := inodes;
      if freeinode >= |inodes| {
        return false, freeinode;
      }
      ok := true;
      inum := freeinode;
      freeinode := freeinode + 1;
      inodes := inodes[inum := Inode(typ, 0, 0, 1, 0, NoBlocks())];
      SameAddrs(g, disk, i0, inodes, owner);
    }

    /** The next block goes to an empty slot of the inode. */
    method NewInInode(n: nat, i: nat) returns (ok: bool)
      requires Counted() && n < freeinode && i <= NDIRECT && inodes[n].addrs[i] == 0
      modifies this`inodes, this`freeblock, this`owner
      ensures ok <==> old(freeblock) < g.size
      ensures !ok ==> freeblock == old(freeblock)
      ensures ok ==> Counted() && inodes == SetAddr(old(inodes), n, i, old(freeblock)) && inodes[n].addrs[i] != 0
      ensures ok ==> freeblock == old(freeblock) + 1 && SameBytes(disk, old(inodes), disk, inodes)
      ensures ok ==> Keeps(disk, old(inodes), disk, inodes)
      ensures ok ==> OnlySlot(disk, old(inodes), disk, inodes, Direct(n, i), old(freeblock))
    {
      hide Owned, Keeps, OnlySlot, Word;
      if freeblock == g.size {
        return false;
      }
      ghost var a := freeblock;
      assert disk[a := ZERO] == disk;
      AssignInInode(g, disk, inodes, owner, n, i, a);
      inodes := SetAddr(inodes, n, i, freeblock);
      freeblock := freeblock + 1;
      owner := owner[a := Direct(n, i)];
      SameBytesAt(disk, old(inodes), disk, inodes, Direct(n, i), a);
      ok := true;
    }

    /** The next block goes to an empty entry of the indirect block. */
    method NewEntry(n: nat, j: nat) returns (ok: bool)
      requires Counted() && n < freeinode && j < NINDIRECT && inodes[n].addrs[NDIRECT] != 0
      requires Addr(disk, inodes, Indirect(n, j)) == 0
      modifies this`disk, this`freeblock, this`owner
      ensures ok <==> old(freeblock) < g.size
      ensures !ok ==> freeblock == old(freeblock)
      ensures ok ==> Counted() && Keeps(old(disk), inodes, disk, inodes) && Addr(disk, inodes, Indirect(n, j)) != 0
      ensures ok ==> OnlySlot(old(disk), inodes, disk, inodes, Indirect(n, j), old(freeblock))
      ensures ok ==> freeblock == old(freeblock) + 1 && SameBytes(old(disk), inodes, disk, inodes)
    {
      hide Owned, Keeps, SetWord, OnlySlot;
      if freeblock == g.size {
        return false;
      }
      ghost var d0, a := disk, freeblock;
      assert disk[a := ZERO] == disk;
      PointerOwned(g, disk, inodes, owner, n);
      AssignEntry(g, disk, inodes, owner, n, j, a);
      var p := inodes[n].addrs[NDIRECT];
      disk := disk[p := SetWord(disk[p], j, freeblock)];
      freeblock := freeblock + 1;
      owner := owner[a := Indirect(n, j)];
      OnlySlotAt(d0, inodes, disk, inodes, Indirect(n, j), a);
      SameBytesAt(d0, inodes, disk, inodes, Indirect(n, j), a);
      ok := true;
    }

    /** Of the slots that name data, and of other files' slots, only s changed. */
    twostate predicate OnlyData(s: Slot)
      reads this
      requires old(Sized(inodes)) && Sized(inodes)
    {
      |inodes| == |old(inodes)| &&
      forall t {:trigger Addr(disk, inodes, t)} :: ValidSlot(t, |inodes|) && (DataSlot(t) || t.inum != s.inum) && t != s ==>
        Addr(disk, inodes, t) == Addr(old(disk), old(inodes), t)
    }

    /** The sector for block fbn of inode n, taken from the counter if it has none, after the indirect
        block if that is missing too; false exactly where the image is too small. */
    method Sector(n: nat, fbn: nat) returns (ok: bool, x: nat)
      requires Counted() && n < freeinode && fbn < MAXFILE
      modifies this`disk, this`inodes, this`freeblock, this`owner
      ensures ok ==> Counted() && Keeps(old(disk), old(inodes), disk, inodes) && OnlyData(SlotOf(n, fbn))
      ensures ok ==> SameBytes(old(disk), old(inodes), disk, inodes)
      ensures ok ==> forall m :: 0 <= m < |inodes| ==> inodes[m] == old(inodes)[m].(addrs := inodes[m].addrs)
      ensures ok ==> x == Addr(disk, inodes, SlotOf(n, fbn)) && x != 0 && x < freeblock
      ensures ok ==> fbn < NDIRECT ==> inodes[n].addrs[NDIRECT] == old(inodes)[n].addrs[NDIRECT]
      ensures ok <==> old(freeblock) + SlotCost(old(disk), old(inodes), n, fbn) <= g.size
      ensures ok ==> freeblock == old(freeblock) + SlotCost(old(disk), old(inodes), n, fbn)
    {
      hide Owned, Keeps, Word, SameBytes;
      KeepsSame(disk, inodes);
      SameBytesSame(disk, inodes);
      ok, x := true, 0;
      if fbn < NDIRECT {
        if inodes[n].addrs[fbn] == 0 {
          ok := NewInInode(n, fbn);
          if !ok { return; }
        }
        x := inodes[n].addrs[fbn];
      } else {
        ok := Pointer(n);
        if !ok { return; }
        ghost var d1, i1 := disk, inodes;
        ok, x := Entry(n, fbn - NDIRECT);
        if !ok { return; }
        KeepsTrans(old(disk), old(inodes), d1, i1, disk, inodes);
        SameBytesTrans(old(disk), old(inodes), d1, i1, disk, inodes);
      }
      InOwner(g, disk, inodes, owner, SlotOf(n, fbn));
    }

    /** Inode n's indirect block, taken from the counter if it has none. */
    method Pointer(n: nat) returns (ok: bool)
      requires Counted() && n < freeinode
      modifies this`inodes, this`freeblock, this`owner
      ensures ok ==> Counted() && Keeps(disk, old(inodes), disk, inodes) && SameBytes(disk, old(inodes), disk, inodes)
      ensures ok ==> inodes[n].addrs[NDIRECT] != 0
      ensures ok ==> forall m :: 0 <= m < |inodes| ==> inodes[m] == old(inodes)[m].(addrs := inodes[m].addrs)
      ensures ok ==> forall t {:trigger Addr(disk, inodes, t)} :: ValidSlot(t, |inodes|) && t != Direct(n, NDIRECT) ==>
                Addr(disk, inodes, t) == Addr(disk, old(inodes), t)
      ensures ok <==> old(inodes)[n].addrs[NDIRECT] != 0 || old(freeblock) < g.size
      ensures ok ==> freeblock == old(freeblock) + if old(inodes)[n].addrs[NDIRECT] == 0 then 1 else 0
    {
      hide Owned, Keeps, Word, SameBytes;
      KeepsSame(disk, inodes);
      SameBytesSame(disk, inodes);
      ok := true;
      if inodes[n].addrs[NDIRECT] == 0 {
        ok := NewInInode(n, NDIRECT);
      }
    }

    method Entry(n: nat, j: nat) returns (ok: bool, x: nat)
      requires Counted() && n < freeinode && j < NINDIRECT && inodes[n].addrs[NDIRECT] != 0
      modifies this`disk, this`freeblock, this`owner
      ensures ok ==> Counted() && Keeps(old(disk), inodes, disk, inodes) && OnlyData(Indirect(n, j))
      ensures ok ==> SameBytes(old(disk), inodes, disk, inodes)
      ensures ok ==> x == Addr(disk, inodes, Indirect(n, j)) && x != 0
      ensures ok <==> Addr(old(disk), inodes, Indirect(n, j)) != 0 || old(freeblock) < g.size
      ensures ok ==> freeblock == old(freeblock) + if Addr(old(disk), inodes, Indirect(n, j)) == 0 then 1 else 0
    {
      hide Owned, Keeps, Word, SameBytes;
      KeepsSame(disk, inodes);
      SameBytesSame(disk, inodes);
      ok := true;
      PointerOwned(g, disk, inodes, owner, n);
      x := Word(disk[inodes[n].addrs[NDIRECT]], j);
      if x == 0 {
        ok := NewEntry(n, j);
        if !ok { return; }
        PointerOwned(g, disk, inodes, owner, n);
        x := Word(disk[inodes[n].addrs[NDIRECT]], j);
      }
    }

    /** Where iappend leaves the image while it works: only inode n's slots change. */
    twostate predicate Growing(n: nat)
      reads this
      requires old(Sized(inodes)) && Sized(inodes)
    {
      && |inodes| == |old(inodes)|
      && (forall m :: 0 <= m < |inodes| ==> inodes[m] == old(inodes)[m].(addrs := inodes[m].addrs))
      && (forall t {:trigger Addr(disk, inodes, t)} :: ValidSlot(t, |inodes|) && t.inum != n ==>
            Addr(disk, inodes, t) == Addr(old(disk), old(inodes), t))
    }

    /** One round of iappend: the block at offset off takes piece. */
    method AppendPiece(n: nat, off: nat, piece: seq<byte>) returns (ok: bool)
      requires Counted() && n < freeinode && off / BSIZE < MAXFILE && off % BSIZE + |piece| <= BSIZE && |piece| > 0
      requires Exact(disk, inodes, n, off)
      modifies this`disk, this`inodes, this`freeblock, this`owner
      ensures ok ==> Counted() && Growing(n) && Exact(disk, inodes, n, off + |piece|)
      ensures ok ==> forall m, k: nat :: 0 <= m < |inodes| ==>
                ByteAt(disk, inodes, m, k) ==
                  if m == n && off <= k < off + |piece| then piece[k - off] else ByteAt(old(disk), old(inodes), m, k)
      ensures ok <==> old(freeblock) + BlocksFor(off + |piece|) <= g.size + BlocksFor(off)
      ensures ok ==> freeblock + BlocksFor(off) == old(freeblock) + BlocksFor(off + |piece|)
    {
      hide Owned, Keeps, KeepsOthers, ByteAt, Patch, SameBytes;
      var bn := off / BSIZE;
      var x;
      ghost var d0, i0 := disk, inodes;
      CostExact(disk, inodes, n, off, |piece|);
      ok, x := Sector(n, bn);
      if !ok { return; }
      ghost var d1, i1 := disk, inodes;
      PatchKeeps(g, d1, i1, owner, SlotOf(n, bn), Patch(d1[x], off % BSIZE, piece));
      disk := disk[x := Patch(disk[x], off % BSIZE, piece)];
      ExactNext(d0, i0, d1, i1, disk, n, off, |piece|);
      forall m, k: nat | 0 <= m < |inodes|
        ensures ByteAt(disk, inodes, m, k) == if m == n && off <= k < off + |piece| then piece[k - off] else ByteAt(d0, i0, m, k)
      {
        SameByte(d0, i0, d1, i1, m);
        if m == n {
          PatchBytes(g, d1, i1, owner, n, bn, off % BSIZE, piece, k);
          InBlock(off, |piece|, k);
        } else {
          PatchOther(g, d1, i1, owner, SlotOf(n, bn), Patch(d1[x], off % BSIZE, piece), m, k);
        }
      }
    }

    /** The loop of iappend: everything but the inode's new size. */
    method AppendAll(n: nat, data: seq<byte>) returns (ok: bool)
      requires Valid() && n < freeinode
      modifies this`disk, this`inodes, this`freeblock, this`owner
      ensures ok ==> Counted() && Growing(n) && Exact(disk, inodes, n, |content[n]| + |data|)
      ensures ok ==> Holds(disk, inodes, content[n := content[n] + data])
      ensures ok ==> freeblock + BlocksFor(|content[n]|) == old(freeblock) + BlocksFor(|content[n]| + |data|)
      ensures ok <==> |data| == 0 || Room(g, old(freeblock), |content[n]|, |data|)
    {
      hide Owned, Exact, ByteAt, FileFull, Total, BlocksFor;
      var size0 := inodes[n].size;
      var off, done := size0, 0;
      assert content[n] + data[..0] == content[n];
      assert content[n := content[n] + data[..0]] == content;
      while done < |data|
        invariant done <= |data| && off == size0 + done && (done > 0 ==> off <= MAXFILE * BSIZE)
        invariant Counted() && Growing(n) && Exact(disk, inodes, n, off)
        invariant Holds(disk, inodes, content[n := content[n] + data[..done]])
        invariant freeblock + BlocksFor(size0) == old(freeblock) + BlocksFor(off)
      {
        var fbn := off / BSIZE;
        if fbn >= MAXFILE {
          return false;
        }
        var n1 := Min(|data| - done, (fbn + 1) * BSIZE - off);
        ghost var d1, i1, c1 := disk, inodes, content[n := content[n] + data[..done]];
        BlocksGrow(off + n1, size0 + |data|);
        ok := AppendPiece(n, off, data[done..done + n1]);
        if !ok { return; }
        HoldsMore(d1, i1, disk, inodes, c1, n, data[done..done + n1]);
        assert content[n] + data[..done + n1] == c1[n] + data[done..done + n1];
        done := done + n1;
        off := off + n1;
      }
      assert data[..done] == data;
      ok := true;
    }

    /** iappend: the bytes go after those the file holds; false where the program exits, which is
        exactly when the file would be too large or the image is too small for the blocks it needs. */
    method Iappend(n: nat, data: seq<byte>) returns (ok: bool)
      requires Valid() && n < freeinode
      modifies this`disk, this`inodes, this`freeblock, this`owner, this`content
      ensures ok ==> Valid() && |inodes| == |old(inodes)|
      ensures ok ==> content == old(content)[n := old(content)[n] + data]
      ensures ok ==> forall m :: 0 <= m < |inodes| ==>
                inodes[m] == if m != n then old(inodes)[m] else old(inodes)[n].(addrs := inodes[n].addrs, size := |content[n]|)
      ensures ok <==> |data| == 0 || Room(g, old(freeblock), |old(content)[n]|, |data|)
    {
      hide Owned, Exact, ByteAt, FileFull, Total, BlocksFor, Room;
      ok := AppendAll(n, data);
      if !ok { return; }
      forall m: nat | m < |inodes| && m != n ensures Exact(disk, inodes, m, inodes[m].size) && inodes[m] == old(inodes)[m] {
        OtherFile(old(disk), old(inodes), disk, inodes, n, m, inodes[m].size);
      }
      ghost var i1 := inodes;
      inodes := inodes[n := inodes[n].(size := inodes[n].size + |data|)];
      SameAddrs(g, disk, i1, inodes, owner);
      TotalSet(content, n, content[n] + data);
      content := content[n := content[n] + data];
    }

    /** The end of main: the root directory's size is rounded up past its last block, then the bitmap
        is written.  The kernel's invariant holds of the image, except that the root directory (inode
        1) has a block for every byte of its new size exactly when its entries did not fill a block. */
    method Finish(nbitmap: nat) returns (ok: bool, bm: seq<bv8>)
      requires Valid() && freeinode > 1 && g.size <= nbitmap * BPB
      modifies this`inodes
      ensures Sized(inodes) && |inodes| == |old(inodes)| && |old(inodes)| > 1
      ensures inodes[1].size == (old(inodes)[1].size / BSIZE + 1) * BSIZE
      ensures ok <==> freeblock < BPB
      ensures Holds(disk, inodes, content) && forall m :: 0 <= m < |inodes| ==> Exact(disk, inodes, m, |content[m]|)
      ensures ok ==> Shape(g, bm, disk, inodes) && Owned(g, disk, inodes, owner, {}) && BitsMatch(g, bm, owner, {})
      ensures forall m :: 0 <= m < |inodes| && m != 1 ==>
                inodes[m] == old(inodes)[m] && FileFull(disk, inodes, m, inodes[m].size)
      ensures inodes[1] == old(inodes)[1].(size := inodes[1].size)
      ensures FileFull(disk, inodes, 1, inodes[1].size) <==> old(inodes)[1].size % BSIZE != 0
    {
      hide Owned, Bit;
      ghost var i0, size0 := inodes, inodes[1].size;
      var off := inodes[1].size;
      off := (off / BSIZE + 1) * BSIZE;
      inodes := inodes[1 := inodes[1].(size := off)];
      SameAddrs(g, disk, i0, inodes, owner);
      RoundedFull(disk, inodes, 1, size0);
      ok, bm := WriteBitmap(freeblock, nbitmap);
    }

    /** balloc(used): the first `used` bits, all in the first bitmap block. */
    method WriteBitmap(used: nat, nbitmap: nat) returns (ok: bool, bm: seq<bv8>)
      ensures ok <==> used < BPB
      ensures ok ==> |bm| == nbitmap * BSIZE || used >= nbitmap * BPB
      ensures ok && used <= nbitmap * BPB ==>
                |bm| == nbitmap * BSIZE && forall x: nat :: x < nbitmap * BPB ==> (Bit(bm, x) <==> x < used)
    {
      hide Mask, Bit;
      bm := seq(nbitmap * BSIZE, _ => 0);
      ZeroBits(bm);
      if used >= BSIZE * 8 || used > nbitmap * BPB {
        return used < BSIZE * 8, bm;
      }
      var i := 0;
      while i < used
        invariant i <= used && |bm| == nbitmap * BSIZE
        invariant forall x: nat :: x < nbitmap * BPB ==> (Bit(bm, x) <==> x < i)
      {
        ghost var b0 := bm;
        bm := bm[i / 8 := bm[i / 8] | Mask(i % 8)];
        SetOneBit(b0, bm, i);
        i := i + 1;
      }
      ok := true;
    }
  }

  lemma ZeroBits(bm: seq<bv8>)
    requires forall k :: 0 <= k < |bm| ==> bm[k] == 0
    ensures forall x: nat :: x < 8 * |bm| ==> !Bit(bm, x)
  {
  }

  lemma SetOneBit(b0: seq<bv8>, bm: seq<bv8>, b: nat)
    requires b < 8 * |b0| && bm == b0[b / 8 := b0[b / 8] | Mask(b % 8)]
    ensures forall x: nat :: x < 8 * |b0| ==> (Bit(bm, x) <==> x == b || Bit(b0, x))
  {
    forall x: nat | x < 8 * |b0| ensures Bit(bm, x) <==> x == b || Bit(b0, x) {
      BitSet(b0[b / 8], b % 8, x % 8);
    }
  }

  lemma RoundedFull(disk: seq<Block>, inodes: seq<Inode>, n: nat, size0: nat)
    requires Sized(inodes) && n < |inodes| && Exact(disk, inodes, n, size0)
    ensures FileFull(disk, inodes, n, (size0 / BSIZE + 1) * BSIZE) <==> size0 % BSIZE != 0
  {
    var bn := size0 / BSIZE;
    var len := (bn + 1) * BSIZE;
    if size0 % BSIZE == 0 {
      assert bn * BSIZE >= size0 && bn * BSIZE < len;
      assert bn < MAXFILE ==> Addr(disk, inodes, SlotOf(n, bn)) == 0;
    } else {
      forall b: nat | b * BSIZE < len ensures b < MAXFILE && Addr(disk, inodes, SlotOf(n, b)) != 0 {
        assert b * BSIZE < size0;
      }
    }
  }

  /** What growing file n leaves of file m. */
  lemma OtherFile(d0: seq<Block>, i0: seq<Inode>, d1: seq<Block>, i1: seq<Inode>, n: nat, m: nat, len: nat)
    requires Sized(i0) && Sized(i1) && |i0| == |i1| && n < |i0| && m < |i0| && m != n
    requires forall t {:trigger Addr(d1, i1, t)} :: ValidSlot(t, |i1|) && t.inum != n ==> Addr(d1, i1, t) == Addr(d0, i0, t)
    requires Exact(d0, i0, m, len)
    ensures Exact(d1, i1, m, len) && i1[m].addrs == i0[m].addrs
  {
    forall i | 0 <= i <= NDIRECT ensures i1[m].addrs[i] == i0[m].addrs[i] {
      assert Addr(d1, i1, Direct(m, i)) == Addr(d0, i0, Direct(m, i));
    }
    forall bn: nat | bn < MAXFILE ensures Addr(d1, i1, SlotOf(m, bn)) == Addr(d0, i0, SlotOf(m, bn)) {
      assert SlotOf(m, bn).inum != n;
    }
    assert Addr(d1, i1, Direct(m, NDIRECT)) == Addr(d0, i0, Direct(m, NDIRECT));
  }

  lemma InOwner(g: Geometry, disk: seq<Block>, inodes: seq<Inode>, owner: map<nat, Slot>, s: Slot)
    requires Sized(inodes) && Owned(g, disk, inodes, owner, {}) && ValidSlot(s, |inodes|) && Addr(disk, inodes, s) != 0
    ensures Addr(disk, inodes, s) in owner
  {
  }

  /** File n has a block for each of its first len bytes, and none beyond; the indirect block too only
      if they need it. */
  ghost predicate Exact(disk: seq<Block>, inodes: seq<Inode>, n: nat, len: nat)
    requires Sized(inodes) && n < |inodes|
  {
    && FileFull(disk, inodes, n, len) && (inodes[n].addrs[NDIRECT] != 0 <==> len > NDIRECT * BSIZE)
    && forall bn: nat {:trigger SlotOf(n, bn)} :: bn < MAXFILE && bn * BSIZE >= len ==> Addr(disk, inodes, SlotOf(n, bn)) == 0
  }

  /** Blocks a file of len bytes occupies, with its indirect block. */
  function BlocksFor(len: nat): nat {
    (len + BSIZE - 1) / BSIZE + if len > NDIRECT * BSIZE then 1 else 0
  }

  lemma BlocksGrow(a: nat, b: nat)
    ensures a <= b ==> BlocksFor(a) <= BlocksFor(b)
  {
  }

  /** A file of size bytes can take len more, with the counter at freeblock. */
  predicate Room(g: Geometry, freeblock: nat, size: nat, len: nat) {
    size + len <= MAXFILE * BSIZE && freeblock + BlocksFor(size + len) <= g.size + BlocksFor(size)
  }

  lemma CostExact(disk: seq<Block>, inodes: seq<Inode>, n: nat, off: nat, m: nat)
    requires Sized(inodes) && n < |inodes| && Exact(disk, inodes, n, off) && off / BSIZE < MAXFILE
    requires 0 < m && off % BSIZE + m <= BSIZE
    ensures SlotCost(disk, inodes, n, off / BSIZE) + BlocksFor(off) == BlocksFor(off + m)
  {
    var bn := off / BSIZE;
    assert Addr(disk, inodes, SlotOf(n, bn)) == 0 <==> off % BSIZE == 0;
    assert (off + m + BSIZE - 1) / BSIZE == bn + 1;
  }

  lemma ExactNext(d0: seq<Block>, i0: seq<Inode>, d1: seq<Block>, i1: seq<Inode>, d2: seq<Block>, n: nat, off: nat, m: nat)
    requires Sized(i0) && Sized(i1) && |i0| == |i1| && n < |i0| && Exact(d0, i0, n, off) && off / BSIZE < MAXFILE
    requires 0 < m && off % BSIZE + m <= BSIZE && Addr(d1, i1, SlotOf(n, off / BSIZE)) != 0
    requires forall t {:trigger Addr(d1, i1, t)} :: ValidSlot(t, |i1|) && DataSlot(t) && t != SlotOf(n, off / BSIZE) ==>
               Addr(d1, i1, t) == Addr(d0, i0, t)
    requires forall t {:trigger Addr(d2, i1, t)} :: ValidSlot(t, |i1|) ==> Addr(d2, i1, t) == Addr(d1, i1, t)
    requires off / BSIZE < NDIRECT ==> i1[n].addrs[NDIRECT] == i0[n].addrs[NDIRECT]
    ensures Exact(d2, i1, n, off + m)
  {
    var b := off / BSIZE;
    forall bn: nat | bn < MAXFILE ensures Addr(d2, i1, SlotOf(n, bn)) != 0 <==> bn * BSIZE < off + m {
      var t := SlotOf(n, bn);
      assert Addr(d2, i1, t) == Addr(d1, i1, t);
      if bn != b {
        assert Addr(d1, i1, t) == Addr(d0, i0, t);
        assert bn * BSIZE < off + m <==> bn * BSIZE < off;
      }
    }
  }

  /** Byte k of a file, zero beyond its end. */
  function CharAt(s: seq<byte>, k: nat): byte { if k < |s| then s[k] else 0 }

  /** Each file holds its content, and zeros after it. */
  ghost predicate Holds(disk: seq<Block>, inodes: seq<Inode>, content: seq<seq<byte>>)
    requires Sized(inodes)
  {
    |content| == |inodes| &&
    forall m, k: nat :: 0 <= m < |inodes| ==> ByteAt(disk, inodes, m, k) == CharAt(content[m], k)
  }

  lemma HoldsMore(d0: seq<Block>, i0: seq<Inode>, d1: seq<Block>, i1: seq<Inode>, content: seq<seq<byte>>, n: nat, piece: seq<byte>)
    requires Sized(i0) && Sized(i1) && |i0| == |i1| && n < |i0| && Holds(d0, i0, content)
    requires forall m, k: nat :: 0 <= m < |i0| ==>
               ByteAt(d1, i1, m, k) == if m == n && |content[n]| <= k < |content[n]| + |piece| then piece[k - |content[n]|] else ByteAt(d0, i0, m, k)
    ensures Holds(d1, i1, content[n := content[n] + piece])
  {
    hide ByteAt;
  }

  /** Blocks all the files occupy. */
  function Total(content: seq<seq<byte>>): nat {
    if content == [] then 0 else Total(content[..|content| - 1]) + BlocksFor(|content[|content| - 1]|)
  }

  lemma {:induction false} TotalSet(content: seq<seq<byte>>, n: nat, x: seq<byte>)
    requires n < |content|
    ensures Total(content[n := x]) + BlocksFor(|content[n]|) == Total(content) + BlocksFor(|x|)
  {
    hide BlocksFor;
    var last := |content| - 1;
    if n == last {
      assert content[n := x][..last] == content[..last];
    } else {
      TotalSet(content[..last], n, x);
      assert content[n := x][..last] == content[..last][n := x];
    }
  }

  lemma {:induction false} TotalEmpty(n: nat)
    ensures Total(seq<seq<byte>>(n, _ => [])) == 0
  {
    var c: seq<seq<byte>> := seq(n, _ => []);
    if n == 0 {
    } else {
      TotalEmpty(n - 1);
      assert c[..n - 1] == seq<seq<byte>>(n - 1, _ => []);
      assert BlocksFor(|c[n - 1]|) == 0;
    }
  }

  /** Inodes with the same addrs name the same blocks. */
  lemma SameAddrs(g: Geometry, disk: seq<Block>, i1: seq<Inode>, i2: seq<Inode>, owner: map<nat, Slot>)
    requires Sized(i1) && |i1| == |i2| && Owned(g, disk, i1, owner, {})
    requires forall m :: 0 <= m < |i1| ==> i2[m].addrs == i1[m].addrs
    ensures Owned(g, disk, i2, owner, {})
    ensures forall m, k: nat :: 0 <= m < |i1| ==> ByteAt(disk, i2, m, k) == ByteAt(disk, i1, m, k)
    ensures forall m, len: nat :: 0 <= m < |i1| ==> (FileFull(disk, i1, m, len) <==> FileFull(disk, i2, m, len))
    ensures forall m, len: nat :: 0 <= m < |i1| ==> (Exact(disk, i1, m, len) <==> Exact(disk, i2, m, len))
    ensures forall s {:trigger Addr(disk, i2, s)} :: ValidSlot(s, |i1|) ==> Addr(disk, i2, s) == Addr(disk, i1, s)
  {
    forall s | ValidSlot(s, |i1|) ensures Addr(disk, i2, s) == Addr(disk, i1, s) {
    }
  }

  // ----- The image in the kernel's hands -----

  /** The kernel boots from a finished image.  The blocks are partitioned as it requires, every file
      holds what was laid down in it, and the file system is valid exactly when the root directory's
      entries did not fill their last block. */
  method Mount(img: Image, nbitmap: nat, inodestart: nat, bmapstart: nat) returns (ok: bool, fs: FileSystem)
    requires img.Valid() && img.freeinode > 1 && img.g.size <= nbitmap * BPB && inodestart > 0 && bmapstart > 0
    modifies img`inodes
    ensures fresh(fs) && (ok <==> img.freeblock < BPB) && |img.inodes| == |old(img.inodes)| > 1
    ensures ok ==> fs.Partitioned({}, {}) && |fs.core| == |img.content| && Holds(fs.disk, fs.core, img.content)
    ensures ok ==> forall m :: 0 <= m < |fs.core| ==>
              fs.core[m].size == if m == 1 then (|img.content[1]| / BSIZE + 1) * BSIZE else |img.content[m]|
    ensures ok ==> forall m :: 0 <= m < |fs.core| ==> Exact(fs.disk, fs.core, m, |img.content[m]|)
    ensures ok ==> (fs.Valid() <==> |img.content[1]| % BSIZE != 0)
    ensures ok ==> fs.inodestart == inodestart && fs.bmapstart == bmapstart
    ensures ok ==> |fs.core| == |old(img.inodes)| && forall m :: 0 <= m < |fs.core| ==> fs.core[m] == old(img.inodes)[m].(size := fs.core[m].size)
    ensures ok ==> fs.g == img.g && fs.Synced() && fs.logged == {} && (fs.DiskFull() <==> img.freeblock == img.g.size)
  {
    hide Owned, BitsMatch, FileFull, Bit, ByteAt, Exact;
    var bm;
    ghost var i0 := img.inodes;
    ok, bm := img.Finish(nbitmap);
    if ok { FullCount(img.g, bm, img.owner, img.freeblock); }
    fs := new FileSystem(img.g, inodestart, bmapstart, bm, img.disk, img.inodes, img.owner);
  }

  lemma FullCount(g: Geometry, bm: seq<bv8>, owner: map<nat, Slot>, freeblock: nat)
    requires BitsMatch(g, bm, owner, {}) && g.nmeta <= freeblock <= g.size
    requires forall b: nat :: b in owner <==> g.nmeta <= b < freeblock
    ensures (forall b: nat :: b < g.size ==> Bit(bm, b)) <==> freeblock == g.size
  {
    if freeblock < g.size {
      assert !Bit(bm, freeblock);
    }
  }

  /** What main asks for: a new inode, or bytes at the end of a file. */
  datatype Call = Alloc(typ: nat) | Append(inum: nat, data: seq<byte>)

  /** The bytes the calls lay down in file n. */
  function Laid(calls: seq<Call>, n: nat): seq<byte> {
    if calls == [] then [] else
      var last := calls[|calls| - 1];
      Laid(calls[..|calls| - 1], n) + if last.Append? && last.inum == n then last.data else []
  }

  function Allocs(calls: seq<Call>): nat {
    if calls == [] then 0 else Allocs(calls[..|calls| - 1]) + if calls[|calls| - 1].Alloc? then 1 else 0
  }

  /** The types of the inodes handed out, in order. */
  function Types(calls: seq<Call>): (r: seq<nat>)
    ensures |r| == Allocs(calls)
  {
    if calls == [] then [] else
      var last := calls[|calls| - 1];
      Types(calls[..|calls| - 1]) + if last.Alloc? then [last.typ] else []
  }

  lemma NoTypes()
    ensures Types([]) == []
  {
  }

  lemma TypesMore(calls: seq<Call>, i: nat)
    requires i < |calls|
    ensures Types(calls[..i + 1]) == Types(calls[..i]) + if calls[i].Alloc? then [calls[i].typ] else []
  {
    assert calls[..i + 1][..i] == calls[..i];
  }

  /** Inodes 1, 2, ... have these types and one link; the others are not in use. */
  ghost predicate Typed(inodes: seq<Inode>, types: seq<nat>) {
    forall m :: 0 <= m < |inodes| ==>
      if 1 <= m <= |types| then inodes[m].typ == types[m - 1] && inodes[m].nlink == 1 else inodes[m].typ == 0 && inodes[m].nlink == 0
  }

  function After(calls: seq<Call>, ninodes: nat): seq<seq<byte>> {
    seq(ninodes, n requires 0 <= n => Laid(calls, n))
  }

  /** As main calls: a type for each inode, and no bytes for inode 0. */
  predicate Plain(calls: seq<Call>) {
    forall i :: 0 <= i < |calls| ==> match calls[i] case Alloc(typ) => typ != 0 case Append(inum, _) => inum != 0
  }

  /** Bytes go only to inodes already allocated. */
  predicate Proper(calls: seq<Call>) {
    calls != [] ==>
      var last := calls[|calls| - 1];
      Proper(calls[..|calls| - 1]) && (last.Append? ==> last.inum <= Allocs(calls[..|calls| - 1]))
  }

  /** The inodes, the largest file size and the blocks suffice for all of it. */
  predicate Fits(g: Geometry, ninodes: nat, calls: seq<Call>) {
    var files := After(calls, ninodes);
    Allocs(calls) < ninodes && g.nmeta + Total(files) <= g.size && forall n :: 0 <= n < |files| ==> |files[n]| <= MAXFILE * BSIZE
  }

  lemma {:induction false} TotalGrows(a: seq<seq<byte>>, b: seq<seq<byte>>)
    requires |a| == |b| && forall n :: 0 <= n < |a| ==> |a[n]| <= |b[n]|
    ensures Total(a) <= Total(b)
  {
    hide BlocksFor;
    if a == [] {
    } else {
      TotalGrows(a[..|a| - 1], b[..|a| - 1]);
      BlocksGrow(|a[|a| - 1]|, |b[|a| - 1]|);
    }
  }

  /** What fits, fitted at every earlier point. */
  lemma {:induction false} FitsBefore(g: Geometry, ninodes: nat, calls: seq<Call>, i: nat)
    requires i <= |calls| && Fits(g, ninodes, calls)
    ensures Fits(g, ninodes, calls[..i])
    decreases |calls|
  {
    if i == |calls| {
      assert calls[..i] == calls;
    } else {
      var shorter := calls[..|calls| - 1];
      var fewer, files := After(shorter, ninodes), After(calls, ninodes);
      forall n: nat | n < ninodes ensures |fewer[n]| <= |files[n]| {
        assert fewer[n] == Laid(shorter, n) && files[n] == Laid(calls, n);
      }
      TotalGrows(fewer, files);
      FitsBefore(g, ninodes, shorter, i);
      assert shorter[..i] == calls[..i];
    }
  }

  lemma StartLaid(g: Geometry, ninodes: nat)
    ensures Allocs([]) == 0 && After([], ninodes) == seq<seq<byte>>(ninodes, _ => [])
    ensures g.nmeta <= g.size && ninodes >= 1 ==> Fits(g, ninodes, [])
  {
    TotalEmpty(ninodes);
    assert After([], ninodes) == seq<seq<byte>>(ninodes, _ => []);
  }

  lemma {:induction false} ProperAt(calls: seq<Call>, i: nat)
    requires i < |calls| && Proper(calls)
    ensures calls[i].Append? ==> calls[i].inum <= Allocs(calls[..i])
    decreases |calls|
  {
    var shorter := calls[..|calls| - 1];
    if i == |calls| - 1 {
    } else {
      ProperAt(shorter, i);
      assert shorter[..i] == calls[..i];
    }
  }

  /** What one more call does to the contents and to the room left. */
  lemma StepLaid(g: Geometry, ninodes: nat, calls: seq<Call>, i: nat)
    requires i < |calls| && Fits(g, ninodes, calls[..i]) && (calls[i].Append? ==> calls[i].inum < ninodes)
    ensures calls[i].Alloc? ==>
              && Allocs(calls[..i + 1]) == Allocs(calls[..i]) + 1 && After(calls[..i + 1], ninodes) == After(calls[..i], ninodes)
              && (Fits(g, ninodes, calls[..i + 1]) <==> Allocs(calls[..i]) + 1 < ninodes)
    ensures calls[i].Append? ==>
              var n, data, was := calls[i].inum, calls[i].data, After(calls[..i], ninodes);
              && Allocs(calls[..i + 1]) == Allocs(calls[..i]) && After(calls[..i + 1], ninodes) == was[n := was[n] + data]
              && (Fits(g, ninodes, calls[..i + 1]) <==> |data| == 0 || Room(g, g.nmeta + Total(was), |was[n]|, |data|))
  {
    hide Total, BlocksFor;
    var was, now := After(calls[..i], ninodes), After(calls[..i + 1], ninodes);
    assert calls[..i + 1][..i] == calls[..i];
    forall n: nat | n < ninodes
      ensures now[n] == if calls[i].Append? && calls[i].inum == n then was[n] + calls[i].data else was[n]
    {
      assert was[n] + [] == was[n];
      assert now[n] == Laid(calls[..i + 1], n) && was[n] == Laid(calls[..i], n);
    }
    if calls[i].Append? {
      var n, data := calls[i].inum, calls[i].data;
      assert now == was[n := was[n] + data];
      TotalSet(was, n, was[n] + data);
      assert |now[n]| == |was[n]| + |data|;
    } else {
      assert now == was;
    }
  }

  /** main, for any sequence of calls: it completes exactly when everything fits, and then each file
      holds its appends one after the other. */
  method Build(g: Geometry, ninodes: nat, calls: seq<Call>) returns (ok: bool, img: Image)
    requires 1 <= g.nmeta <= g.size < LIMIT && ninodes >= 1 && Proper(calls)
    ensures fresh(img) && img.g == g && (ok <==> Fits(g, ninodes, calls))
    ensures ok ==> img.Valid() && img.content == After(calls, ninodes) && img.freeinode == 1 + Allocs(calls)
    ensures ok && Plain(calls) ==> img.Tidy()
    ensures ok ==> Typed(img.inodes, Types(calls))
  {
    hide Total, Laid, BlocksFor, Fits, Proper, Allocs, Types, Room;
    img := new Image(g, ninodes);
    NoTypes();
    StartLaid(g, ninodes);
    assert calls[..0] == [];
    var i := 0;
    while i < |calls|
      invariant i <= |calls| && fresh(img) && img.g == g && img.Valid() && |img.inodes| == ninodes
      invariant img.content == After(calls[..i], ninodes) && img.freeinode == 1 + Allocs(calls[..i])
      invariant Fits(g, ninodes, calls[..i]) && (Plain(calls) ==> img.Tidy())
      invariant Typed(img.inodes, Types(calls[..i]))
    {
      ProperAt(calls, i);
      TypesMore(calls, i);
      StepLaid(g, ninodes, calls, i);
      match calls[i] {
        case Alloc(typ) =>
          var inum;
          ok, inum := img.Ialloc(typ);
        case Append(n, data) =>
          ok := img.Iappend(n, data);
      }
      if !ok {
        if Fits(g, ninodes, calls) {
          FitsBefore(g, ninodes, calls, i + 1);
        }
        return;
      }
      i := i + 1;
    }
    assert calls[..i] == calls;
    ok := true;
  }

  /** Whatever main was asked for, the kernel reads of each file its appends one after the other; only a
      root directory of the largest size can end in bmap's panic. */
  method BuildThenRead(g: Geometry, ninodes: nat, calls: seq<Call>, nbitmap: nat, inodestart: nat, bmapstart: nat,
                       n: nat, off: nat, len: nat)
    returns (ok: bool, read: bool, out: seq<byte>)
    requires 1 <= g.nmeta <= g.size < LIMIT && g.size <= nbitmap * BPB && inodestart > 0 && bmapstart > 0
    requires Proper(calls) && 1 <= Allocs(calls) && n < ninodes
    ensures ok <==> Fits(g, ninodes, calls) && g.nmeta + Total(After(calls, ninodes)) < BPB
    ensures ok ==> forall k :: 0 <= k < |out| ==> out[k] == CharAt(Laid(calls, n), off + k)
    ensures ok && off + len <= |Laid(calls, n)| ==> read && out == Laid(calls, n)[off..off + len]
    ensures ok && n != 1 ==> read && |out| == ReadLen(|Laid(calls, n)|, off, len)
    ensures ok && !read ==> n == 1 && |Laid(calls, 1)| == MAXFILE * BSIZE
  {
    hide Owned, BitsMatch, FileFull, Exact, Bit, ByteAt, Total, Laid, Fits, Allocs, Proper, NoHole;
    read, out := false, [];
    var img, fs;
    ok, img := Build(g, ninodes, calls);
    if !ok { return; }
    ok, fs := Mount(img, nbitmap, inodestart, bmapstart);
    if !ok { return; }
    assert img.content[n] == Laid(calls, n);
    ExactSize(fs.disk, fs.core, n, |Laid(calls, n)|);
    ExactNoHole(fs.disk, fs.core, n, |Laid(calls, n)|, off, Reach(fs.core[n].size, off, len));
    read, out := fs.Readi(n, off, len);
  }

  lemma ExactSize(disk: seq<Block>, inodes: seq<Inode>, n: nat, len: nat)
    requires Sized(inodes) && n < |inodes| && Exact(disk, inodes, n, len)
    ensures len <= MAXFILE * BSIZE
  {
  }

  lemma ExactNoHole(disk: seq<Block>, inodes: seq<Inode>, n: nat, len: nat, off: nat, m: nat)
    requires Sized(inodes) && n < |inodes| && Exact(disk, inodes, n, len) && (m > 0 ==> off + m <= MAXFILE * BSIZE)
    ensures m > 0 ==> off + m <= len ==> NoHole(disk, inodes, n, off, m)
  {
  }

  /** With 30 files, root's 32 entries fill its block exactly, and the rounded size is past it: the
      kernel's invariant fails of this image. */
  method RootFull(g: Geometry, names: seq<seq<byte>>) returns (fs: FileSystem)
    requires 1 <= g.nmeta && g.nmeta + 1 < g.size <= BPB && |names| == 32 && forall i :: 0 <= i < 32 ==> |names[i]| == 14
    ensures fresh(fs) && fs.Partitioned({}, {}) && !fs.Valid()
    ensures |fs.core| == 208 && fs.core[1].size == 1024 && Exact(fs.disk, fs.core, 1, 512)
    ensures forall k: nat :: k >= 512 ==> ByteAt(fs.disk, fs.core, 1, k) == 0
    ensures !fs.DiskFull() && fs.logged == {} && fs.Synced()
  {
    hide Owned, BitsMatch, FileFull, Exact, Bit, ByteAt, Total, NoHole;
    var img := new Image(g, 208);
    var ok, inum := img.Ialloc(1);
    assert |img.content[1]| == 0;
    var i := 0;
    while i < 32
      invariant i <= 32 && fresh(img) && img.Valid() && img.g == g && |img.inodes| == |img.content| == 208
      invariant img.freeinode == if i <= 2 then 2 else i
      invariant |img.content[1]| == 16 * i && img.freeblock == g.nmeta + BlocksFor(16 * i)
    {
      if i >= 2 {
        ok, inum := img.Ialloc(2);
      } else {
        inum := 1;
      }
      TotalSet(img.content, 1, img.content[1] + Dirent(inum, names[i]));
      ok := img.Iappend(1, Dirent(inum, names[i]));
      i := i + 1;
    }
    ok, fs := Mount(img, 1, 18, 44);
  }

  /** Block b is marked in use, and no slot of the inodes on disk names it. */
  ghost predicate Lost(g: Geometry, s: Snap, b: nat)
    requires Sized(s.dinodes) && g.size <= 8 * |s.bm|
  {
    && g.nmeta <= b < g.size && Bit(s.bm, b)
    && forall t {:trigger Addr(s.disk, s.dinodes, t)} :: ValidSlot(t, |s.dinodes|) ==> Addr(s.disk, s.dinodes, t) != b
  }

  /** Then the blocks on disk are not partitioned, whoever is taken for their owners. */
  lemma LostNoOwner(g: Geometry, s: Snap, b: nat, owner: map<nat, Slot>)
    requires Sized(s.dinodes) && g.size <= 8 * |s.bm| && Lost(g, s, b)
    ensures !Names(g, s, owner)
  {
    if Names(g, s, owner) {
      assert false;
    }
  }

  /** A block that a read of file n took is named by the inode in memory, not by the one on disk. */
  lemma NewIsLost(g: Geometry, d0: seq<Block>, i0: seq<Inode>, o0: map<nat, Slot>, d1: seq<Block>, i1: seq<Inode>,
                  o1: map<nat, Slot>, bm: seq<bv8>, n: nat, b: nat)
    requires Sized(i0) && Sized(i1) && n < |i0| == |i1| && Owned(g, d0, i0, o0, {}) && Owned(g, d1, i1, o1, {}) && 1 <= g.nmeta
    requires KeepsIn(d0, i0, d1, i1, n) && i0[n].addrs[NDIRECT] == 0 && forall m :: 0 <= m < |i0| && m != n ==> i1[m] == i0[m]
    requires b in o1 && b !in o0 && BitsMatch(g, bm, o1, {})
    ensures g.nmeta <= b < g.size && Bit(bm, b)
    ensures forall t {:trigger Addr(d1, i0, t)} :: ValidSlot(t, |i0|) ==> Addr(d1, i0, t) != b
  {
    hide Word;
    forall t | ValidSlot(t, |i0|) ensures Addr(d1, i0, t) != b {
      assert Addr(d0, i0, t) == 0 || Addr(d0, i0, t) in o0;
      if t.Indirect? && t.inum != n {
        assert Addr(d1, i1, t) == Addr(d0, i0, t) && Addr(d1, i0, t) == Addr(d1, i1, t);
      }
    }
  }

  /** Looking for a name that is not there, the kernel reads on after entries that fill the root's last
      block.  With a direct block next and one to be had, it is taken and logged, and lost with the
      inode in memory. */
  method ReadPastRoot(fs: FileSystem, len: nat) returns (out: seq<byte>, ghost b: nat)
    requires fs.Partitioned({}, {}) && fs.Synced() && |fs.core| > 1 && Exact(fs.disk, fs.core, 1, len)
    requires len % BSIZE == 0 && len <= NDIRECT * BSIZE && fs.core[1].size == len + BSIZE && !fs.DiskFull()
    modifies fs
    ensures fs.Partitioned({}, {}) && Sized(fs.dinodes) && Lost(fs.g, fs.Now(), b) && b in fs.logged
    ensures forall owner :: !Names(fs.g, fs.Now(), owner)
    ensures forall k :: 0 <= k < |out| ==> out[k] == ByteAt(old(fs.disk), old(fs.core), 1, len + k)
  {
    hide Owned, BitsMatch, FileFull, Exact, Bit, ByteAt, NoHole, KeepsIn, SameBytes;
    RootHole(fs.disk, fs.core, len);
    fs.BeginOp(1);
    ghost var d0, i0, o0 := fs.disk, fs.core, fs.owner;
    var ok;
    ok, out := fs.Readi(1, len, 16);
    SameByte(d0, i0, fs.disk, fs.core, 1);
    b :| b in fs.owner && b !in o0 && b in fs.logged;
    NewIsLost(fs.g, d0, i0, o0, fs.disk, fs.core, fs.owner, fs.bm, 1, b);
    forall owner ensures !Names(fs.g, fs.Now(), owner) {
      LostNoOwner(fs.g, fs.Now(), b, owner);
    }
  }

  lemma RootHole(disk: seq<Block>, inodes: seq<Inode>, len: nat)
    requires Sized(inodes) && |inodes| > 1 && Exact(disk, inodes, 1, len) && len % BSIZE == 0 && len <= NDIRECT * BSIZE
    ensures !NoHole(disk, inodes, 1, len, 16) && inodes[1].addrs[NDIRECT] == 0
  {
    assert Addr(disk, inodes, SlotOf(1, len / BSIZE)) == 0;
  }

  /** So on the image with 30 files: a block is marked that no inode on disk names. */
  method ReadRootFull(g: Geometry, names: seq<seq<byte>>) returns (fs: FileSystem, out: seq<byte>, ghost b: nat)
    requires 1 <= g.nmeta && g.nmeta + 1 < g.size <= BPB && |names| == 32 && forall i :: 0 <= i < 32 ==> |names[i]| == 14
    ensures fresh(fs) && fs.Partitioned({}, {}) && Sized(fs.dinodes) && Lost(fs.g, fs.Now(), b) && b in fs.logged
    ensures (forall owner :: !Names(fs.g, fs.Now(), owner)) && forall k :: 0 <= k < |out| ==> out[k] == 0
  {
    hide Owned, BitsMatch, FileFull, Exact, Bit, ByteAt, NoHole, Names, Lost;
    fs := RootFull(g, names);
    out, b := ReadPastRoot(fs, 512);
  }
}
