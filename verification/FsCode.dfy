/** balloc, bfree, bmap, itrunc, readi, writei and filewrite of the file system, over the logical
    disk that the cache and the log provide. */
module FsCode {
  import opened FsModel
  import P = LogProtocol

  class FileSystem {
    const g: Geometry
    const inodestart: nat
    const bmapstart: nat
    /** All bitmap blocks, one byte after the other. */
    var bm: seq<bv8>
    var disk: seq<Block>
    /** In-memory inodes and their copies in the inode blocks. */
    var core: seq<Inode>
    var dinodes: seq<Inode>
    ghost var owner: map<nat, Slot>
    /** Block numbers passed to log_write so far. */
    ghost var logged: set<nat>

    constructor (g: Geometry, inodestart: nat, bmapstart: nat, bm: seq<bv8>, disk: seq<Block>, inodes: seq<Inode>,
                 ghost owner: map<nat, Slot>)
      ensures this.g == g && this.bm == bm && this.disk == disk && core == dinodes == inodes && this.owner == owner
      ensures this.inodestart == inodestart && this.bmapstart == bmapstart && logged == {}
    {
      this.g, this.inodestart, this.bmapstart := g, inodestart, bmapstart;
      this.bm, this.disk, core, dinodes := bm, disk, inodes, inodes;
      this.owner, logged := owner, {};
    }

    /** The block partition, but for the slots in `gone` and the blocks in `loose`. */
    ghost predicate Partitioned(gone: set<Slot>, loose: set<nat>)
      reads this
    {
      && Shape(g, bm, disk, core) && |dinodes| == |core| && bmapstart > 0 && inodestart > 0
      && Owned(g, disk, core, owner, gone) && BitsMatch(g, bm, owner, loose)
    }

    ghost function Now(): Snap
      reads this
    {
      Snap(bm, disk, dinodes, logged)
    }

    /** The in-memory inodes are those on disk. */
    ghost predicate Synced()
      reads this
    {
      core == dinodes
    }

    /** No block was changed without log_write. */
    twostate predicate Tracked()
      reads this
    {
      Logs(inodestart, bmapstart, old(Now()), Now())
    }

    function Bblock(b: nat): nat { b / BPB + bmapstart }

    function Iblock(n: nat): nat { n / 8 + inodestart }

    /** What balloc does with a clear bit: marks it, zeroes the block. */
    method TakeBlock(b: nat, bi: nat)
      requires Partitioned({}, {}) && b % BPB == 0 && bi < BPB && b + bi < g.size && !Bit(bm, b + bi)
      modifies this`bm, this`disk, this`logged
      ensures Partitioned({}, {b + bi}) && g.nmeta <= b + bi && b + bi !in owner && disk == old(disk)[b + bi := ZERO]
      ensures logged == old(logged) + {Bblock(b + bi), b + bi}
      ensures Tracked()
    {
      hide Mask, Owned, BitsMatch, Bit, Logs;
      MarkBit(g, bm, owner, {}, b + bi);
      SetBit(b, bi);
      logged := logged + {Bblock(b + bi)};
      ghost var s1 := Now();
      LogsBit(inodestart, bmapstart, old(Now()), b + bi, bm[(b + bi) / 8]);
      AddrsUnchanged(g, disk, core, owner, {}, b + bi, ZERO);
      disk := disk[b + bi := ZERO];
      logged := logged + {b + bi};
      LogsBlock(inodestart, bmapstart, s1, b + bi, ZERO);
      LogsTrans(inodestart, bmapstart, old(Now()), s1, Now());
      assert {} + {b + bi} == {b + bi};
    }

    /** balloc: the first clear bit's block, zeroed and marked; 0 when every bit is set. */
    method Balloc() returns (r: nat)
      requires Partitioned({}, {})
      modifies this`bm, this`disk, this`logged
      ensures r == 0 <==> forall b: nat :: b < g.size ==> Bit(old(bm), b)
      ensures r == 0 ==> bm == old(bm) && disk == old(disk) && logged == old(logged) && Partitioned({}, {})
      ensures r != 0 ==> Partitioned({}, {r}) && g.nmeta <= r < g.size && r !in owner && disk == old(disk)[r := ZERO]
      ensures r != 0 ==> !Bit(old(bm), r) && forall b: nat :: b < r ==> Bit(old(bm), b)
      ensures r != 0 ==> logged == old(logged) + {Bblock(r), r}
      ensures Tracked()
    {
      hide Mask, Owned, BitsMatch, Bit, Logs;
      LogsSame(inodestart, bmapstart, Now());
      var b := 0;
      while b < g.size
        invariant b % BPB == 0
        invariant bm == old(bm) && disk == old(disk) && logged == old(logged)
        invariant forall x: nat :: x < b && x < g.size ==> Bit(bm, x)
        decreases g.size - b
      {
        var bi := 0;
        while bi < BPB && b + bi < g.size
          invariant bi <= BPB
          invariant bm == old(bm) && disk == old(disk) && logged == old(logged)
          invariant forall x: nat :: x < b + bi && x < g.size ==> Bit(bm, x)
        {
          var used := TestBit(b, bi);
          if !used {
            TakeBlock(b, bi);
            return b + bi;
          }
          bi := bi + 1;
        }
        b := b + BPB;
      }
      return 0;
    }

    /** balloc's and bfree's test of one bit, in the bitmap block of b. */
    method TestBit(b: nat, bi: nat) returns (used: bool)
      requires b % BPB == 0 && bi < BPB && b + bi < g.size <= 8 * |bm|
      ensures used <==> Bit(bm, b + bi)
    {
      var m := Mask(bi % 8);
      ByteIndex(b, bi);
      used := bm[b / BPB * BSIZE + bi / 8] & m != 0;
    }

    /** Marking one bit there. */
    method SetBit(b: nat, bi: nat)
      requires b % BPB == 0 && bi < BPB && b + bi < g.size <= 8 * |bm|
      modifies this`bm
      ensures bm == old(bm)[(b + bi) / 8 := old(bm)[(b + bi) / 8] | Mask((b + bi) % 8)]
    {
      var m := Mask(bi % 8);
      ByteIndex(b, bi);
      var i := b / BPB * BSIZE + bi / 8;
      bm := bm[i := bm[i] | m];
    }

    /** Clearing one bit there. */
    method ClearBit(b: nat, bi: nat)
      requires b % BPB == 0 && bi < BPB && b + bi < g.size <= 8 * |bm|
      modifies this`bm
      ensures bm == old(bm)[(b + bi) / 8 := old(bm)[(b + bi) / 8] & !Mask((b + bi) % 8)]
    {
      var m := Mask(bi % 8);
      ByteIndex(b, bi);
      var i := b / BPB * BSIZE + bi / 8;
      bm := bm[i := bm[i] & !m];
    }

    /** bfree; false is the panic "freeing free block". */
    method Bfree(b: nat) returns (ok: bool)
      requires b < g.size <= 8 * |bm|
      modifies this`bm, this`logged
      ensures |bm| == |old(bm)|
      ensures ok <==> Bit(old(bm), b)
      ensures !ok ==> bm == old(bm) && logged == old(logged)
      ensures ok ==> logged == old(logged) + {Bblock(b)}
      ensures ok ==> forall x: nat :: x < g.size ==> (Bit(bm, x) <==> x != b && Bit(old(bm), x))
      ensures Tracked()
    {
      hide Mask, Bit, Logs;
      LogsSame(inodestart, bmapstart, Now());
      var bi := b % BPB;
      var used := TestBit(b - bi, bi);
      if !used {
        return false;
      }
      Cleared(g.size, bm, b);
      ClearBit(b - bi, bi);
      logged := logged + {Bblock(b)};
      LogsBit(inodestart, bmapstart, old(Now()), b, bm[b / 8]);
      ok := true;
    }

    /** iupdate: log_write of the inode's block. */
    method Iupdate(n: nat)
      requires n < |core| == |dinodes|
      modifies this`dinodes, this`logged
      ensures dinodes == old(dinodes)[n := core[n]] && logged == old(logged) + {Iblock(n)}
      ensures Tracked()
    {
      hide Logs;
      LogsInode(inodestart, bmapstart, Now(), n, core[n]);
      dinodes := dinodes[n := core[n]];
      logged := logged + {Iblock(n)};
    }

    /** What bmap may change: inode n's addrs, fresh blocks, the bitmap. */
    twostate predicate Grown(n: nat)
      reads this
      requires old(Sized(core)) && Sized(core)
    {
      && KeepsIn(old(disk), old(core), disk, core, n)
      && (forall m :: 0 <= m < |core| && m != n ==> core[m] == old(core)[m])
      && (n < |core| ==> core[n] == old(core)[n].(addrs := core[n].addrs))
    }

    /** Blocks were only taken, never given back, and each one taken was passed to log_write. */
    twostate predicate Took()
      reads this
    {
      && old(owner).Keys <= owner.Keys && old(logged) <= logged
      && forall b :: b in owner && b !in old(owner) ==> b in logged
    }

    /** Slot i of inode n, which is empty, gets a fresh block unless the disk is full. */
    method AllocInInode(n: nat, i: nat) returns (addr: nat)
      requires Partitioned({}, {}) && n < |core| && i <= NDIRECT && core[n].addrs[i] == 0
      modifies this`bm, this`disk, this`core, this`owner, this`logged
      ensures Partitioned({}, {}) && Grown(n) && SameBytes(old(disk), old(core), disk, core)
      ensures addr == core[n].addrs[i]
      ensures addr == 0 <==> old(DiskFull())
      ensures addr == 0 <==> old(Free()) == 0
      ensures addr == 0 ==> core == old(core) && disk == old(disk) && logged == old(logged) && bm == old(bm) && owner == old(owner)
      ensures addr != 0 ==> addr !in old(owner) && owner == old(owner)[addr := Direct(n, i)]
      ensures addr != 0 ==> core == SetAddr(old(core), n, i, addr) && addr < |disk| && disk == old(disk)[addr := ZERO]
      ensures addr != 0 ==> logged == old(logged) + {Bblock(addr), addr}
      ensures addr != 0 ==> OnlySlot(old(disk), old(core), disk, core, Direct(n, i), addr)
      ensures Tracked()
    {
      hide Owned, Keeps, KeepsIn, BitsMatch, OnlySlot, Bit, Logs, SameBytes;
      KeepsInSame(disk, core, n);
      SameBytesSame(disk, core);
      NoneFree();
      addr := Balloc();
      if addr != 0 {
        AssignInInode(g, old(disk), core, owner, n, i, addr);
        KeepsOnly(old(disk), core, disk, SetAddr(core, n, i, addr), Direct(n, i), addr);
        BitsAssign(g, bm, owner, addr, Direct(n, i));
        SameBytesAt(old(disk), core, disk, SetAddr(core, n, i, addr), Direct(n, i), addr);
        core := SetAddr(core, n, i, addr);
        owner := owner[addr := Direct(n, i)];
      }
    }

    /** Entry j of inode n's indirect block, allocated if absent. */
    method AllocEntry(n: nat, j: nat) returns (addr: nat)
      requires Partitioned({}, {}) && n < |core| && j < NINDIRECT && core[n].addrs[NDIRECT] != 0
      modifies this`bm, this`disk, this`owner, this`logged
      ensures Partitioned({}, {}) && Grown(n) && addr == Addr(disk, core, Indirect(n, j))
      ensures SameBytes(old(disk), core, disk, core)
      ensures addr == 0 <==> Addr(old(disk), core, Indirect(n, j)) == 0 && old(Free()) == 0
      ensures Addr(old(disk), core, Indirect(n, j)) != 0 ==> disk == old(disk) && bm == old(bm) && logged == old(logged) && owner == old(owner)
      ensures addr == 0 ==> old(DiskFull()) && disk == old(disk) && logged == old(logged) && bm == old(bm) && owner == old(owner)
      ensures Addr(old(disk), core, Indirect(n, j)) == 0 && addr != 0 ==>
                && addr < |disk| && disk[addr] == ZERO && !old(DiskFull())
                && logged == old(logged) + {Bblock(addr), addr, core[n].addrs[NDIRECT]}
                && addr !in old(owner) && owner == old(owner)[addr := Indirect(n, j)]
      ensures Tracked()
    {
      hide Owned, Keeps, KeepsIn, BitsMatch, OnlySlot, Bit, Word, SetWord, Logs, SameBytes;
      KeepsInSame(disk, core, n);
      SameBytesSame(disk, core);
      NoneFree();
      LogsSame(inodestart, bmapstart, Now());
      var p := core[n].addrs[NDIRECT];
      PointerOwned(g, disk, core, owner, n);
      addr := Word(disk[p], j);
      if addr == 0 {
        addr := Balloc();
        if addr != 0 {
          ghost var s1 := Now();
          AssignEntry(g, old(disk), core, owner, n, j, addr);
          BitsAssign(g, bm, owner, addr, Indirect(n, j));
          disk := disk[p := SetWord(disk[p], j, addr)];
          owner := owner[addr := Indirect(n, j)];
          logged := logged + {p};
          LogsBlock(inodestart, bmapstart, s1, p, disk[p]);
          LogsTrans(inodestart, bmapstart, old(Now()), s1, Now());
          OnlySlotAt(old(disk), core, disk, core, Indirect(n, j), addr);
          KeepsOnly(old(disk), core, disk, core, Indirect(n, j), addr);
          SameBytesAt(old(disk), core, disk, core, Indirect(n, j), addr);
        }
      }
    }

    ghost predicate DiskFull()
      reads this
      requires g.size <= 8 * |bm|
    {
      forall b: nat :: b < g.size ==> Bit(bm, b)
    }

    /** Blocks that balloc can still hand out. */
    ghost function Free(): int
      reads this
    {
      g.size - g.nmeta - |owner|
    }

    lemma NoneFree()
      requires Partitioned({}, {})
      ensures Free() >= 0 && (Free() == 0 <==> DiskFull())
    {
      FullCount(g, bm, owner);
    }

    ghost function BitmapBlocks(): set<nat> {
      set b: nat | b < g.size :: Bblock(b)
    }

    /** The block in slot i of inode n, or its indirect block (i is NDIRECT), allocated empty if absent. */
    method InodeBlock(n: nat, i: nat) returns (addr: nat)
      requires Partitioned({}, {}) && n < |core| && i <= NDIRECT
      modifies this`bm, this`disk, this`core, this`owner, this`logged
      ensures Partitioned({}, {}) && Grown(n) && addr == core[n].addrs[i]
      ensures old(core)[n].addrs[i] != 0 || old(DiskFull()) ==>
                disk == old(disk) && core == old(core) && bm == old(bm) && logged == old(logged) && owner == old(owner)
      ensures !(old(core)[n].addrs[i] != 0 || old(DiskFull())) ==> owner.Keys != old(owner).Keys
      ensures Took() && SameBytes(old(disk), old(core), disk, core)
      ensures addr == 0 ==> DiskFull()
      ensures addr == 0 <==> old(core)[n].addrs[i] == 0 && old(Free()) == 0
      ensures addr != 0 ==> |owner| == |old(owner)| + if old(core)[n].addrs[i] == 0 then 1 else 0
      ensures old(core)[n].addrs[i] == 0 && addr != 0 ==> addr < |disk| && disk[addr] == ZERO
      ensures forall j {:trigger Indirect(n, j)} :: 0 <= j < NINDIRECT ==>
                Addr(disk, core, Indirect(n, j)) == Addr(old(disk), old(core), Indirect(n, j))
      ensures logged <= old(logged) + BitmapBlocks() + {addr}
      ensures 0 in logged ==> 0 in old(logged)
      ensures Tracked()
    {
      hide Owned, Keeps, KeepsIn, BitsMatch, Bit, Word, SameBytes, Logs;
      SameBytesSame(disk, core);
      KeepsInSame(disk, core, n);
      LogsSame(inodestart, bmapstart, Now());
      addr := core[n].addrs[i];
      if addr == 0 {
        addr := AllocInInode(n, i);
      }
    }

    /** bmap: block bn of inode n, allocating what is missing; 0 when the disk is full.  The source
        panics for bn >= MAXFILE. */
    method Bmap(n: nat, bn: nat) returns (addr: nat)
      requires Partitioned({}, {}) && n < |core| && bn < MAXFILE
      modifies this`bm, this`disk, this`core, this`owner, this`logged
      ensures Partitioned({}, {}) && Grown(n) && addr == Addr(disk, core, SlotOf(n, bn))
      ensures Addr(old(disk), old(core), SlotOf(n, bn)) != 0 || old(DiskFull()) ==>
                disk == old(disk) && core == old(core) && bm == old(bm) && logged == old(logged) && owner == old(owner)
      ensures !(Addr(old(disk), old(core), SlotOf(n, bn)) != 0 || old(DiskFull())) ==> owner.Keys != old(owner).Keys
      ensures Addr(old(disk), old(core), SlotOf(n, bn)) == 0 && addr != 0 ==> addr < |disk| && disk[addr] == ZERO
      ensures old(core)[n].addrs[if bn < NDIRECT then bn else NDIRECT] != 0 ==> core == old(core)
      ensures Took() && SameBytes(old(disk), old(core), disk, core)
      ensures addr == 0 ==> DiskFull()
      ensures addr != 0 <==> old(SlotCost(disk, core, n, bn)) <= old(Free())
      ensures addr != 0 ==> |owner| == |old(owner)| + old(SlotCost(disk, core, n, bn))
      ensures logged <= old(logged) + BitmapBlocks() + {addr, core[n].addrs[NDIRECT]}
      ensures 0 in logged ==> 0 in old(logged)
      ensures Tracked()
    {
      hide Owned, Keeps, KeepsIn, BitsMatch, Bit, Word, SameBytes, OnlySlot, Logs, DiskFull;
      NoneFree();
      SameBytesSame(disk, core);
      KeepsInSame(disk, core, n);
      LogsSame(inodestart, bmapstart, Now());
      addr := InodeBlock(n, Min(bn, NDIRECT));
      if bn < NDIRECT || addr == 0 {
        return;
      }
      ghost var d1, i1, s1 := disk, core, Now();
      addr := AllocEntry(n, bn - NDIRECT);
      SameBytesTrans(old(disk), old(core), d1, i1, disk, core);
      LogsTrans(inodestart, bmapstart, old(Now()), s1, Now());
      KeepsInTrans(old(disk), old(core), d1, i1, disk, core, n);
    }

    /** Slots name blocks one to one, bits match, and inode n is allocated up to its size. */
    ghost predicate Full(n: nat)
      reads this
    {
      Partitioned({}, {}) && n < |core| && FileFull(disk, core, n, core[n].size)
    }

    /** ...and so is every inode. */
    ghost predicate Valid()
      reads this
    {
      Partitioned({}, {}) && forall n :: 0 <= n < |core| ==> FileFull(disk, core, n, core[n].size)
    }

    /** One round of readi's loop: bmap, copy out of the block; false when the disk is full. */
    method ReadPiece(n: nat, off: nat, m: nat) returns (ok: bool, piece: seq<byte>)
      requires Partitioned({}, {}) && n < |core| && off / BSIZE < MAXFILE && off % BSIZE + m <= BSIZE
      modifies this`bm, this`disk, this`core, this`owner, this`logged
      ensures Partitioned({}, {}) && Grown(n) && Took() && SameBytes(old(disk), old(core), disk, core)
      ensures ok ==> |piece| == m && forall i :: 0 <= i < m ==> piece[i] == ByteAt(old(disk), old(core), n, off + i)
      ensures ok <==> Addr(disk, core, SlotOf(n, off / BSIZE)) != 0
      ensures !ok ==> DiskFull()
      ensures Anchored(old(core)[n]) && off < old(core)[n].size ==> core == old(core)
      ensures Addr(old(disk), old(core), SlotOf(n, off / BSIZE)) != 0 ==> ok
      ensures Addr(old(disk), old(core), SlotOf(n, off / BSIZE)) != 0 || old(DiskFull()) ==>
                disk == old(disk) && core == old(core) && bm == old(bm) && logged == old(logged) && owner == old(owner)
      ensures !(Addr(old(disk), old(core), SlotOf(n, off / BSIZE)) != 0 || old(DiskFull())) ==> owner.Keys != old(owner).Keys
      ensures Tracked()
    {
      hide Owned, Keeps, KeepsIn, BitsMatch, Bit, SameBytes, ByteAt, Logs;
      var addr := Bmap(n, off / BSIZE);
      if addr == 0 {
        return false, [];
      }
      AddrInRange(g, disk, core, owner, SlotOf(n, off / BSIZE));
      SameByte(old(disk), old(core), disk, core, n);
      ok, piece := true, disk[addr][off % BSIZE..off % BSIZE + m];
      forall i | 0 <= i < m ensures piece[i] == ByteAt(disk, core, n, off + i) {
        ByteInBlock(disk, core, n, off, i);
      }
    }

    /** readi with a destination that accepts every byte: the bytes of the file, holes read as zeros.
        A hole in the range is filled: bmap takes a block for it, and logs it, in the middle of a read.
        Without one, or with no block left, nothing changes; it comes out short only at a hole with the
        disk full.  `ok` is false for bmap's panic "out of range": the range goes past the largest file
        and the read gets that far. */
    method Readi(n: nat, off0: nat, len0: nat) returns (ok: bool, data: seq<byte>)
      requires Partitioned({}, {}) && n < |core|
      modifies this`bm, this`disk, this`core, this`owner, this`logged
      ensures Partitioned({}, {}) && Grown(n) && Took() && SameBytes(old(disk), old(core), disk, core)
      ensures |data| <= Reach(core[n].size, off0, len0)
      ensures forall k :: 0 <= k < |data| ==> data[k] == ByteAt(disk, core, n, off0 + k)
      ensures Anchored(old(core)[n]) ==> core == old(core)
      ensures ok <==> |data| == ReadLen(core[n].size, off0, len0) || |data| < Reach(core[n].size, off0, len0)
      ensures |data| < Reach(core[n].size, off0, len0) ==>
                DiskFull() && Addr(disk, core, SlotOf(n, (off0 + |data|) / BSIZE)) == 0
      ensures old(NoHole(disk, core, n, off0, Reach(core[n].size, off0, len0))) ==> |data| == Reach(core[n].size, off0, len0)
      ensures old(NoHole(disk, core, n, off0, Reach(core[n].size, off0, len0)) || DiskFull()) ==>
                bm == old(bm) && disk == old(disk) && core == old(core) && owner == old(owner) && logged == old(logged)
      ensures !old(NoHole(disk, core, n, off0, Reach(core[n].size, off0, len0)) || DiskFull()) ==>
                exists b :: b in owner && b !in old(owner) && b in logged
      ensures Tracked()
    {
      hide Owned, Keeps, KeepsIn, BitsMatch, Bit, Addr, SameBytes, NoHole, ByteAt, Logs, Anchored;
      KeepsInSame(disk, core, n);
      SameBytesSame(disk, core);
      NoHoleNone(disk, core, n, off0);
      ok, data := true, [];
      LogsSame(inodestart, bmapstart, Now());
      if off0 > core[n].size || off0 + len0 >= LIMIT {
        return;
      }
      var len := len0;
      if off0 + len > core[n].size {
        len := core[n].size - off0;
      }
      ok, data := ReadAll(n, off0, len);
      SameByte(old(disk), old(core), disk, core, n);
    }

    /** The loop of readi. */
    method ReadAll(n: nat, off0: nat, len: nat) returns (ok: bool, data: seq<byte>)
      requires Partitioned({}, {}) && n < |core|
      modifies this`bm, this`disk, this`core, this`owner, this`logged
      ensures Partitioned({}, {}) && Grown(n) && Took() && SameBytes(old(disk), old(core), disk, core)
      ensures |data| <= Below(off0, len) && forall k :: 0 <= k < |data| ==> data[k] == ByteAt(old(disk), old(core), n, off0 + k)
      ensures Anchored(old(core)[n]) && off0 + len <= old(core)[n].size ==> core == old(core)
      ensures ok <==> |data| == len || |data| < Below(off0, len)
      ensures |data| < Below(off0, len) ==> DiskFull() && Addr(disk, core, SlotOf(n, (off0 + |data|) / BSIZE)) == 0
      ensures old(NoHole(disk, core, n, off0, Below(off0, len))) ==> |data| == Below(off0, len)
      ensures old(NoHole(disk, core, n, off0, Below(off0, len)) || DiskFull()) ==>
                bm == old(bm) && disk == old(disk) && core == old(core) && owner == old(owner) && logged == old(logged)
      ensures !old(NoHole(disk, core, n, off0, Below(off0, len)) || DiskFull()) ==> owner.Keys != old(owner).Keys
      ensures Tracked()
    {
      hide Owned, Keeps, KeepsIn, BitsMatch, Bit, Addr, SameBytes, NoHole, ByteAt, Logs, Anchored;
      KeepsInSame(disk, core, n);
      SameBytesSame(disk, core);
      NoHoleNone(disk, core, n, off0);
      data := [];
      LogsSame(inodestart, bmapstart, Now());
      ghost var full0, lim := DiskFull(), Below(off0, len);
      var tot, off := 0, off0;
      ghost var same := true;
      while tot < len
        invariant tot <= lim && off == off0 + tot && |data| == tot && (0 < tot < len ==> off % BSIZE == 0)
        invariant Partitioned({}, {}) && Grown(n) && Took() && Tracked() && SameBytes(old(disk), old(core), disk, core)
        invariant same ==> bm == old(bm) && disk == old(disk) && core == old(core) && owner == old(owner) && logged == old(logged)
        invariant same ==> NoHole(old(disk), old(core), n, off0, tot)
        invariant !same ==> !full0 && !NoHole(old(disk), old(core), n, off0, lim) && owner.Keys != old(owner).Keys
        invariant Anchored(old(core)[n]) && off0 + len <= old(core)[n].size ==> core == old(core)
        invariant forall k :: 0 <= k < tot ==> data[k] == ByteAt(old(disk), old(core), n, off0 + k)
        decreases len - tot
      {
        if off / BSIZE >= MAXFILE {
          return false, data;
        }
        ghost var d1, i1, s1 := disk, core, Now();
        var m := Min(len - tot, BSIZE - off % BSIZE);
        NextHole(old(disk), old(core), n, off0, tot, m, lim);
        var got, piece := ReadPiece(n, off, m);
        LogsTrans(inodestart, bmapstart, old(Now()), s1, Now());
        KeepsInTrans(old(disk), old(core), d1, i1, disk, core, n);
        SameByte(old(disk), old(core), d1, i1, n);
        SameBytesTrans(old(disk), old(core), d1, i1, disk, core);
        if same && Addr(d1, i1, SlotOf(n, off / BSIZE)) == 0 {
          same := full0;
        }
        if !got {
          break;
        }
        data := data + piece;
        forall k | tot <= k < tot + m ensures data[k] == ByteAt(old(disk), old(core), n, off0 + k) {
          assert off0 + k == off + (k - tot);
        }
        tot := tot + m;
        off := off + m;
      }
      ok := true;
    }

    /** Where writei leaves a file while it works. */
    twostate predicate OthersKept(n: nat)
      reads this
      requires old(Sized(core)) && Sized(core)
    {
      && KeepsOthers(old(disk), old(core), disk, core, n) && |core| == |old(core)|
      && (forall m :: 0 <= m < |core| && m != n ==> core[m] == old(core)[m])
      && (n < |core| ==> core[n] == old(core)[n].(addrs := core[n].addrs))
    }

    /** One round of writei's loop: bmap, copy into the block, log_write; false when the disk is full. */
    method WritePiece(n: nat, off: nat, piece: seq<byte>, ghost len: nat) returns (ok: bool)
      requires Partitioned({}, {}) && n < |core| && off / BSIZE < MAXFILE && off % BSIZE + |piece| <= BSIZE && |piece| > 0
      modifies this`bm, this`disk, this`core, this`owner, this`logged
      ensures Partitioned({}, {}) && OthersKept(n)
      ensures off <= len && old(FileFull(disk, core, n, len)) ==>
                FileFull(disk, core, n, if ok then Max(len, off + |piece|) else len)
      ensures Spliced(old(disk), old(core), disk, core, n, off, if ok then piece else [])
      ensures Addr(disk, core, SlotOf(n, off / BSIZE)) != 0 <==> ok
      ensures !ok ==> DiskFull()
      ensures ok <==> old(SlotCost(disk, core, n, off / BSIZE)) <= old(Free())
      ensures ok ==> |owner| == |old(owner)| + old(SlotCost(disk, core, n, off / BSIZE))
      ensures logged <= old(logged) + BitmapBlocks() + {core[n].addrs[NDIRECT], Addr(disk, core, SlotOf(n, off / BSIZE))}
      ensures 0 in logged ==> 0 in old(logged)
      ensures Tracked()
    {
      hide Owned, Keeps, KeepsIn, KeepsOthers, BitsMatch, Bit, FileFull, ByteAt, Patch, Logs, SameBytes, Spliced;
      KeepsOthersSame(disk, core, n);
      var bn := off / BSIZE;
      ghost var d0, i0 := disk, core;
      var addr := Bmap(n, bn);
      ghost var d1, i1, s1 := disk, core, Now();
      KeepsOthersTrans(d0, i0, d0, i0, d1, i1, n);
      KeepsFull(d0, i0, d1, i1, n, len);
      SplicedSame(d0, i0, d1, i1, n, off);
      if addr == 0 {
        return false;
      }
      AddrInRange(g, d1, i1, owner, SlotOf(n, bn));
      PatchKeeps(g, d1, i1, owner, SlotOf(n, bn), Patch(d1[addr], off % BSIZE, piece));
      PatchKeepsOthers(g, d1, i1, owner, SlotOf(n, bn), Patch(d1[addr], off % BSIZE, piece));
      disk := disk[addr := Patch(disk[addr], off % BSIZE, piece)];
      logged := logged + {addr};
      LogsBlock(inodestart, bmapstart, s1, addr, disk[addr]);
      LogsTrans(inodestart, bmapstart, old(Now()), s1, Now());
      KeepsOthersTrans(d0, i0, d1, i1, disk, core, n);
      KeepsFull(d1, i1, disk, core, n, len);
      FullTo(disk, core, n, len, off, |piece|);
      PieceBytes(g, d0, i0, d1, disk, i1, owner, n, off, piece);
      ok := true;
    }

    /** Every block logged so far is one an operation may log. */
    ghost predicate KindsLogged()
      reads this
    {
      forall b :: b in logged ==> Loggable(g, inodestart, bmapstart, |dinodes|, b)
    }

    /** writei with a source that delivers every byte: -1 for a bad range, else the bytes written.  The
        file may have holes; one that has none stays so.  What lies in one block is written whole or
        not at all. */
    method Writei(n: nat, off0: nat, src: seq<byte>) returns (r: int)
      requires Partitioned({}, {}) && n < |core|
      modifies this`bm, this`disk, this`core, this`owner, this`logged, this`dinodes
      ensures Partitioned({}, {}) && OthersKeptButSize(n) && (old(Full(n)) ==> Full(n)) && (old(Valid()) ==> Valid())
      ensures r == -1 <==> off0 > old(core)[n].size || off0 + |src| >= LIMIT || off0 + |src| > MAXFILE * BSIZE
      ensures r == -1 ==> disk == old(disk) && core == old(core) && dinodes == old(dinodes) && bm == old(bm)
      ensures r == -1 ==> owner == old(owner) && logged == old(logged)
      ensures r != -1 ==> 0 <= r <= |src| && core[n].size == Max(old(core)[n].size, off0 + r)
      ensures Spliced(old(disk), old(core), disk, core, n, off0, if r == -1 then [] else src[..r])
      ensures r != -1 ==> dinodes == old(dinodes)[n := core[n]]
      ensures r > 0 ==> NoHole(disk, core, n, off0, r)
      ensures Anchored(old(core)[n]) ==> Anchored(core[n])
      ensures r != -1 && r < |src| ==> Addr(disk, core, SlotOf(n, (off0 + r) / BSIZE)) == 0 && DiskFull()
      ensures r != -1 && 0 < |src| <= BSIZE - off0 % BSIZE ==> OnePiece(n, off0 / BSIZE, |src|, r)
      ensures logged <= old(logged) + BitmapBlocks() + {Iblock(n), core[n].addrs[NDIRECT]} +
                        Touched(disk, core, n, off0 / BSIZE, (off0 + |src| + BSIZE - 1) / BSIZE)
      ensures 0 in logged ==> 0 in old(logged)
      ensures Tracked()
    {
      hide Owned, Keeps, KeepsIn, KeepsOthers, BitsMatch, Bit, FileFull, ByteAt, Touched, Logs, Spliced, Loggable, NoHole, Anchored;
      KeepsOthersSame(disk, core, n);
      LogsSame(inodestart, bmapstart, Now());
      SplicedNone(disk, core, n, off0);
      if off0 > core[n].size || off0 + |src| >= LIMIT {
        return -1;
      }
      if off0 + |src| > MAXFILE * BSIZE {
        return -1;
      }
      ghost var lo, hi := off0 / BSIZE, (off0 + |src| + BSIZE - 1) / BSIZE;
      var tot := WriteAll(n, off0, src);
      StillFull(old(disk), old(core), disk, core, n);
      if off0 + tot > core[n].size {
        ghost var i1 := core;
        core := core[n := core[n].(size := off0 + tot)];
        Grew(g, old(disk), old(core), disk, i1, core, owner, n, off0, src[..tot], lo, hi);
      }
      AnchoredMore(old(disk), old(core), disk, core, n, off0, tot);
      ghost var s1 := Now();
      Iupdate(n);
      LogsTrans(inodestart, bmapstart, old(Now()), s1, Now());
      r := tot;
    }

    /** A write of len bytes within block bn is all or nothing: it needs a block for each slot missing. */
    twostate predicate OnePiece(n: nat, bn: nat, len: nat, r: nat)
      reads this
      requires old(Sized(core)) && n < |old(core)|
    {
      && bn < MAXFILE && (r == len || r == 0) && (r == len <==> old(SlotCost(disk, core, n, bn)) <= old(Free()))
      && (r == len ==> |owner| == |old(owner)| + old(SlotCost(disk, core, n, bn)))
    }

    /** The loop of writei. */
    method WriteAll(n: nat, off0: nat, src: seq<byte>) returns (tot: nat)
      requires Partitioned({}, {}) && n < |core| && off0 <= core[n].size && off0 + |src| <= MAXFILE * BSIZE
      modifies this`bm, this`disk, this`core, this`owner, this`logged
      ensures Partitioned({}, {}) && OthersKept(n) && tot <= |src|
      ensures old(FileFull(disk, core, n, core[n].size)) ==> FileFull(disk, core, n, Max(core[n].size, off0 + tot))
      ensures Spliced(old(disk), old(core), disk, core, n, off0, src[..tot])
      ensures NoHole(disk, core, n, off0, tot)
      ensures tot < |src| ==> Addr(disk, core, SlotOf(n, (off0 + tot) / BSIZE)) == 0 && DiskFull()
      ensures 0 < |src| <= BSIZE - off0 % BSIZE ==> OnePiece(n, off0 / BSIZE, |src|, tot)
      ensures logged <= old(logged) + BitmapBlocks() + {core[n].addrs[NDIRECT]} +
                        Touched(disk, core, n, off0 / BSIZE, (off0 + |src| + BSIZE - 1) / BSIZE)
      ensures 0 in logged ==> 0 in old(logged)
      ensures Tracked()
    {
      hide Owned, Keeps, KeepsIn, KeepsOthers, BitsMatch, Bit, FileFull, Spliced, Touched, Logs, NoHole, Addr;
      KeepsOthersSame(disk, core, n);
      ghost var size0, lo, hi := core[n].size, off0 / BSIZE, (off0 + |src| + BSIZE - 1) / BSIZE;
      ghost var full, single := FileFull(disk, core, n, size0), 0 < |src| <= BSIZE - off0 % BSIZE;
      LogsSame(inodestart, bmapstart, Now());
      SplicedNone(disk, core, n, off0);
      NoHoleNone(disk, core, n, off0);
      tot := 0;
      var off := off0;
      while tot < |src|
        invariant tot <= |src| && off == off0 + tot && (0 < tot < |src| ==> off % BSIZE == 0)
        invariant Partitioned({}, {}) && OthersKept(n) && Tracked() && NoHole(disk, core, n, off0, tot)
        invariant full ==> FileFull(disk, core, n, Max(size0, off))
        invariant Spliced(old(disk), old(core), disk, core, n, off0, src[..tot])
        invariant single ==> (tot == 0 && Now() == old(Now()) && core == old(core) && owner == old(owner)) ||
                             (tot == |src| && OnePiece(n, lo, |src|, tot))
        invariant logged <= old(logged) + BitmapBlocks() + {core[n].addrs[NDIRECT]} + Touched(disk, core, n, lo, hi)
        invariant 0 in logged ==> 0 in old(logged)
      {
        var m := Min(|src| - tot, BSIZE - off % BSIZE);
        ghost var d1, i1, s1 := disk, core, Now();
        BlockBounds(off0, |src|, off);
        var ok := WritePiece(n, off, src[tot..tot + m], Max(size0, off));
        LogsTrans(inodestart, bmapstart, old(Now()), s1, Now());
        NextRound(old(disk), old(core), d1, i1, disk, core, n, off0, src, tot, m, ok);
        if !ok {
          break;
        }
        tot := tot + m;
        off := off + m;
      }
    }

    /** Only inode n's addrs and size changed, and no other file's bytes. */
    twostate predicate OthersKeptButSize(n: nat)
      reads this
      requires old(Sized(core)) && Sized(core)
    {
      && KeepsOthers(old(disk), old(core), disk, core, n) && |core| == |old(core)|
      && (forall m :: 0 <= m < |core| && m != n ==> core[m] == old(core)[m])
      && (n < |core| ==> core[n] == old(core)[n].(addrs := core[n].addrs, size := core[n].size))
    }

    /** bfree of the block slot s names, which is always marked in use. */
    method FreeSlot(s: Slot, b: nat, ghost gone: set<Slot>)
      requires Partitioned(gone, {}) && ValidSlot(s, |core|) && s !in gone && b != 0 && b == Addr(disk, core, s)
      modifies this`bm, this`owner, this`logged
      ensures Partitioned(gone + {s}, {}) && owner == old(owner) - {b} && b in old(owner) && old(owner)[b] == s
      ensures logged <= old(logged) + BitmapBlocks()
      ensures Tracked()
    {
      hide Bit, Logs;
      OwnedRelease(g, disk, core, owner, gone, s);
      ghost var bm0 := bm;
      BitsRelease(g, bm, bm, owner, b);
      var ok := Bfree(b);
      assert ok;
      BitsRelease(g, bm0, bm, owner, b);
      owner := owner - {b};
    }

    /** First loop of itrunc. */
    method FreeDirect(n: nat)
      requires Partitioned({}, {}) && n < |core|
      modifies this`bm, this`core, this`owner, this`logged
      ensures Partitioned({}, {}) && LostOnly(old(owner), owner, n) && |core| == |old(core)|
      ensures forall m :: 0 <= m < |core| && m != n ==> core[m] == old(core)[m]
      ensures core[n] == old(core)[n].(addrs := core[n].addrs)
      ensures core[n].addrs[NDIRECT] == old(core)[n].addrs[NDIRECT]
      ensures forall k :: 0 <= k < NDIRECT ==> core[n].addrs[k] == 0
      ensures logged <= old(logged) + BitmapBlocks()
      ensures Tracked()
    {
      hide Owned, BitsMatch, Bit, Logs;
      LogsSame(inodestart, bmapstart, Now());
      var i := 0;
      while i < NDIRECT
        invariant i <= NDIRECT && Partitioned({}, {}) && Tracked() && LostOnly(old(owner), owner, n) && |core| == |old(core)|
        invariant forall m :: 0 <= m < |core| && m != n ==> core[m] == old(core)[m]
        invariant core[n] == old(core)[n].(addrs := core[n].addrs)
        invariant core[n].addrs[NDIRECT] == old(core)[n].addrs[NDIRECT]
        invariant forall k :: 0 <= k < i ==> core[n].addrs[k] == 0
        invariant logged <= old(logged) + BitmapBlocks()
      {
        if core[n].addrs[i] != 0 {
          ghost var s1 := Now();
          FreeSlot(Direct(n, i), core[n].addrs[i], {});
          SetDirect(disk, core, n, i, 0);
          OwnedClear(g, disk, core, disk, SetAddr(core, n, i, 0), owner, {} + {Direct(n, i)}, Direct(n, i));
          assert {} + {Direct(n, i)} - {Direct(n, i)} == {};
          LogsTrans(inodestart, bmapstart, old(Now()), s1, Now());
          core := SetAddr(core, n, i, 0);
        }
        i := i + 1;
      }
    }

    /** Second loop of itrunc, over the indirect block. */
    method FreeEntries(n: nat)
      requires Partitioned({}, {}) && n < |core| && core[n].addrs[NDIRECT] != 0
      modifies this`bm, this`owner, this`logged
      ensures Partitioned(Entries(n, NINDIRECT), {}) && LostOnly(old(owner), owner, n)
      ensures logged <= old(logged) + BitmapBlocks()
      ensures Tracked()
    {
      hide Owned, BitsMatch, Bit, Word, Logs;
      PointerOwned(g, disk, core, owner, n);
      var p := core[n].addrs[NDIRECT];
      LogsSame(inodestart, bmapstart, Now());
      var j := 0;
      while j < NINDIRECT
        invariant j <= NINDIRECT && Partitioned(Entries(n, j), {}) && Tracked() && LostOnly(old(owner), owner, n)
        invariant logged <= old(logged) + BitmapBlocks()
      {
        var a := Word(disk[p], j);
        assert a == Addr(disk, core, Indirect(n, j));
        if a != 0 {
          ghost var s1 := Now();
          FreeSlot(Indirect(n, j), a, Entries(n, j));
          LogsTrans(inodestart, bmapstart, old(Now()), s1, Now());
        } else {
          OwnedGoneZero(g, disk, core, owner, Entries(n, j), Indirect(n, j));
        }
        j := j + 1;
      }
    }

    /** The rest of itrunc's second half: the entries, then the indirect block itself. */
    method FreeIndirect(n: nat)
      requires Partitioned({}, {}) && n < |core| && core[n].addrs[NDIRECT] != 0
      modifies this`bm, this`core, this`owner, this`logged
      ensures Partitioned({}, {}) && LostOnly(old(owner), owner, n) && core == SetAddr(old(core), n, NDIRECT, 0)
      ensures logged <= old(logged) + BitmapBlocks()
      ensures Tracked()
    {
      hide BitsMatch, Bit, Word, Owned, Logs;
      PointerOwned(g, disk, core, owner, n);
      FreeEntries(n);
      ghost var s1 := Now();
      FreeSlot(Direct(n, NDIRECT), core[n].addrs[NDIRECT], Entries(n, NINDIRECT));
      OwnedClearAll(g, disk, core, disk, SetAddr(core, n, NDIRECT, 0), owner, Entries(n, NINDIRECT) + {Direct(n, NDIRECT)});
      LogsTrans(inodestart, bmapstart, old(Now()), s1, Now());
      core := SetAddr(core, n, NDIRECT, 0);
    }

    /** itrunc: frees exactly inode n's blocks; never "freeing free block". */
    method Itrunc(n: nat)
      requires Partitioned({}, {}) && n < |core|
      modifies this`bm, this`core, this`owner, this`logged, this`dinodes
      ensures Partitioned({}, {}) && |core| == |old(core)|
      ensures forall m :: 0 <= m < |core| && m != n ==> core[m] == old(core)[m]
      ensures core[n] == old(core)[n].(addrs := core[n].addrs, size := 0) && forall k :: 0 <= k <= NDIRECT ==> core[n].addrs[k] == 0
      ensures forall b :: b in owner <==> b in old(owner) && old(owner)[b].inum != n
      ensures forall b :: b in owner ==> owner[b] == old(owner)[b]
      ensures dinodes == old(dinodes)[n := core[n]] && logged <= old(logged) + BitmapBlocks() + {Iblock(n)}
      ensures Tracked()
    {
      hide BitsMatch, Bit, Owned, KeepsOthers, Logs;
      FreeDirect(n);
      ghost var s1 := Now();
      if core[n].addrs[NDIRECT] != 0 {
        FreeIndirect(n);
        LogsTrans(inodestart, bmapstart, old(Now()), s1, Now());
      }
      NoneLeft(g, disk, core, owner, n);
      ghost var i1 := core;
      core := core[n := core[n].(size := 0)];
      KeepsOthersSame(disk, i1, n);
      SizeOnly(g, disk, i1, disk, i1, core, owner, n, 0, 0);
      ghost var s2 := Now();
      Iupdate(n);
      LogsTrans(inodestart, bmapstart, old(Now()), s2, Now());
    }

    /** What was written reads back, whatever holes the file has. */
    method WriteThenRead(n: nat, off: nat, src: seq<byte>) returns (ok: bool, data: seq<byte>, r: int)
      requires Partitioned({}, {}) && n < |core|
      modifies this
      ensures Partitioned({}, {}) && (r == |src| ==> ok && data == src)
    {
      hide Owned, KeepsOthers, BitsMatch, Bit, FileFull, ByteAt, Touched, NoHole;
      r := Writei(n, off, src);
      ok, data := Readi(n, off, |src|);
      assert r == |src| ==> |data| == |src| && forall k :: 0 <= k < |src| ==> data[k] == src[k];
    }

    lemma WholeNow()
      requires Valid() && Synced()
      ensures Whole(g, Now())
    {
      assert Names(g, Now(), owner);
    }

    /** begin_op: nothing is logged yet. */
    method BeginOp(n: nat)
      requires Partitioned({}, {})
      modifies this`logged
      ensures logged == {} && Partitioned({}, {}) && KindsLogged() && Valid() == old(Valid()) && Full(n) == old(Full(n))
      ensures Sized(core) && |dinodes| == |core| && (old(Valid() && Synced()) ==> Whole(g, old(Now())))
      ensures Logs(inodestart, bmapstart, old(Now()).(logged := {}), Now())
    {
      hide FileFull;
      if Valid() && Synced() { WholeNow(); }
      logged := {};
      LogsSame(inodestart, bmapstart, Now());
    }

    lemma Shaped()
      requires Partitioned({}, {})
      ensures Sized(core) && |dinodes| == |core|
    {
    }

    lemma EndStep(s0: Snap)
      requires Valid() && Synced() && Whole(g, s0) && Logs(inodestart, bmapstart, s0.(logged := {}), Now())
      requires KindsLogged() && |logged| <= OpBound(g)
      ensures Step(g, inodestart, bmapstart, s0, Now())
    {
      hide Whole, Logs, Loggable, Valid;
      WholeNow();
    }

    lemma WroteNothing(n: nat, off: nat)
      requires Partitioned({}, {}) && n < |core|
      ensures Wrote(disk, core, disk, core, n, off, [])
      ensures |dinodes| == |core| && Flushed(dinodes, core, dinodes, core, n)
    {
      WroteNone(disk, core, n, off);
    }

    /** One turn of filewrite's loop: an operation of its own, at most MAXCHUNK bytes. */
    method WriteChunk(n: nat, off: nat, chunk: seq<byte>) returns (r: int, ghost count: nat)
      requires Partitioned({}, {}) && n < |core| && 0 < |chunk| <= MAXCHUNK
      modifies this
      ensures Partitioned({}, {}) && (old(Full(n)) ==> Full(n)) && (old(Valid()) ==> Valid()) && -1 <= r <= |chunk|
      ensures Wrote(old(disk), old(core), disk, core, n, off, if r == -1 then [] else chunk[..r])
      ensures r == -1 ==> core == old(core) && owner == old(owner) && Now() == old(Now()).(logged := {})
      ensures r == -1 ==> off > core[n].size || off + |chunk| > MAXFILE * BSIZE
      ensures |core| == |old(core)| == |dinodes| && Flushed(old(dinodes), old(core), dinodes, core, n)
      ensures 0 <= r < |chunk| ==>
                off + |chunk| <= MAXFILE * BSIZE && DiskFull() && Addr(disk, core, SlotOf(n, (off + r) / BSIZE)) == 0
      ensures old(Valid() && Synced()) ==> Valid() && Synced() && Step(g, inodestart, bmapstart, old(Now()), Now())
      ensures Logs(inodestart, bmapstart, old(Now()).(logged := {}), Now()) && KindsLogged()
      ensures count == |logged| <= OpBound(g)
    {
      hide Valid, Partitioned, Full, KindsLogged, KeepsOthers, Spliced, Touched, NoHole, Whole, Logs, Wrote, Step, DiskFull, Addr, Anchored;
      BeginOp(n);
      r := Writei(n, off, chunk);
      Shaped();
      NewKinds({}, n, off / BSIZE, (off + |chunk| + BSIZE - 1) / BSIZE);
      WroteBy(old(disk), old(core), disk, core, n, off, chunk, r);
      ChunkBudget(n, off, |chunk|);
      count := |logged|;
      if old(Valid() && Synced()) { EndStep(old(Now())); }
    }

    /** filewrite on an inode: chunks of at most MAXCHUNK bytes, each an operation of its own.  It comes
        up short only for a start beyond the end, a chunk past the largest file, or a full disk.
        `peak` is the largest number of distinct blocks any of them logged, and `steps` are the states
        between them, in each of which the file has a whole number of chunks more. */
    method FileWrite(n: nat, off0: nat, src: seq<byte>) returns (ret: int, off: nat, ghost peak: nat, ghost steps: seq<Snap>)
      requires Partitioned({}, {}) && n < |core|
      modifies this
      ensures Partitioned({}, {}) && (old(Full(n)) ==> Full(n)) && (old(Valid()) ==> Valid()) && off0 <= off <= off0 + |src|
      ensures ret == if off == off0 + |src| then |src| else -1
      ensures Wrote(old(disk), old(core), disk, core, n, off0, src[..off - off0])
      ensures |core| == |old(core)| == |dinodes| && Flushed(old(dinodes), old(core), dinodes, core, n)
      ensures off < off0 + |src| ==>
                || off > core[n].size || off + Min(off0 + |src| - off, MAXCHUNK) > MAXFILE * BSIZE
                || (DiskFull() && Addr(disk, core, SlotOf(n, off / BSIZE)) == 0)
      ensures |steps| >= 1 && steps[0] == old(Now()) && steps[|steps| - 1].(logged := {}) == Now().(logged := {})
      ensures old(Valid() && Synced()) ==>
                Valid() && Synced() && Chunks(g, inodestart, bmapstart, steps, n, off0, src, off - off0)
      ensures peak <= OpBound(g) && (g.size <= P.SHIPPED.total ==> peak <= P.SHIPPED.maxOpBlocks - 2)
    {
      hide Wrote, DiskFull, Step, Chunks, Whole, Valid, Full, Partitioned, Addr, Logs, KindsLogged, Flushed, Anchored;
      WroteNothing(n, off0);
      var i := 0;
      off, peak, steps := off0, 0, [Now()];
      assert src[..0] == [];
      ghost var whole, full := Valid() && Synced(), Full(n);
      if whole {
        WholeNow();
        ChunksNone(g, inodestart, bmapstart, Now(), n, off0, src);
      }
      while i < |src|
        invariant i <= |src| && off == off0 + i && Partitioned({}, {}) && n < |core| == |old(core)| && (full ==> Full(n))
        invariant old(Valid()) ==> Valid()
        invariant Wrote(old(disk), old(core), disk, core, n, off0, src[..i])
        invariant |dinodes| == |core| && Flushed(old(dinodes), old(core), dinodes, core, n)
        invariant |steps| >= 1 && steps[0] == old(Now()) && steps[|steps| - 1].(logged := {}) == Now().(logged := {})
        invariant i < |src| ==> i == (|steps| - 1) * MAXCHUNK
        invariant whole ==> Synced() && Chunks(g, inodestart, bmapstart, steps, n, off0, src, i)
        invariant peak <= OpBound(g)
      {
        var n1 := |src| - i;
        if n1 > MAXCHUNK {
          n1 := MAXCHUNK;
        }
        ghost var d1, i1, s1 := disk, core, Now();
        var r, count := WriteChunk(n, off, src[i..i + n1]);
        FlushedMore(old(dinodes), old(core), s1.dinodes, i1, dinodes, core, n);
        peak := Max(peak, count);
        if r != -1 {
          SliceOfSlice(src, i, n1, r);
          WroteMore(old(disk), old(core), d1, i1, disk, core, n, off0, src, i, r);
          if whole {
            ChunksMore(g, inodestart, bmapstart, steps, s1, Now(), n, off0, src, i, r);
          }
          steps := steps + [Now()];
        }
        if r > 0 {
          off := off + r;
        }
        if r != n1 {
          break;
        }
        i := i + r;
      }
      ret := if i == |src| then |src| else -1;
    }

    /** One chunk logs the bitmap, the inode, the indirect block and at most 7 data blocks. */
    lemma ChunkBudget(n: nat, off: nat, len: nat)
      requires Sized(core) && n < |core| && len <= MAXCHUNK
      requires logged <= {} + BitmapBlocks() + {Iblock(n), core[n].addrs[NDIRECT]} +
                         Touched(disk, core, n, off / BSIZE, (off + len + BSIZE - 1) / BSIZE)
      ensures |logged| <= OpBound(g)
    {
      hide Touched;
      var t := Touched(disk, core, n, off / BSIZE, (off + len + BSIZE - 1) / BSIZE);
      TouchedSize(disk, core, n, off / BSIZE, (off + len + BSIZE - 1) / BSIZE);
      var r := Consecutive(bmapstart, g.size / BPB + 1);
      forall b: nat | b < g.size ensures Bblock(b) in r {
        assert b / BPB <= g.size / BPB;
      }
      assert BitmapBlocks() <= r;
      assert logged <= r + {Iblock(n), core[n].addrs[NDIRECT]} + t;
      SubsetSize(logged, r + {Iblock(n), core[n].addrs[NDIRECT]} + t);
    }

    /** What writei adds to the log are blocks an operation may log. */
    lemma NewKinds(was: set<nat>, n: nat, lo: nat, hi: nat)
      requires Partitioned({}, {}) && n < |core| && (0 in logged ==> 0 in was)
      requires forall b :: b in was ==> Loggable(g, inodestart, bmapstart, |dinodes|, b)
      requires logged <= was + BitmapBlocks() + {Iblock(n), core[n].addrs[NDIRECT]} + Touched(disk, core, n, lo, hi)
      ensures KindsLogged()
    {
      hide Owned, BitsMatch, Touched, Addr, Word;
      forall b | b in logged ensures Loggable(g, inodestart, bmapstart, |dinodes|, b) {
        if b in Touched(disk, core, n, lo, hi) {
          TouchedRange(g, disk, core, owner, n, lo, hi);
        } else if b == core[n].addrs[NDIRECT] && b !in was {
          PointerOwned(g, disk, core, owner, n);
        } else if b !in was && b in BitmapBlocks() {
          BitmapKind(b);
        }
      }
    }

    lemma BitmapKind(b: nat)
      requires b in BitmapBlocks()
      ensures Loggable(g, inodestart, bmapstart, |dinodes|, b)
    {
      var x: nat :| x < g.size && Bblock(x) == b;
      assert x / BPB <= g.size / BPB;
    }
  }

  /** The states between the operations of a filewrite that wrote the first `total` bytes of src: after
      j of them the file has the first j chunks. */
  ghost predicate Chunks(g: Geometry, ib: nat, bb: nat, steps: seq<Snap>, n: nat, off: nat, src: seq<byte>, total: nat) {
    && |steps| >= 1 && Whole(g, steps[0])
    && (forall j :: 0 <= j < |steps| - 1 ==> Step(g, ib, bb, steps[j], steps[j + 1]))
    && (forall j: nat :: j < |steps| ==> ChunkAt(steps[0], steps[j], n, off, src, Min(total, j * MAXCHUNK)))
  }

  ghost predicate ChunkAt(s0: Snap, s1: Snap, n: nat, off: nat, src: seq<byte>, t: nat) {
    t <= |src| && Wrote(s0.disk, s0.dinodes, s1.disk, s1.dinodes, n, off, src[..t])
  }

  lemma ChunksNone(g: Geometry, ib: nat, bb: nat, s: Snap, n: nat, off: nat, src: seq<byte>)
    requires Whole(g, s) && n < |s.dinodes|
    ensures Chunks(g, ib, bb, [s], n, off, src, 0)
  {
    WroteNone(s.disk, s.dinodes, n, off);
    assert src[..0] == [];
  }

  lemma StepFrom(g: Geometry, ib: nat, bb: nat, s0: Snap, t0: Snap, s1: Snap)
    requires Step(g, ib, bb, s0, s1) && s0.(logged := {}) == t0.(logged := {})
    ensures Step(g, ib, bb, t0, s1)
  {
    var owner :| Names(g, s0, owner);
    assert Names(g, t0, owner);
  }

  lemma ChunksMore(g: Geometry, ib: nat, bb: nat, steps: seq<Snap>, s0: Snap, s: Snap, n: nat, off: nat, src: seq<byte>, i: nat, r: nat)
    requires i + r <= |src| && Chunks(g, ib, bb, steps, n, off, src, i) && i == (|steps| - 1) * MAXCHUNK && r <= MAXCHUNK
    requires Step(g, ib, bb, s0, s) && s0.(logged := {}) == steps[|steps| - 1].(logged := {})
    requires Wrote(steps[0].disk, steps[0].dinodes, s.disk, s.dinodes, n, off, src[..i + r])
    ensures Chunks(g, ib, bb, steps + [s], n, off, src, i + r)
  {
    hide Whole, Step, Wrote;
    StepFrom(g, ib, bb, s0, steps[|steps| - 1], s);
    assert ChunkAt(steps[0], s, n, off, src, i + r);
    ChunksLonger(g, ib, bb, steps, s, n, off, src, i, r);
  }

  lemma ChunksLonger(g: Geometry, ib: nat, bb: nat, steps: seq<Snap>, s: Snap, n: nat, off: nat, src: seq<byte>, i: nat, r: nat)
    requires Chunks(g, ib, bb, steps, n, off, src, i) && i == (|steps| - 1) * MAXCHUNK && r <= MAXCHUNK
    requires Step(g, ib, bb, steps[|steps| - 1], s) && ChunkAt(steps[0], s, n, off, src, i + r)
    ensures Chunks(g, ib, bb, steps + [s], n, off, src, i + r)
  {
    hide Whole, Step, ChunkAt;
    var more := steps + [s];
    forall j: nat | j < |more| ensures ChunkAt(more[0], more[j], n, off, src, Min(i + r, j * MAXCHUNK)) {
      ChunkTotal(i, r, j, |steps|);
      if j < |steps| {
        assert more[j] == steps[j];
      }
    }
    forall j | 0 <= j < |more| - 1 ensures Step(g, ib, bb, more[j], more[j + 1]) {
    }
  }

  lemma ChunkTotal(i: nat, r: nat, j: nat, len: nat)
    requires len >= 1 && i == (len - 1) * MAXCHUNK && r <= MAXCHUNK
    ensures Min(i + r, j * MAXCHUNK) == if j < len then Min(i, j * MAXCHUNK) else i + r
  {
  }

  /** How many bytes readi delivers when nothing fails: the part of the range before the end of the file. */
  function ReadLen(size: nat, off: nat, len: nat): nat {
    if off > size || off + len >= LIMIT then 0 else if off + len > size then size - off else len
  }

  /** The part of a range before the largest size of a file. */
  function Below(off: nat, len: nat): nat {
    if off + len <= MAXFILE * BSIZE then len else if off < MAXFILE * BSIZE then MAXFILE * BSIZE - off else 0
  }

  function Reach(size: nat, off: nat, len: nat): nat { Below(off, ReadLen(size, off, len)) }

  /** ((MAXOPBLOCKS-1-1-2) / 2) * BSIZE with the shipped MAXOPBLOCKS. */
  const MAXCHUNK: nat := (P.SHIPPED.maxOpBlocks - 1 - 1 - 2) / 2 * BSIZE

  /** Inode n was written to the disk, or nothing was; the other inodes on disk are as before.  It did
      not come to lack a block. */
  ghost predicate Flushed(f0: seq<Inode>, i0: seq<Inode>, f1: seq<Inode>, i1: seq<Inode>, n: nat)
    requires n < |i1| == |f1| == |f0| == |i0|
  {
    && (forall m :: 0 <= m < |f0| && m != n ==> f1[m] == f0[m]) && (f1[n] == i1[n] || (f1 == f0 && i1 == i0))
    && (Anchored(i0[n]) ==> Anchored(i1[n]))
  }

  lemma FlushedMore(f0: seq<Inode>, i0: seq<Inode>, f1: seq<Inode>, i1: seq<Inode>, f2: seq<Inode>, i2: seq<Inode>, n: nat)
    requires n < |i2| == |f2| == |i1| == |f1| == |f0| == |i0|
    requires Flushed(f0, i0, f1, i1, n) && Flushed(f1, i1, f2, i2, n)
    ensures Flushed(f0, i0, f2, i2, n)
  {
  }

  /** What writei did, as its result says. */
  lemma WroteBy(d0: seq<Block>, i0: seq<Inode>, d1: seq<Block>, i1: seq<Inode>, n: nat, off: nat, src: seq<byte>, r: int)
    requires Sized(i0) && Sized(i1) && n < |i0| == |i1| && KeepsOthers(d0, i0, d1, i1, n) && -1 <= r <= |src|
    requires forall m :: 0 <= m < |i1| && m != n ==> i1[m] == i0[m]
    requires i1[n] == i0[n].(addrs := i1[n].addrs, size := i1[n].size)
    requires if r == -1 then i1 == i0 else i1[n].size == Max(i0[n].size, off + r) && off <= i0[n].size
    requires Spliced(d0, i0, d1, i1, n, off, if r == -1 then [] else src[..r])
    ensures Wrote(d0, i0, d1, i1, n, off, if r == -1 then [] else src[..r])
  {
    hide KeepsOthers, Spliced;
  }

  lemma SliceOfSlice(src: seq<byte>, i: nat, m: nat, r: nat)
    requires r <= m && i + m <= |src|
    ensures src[i..i + m][..r] == src[i..i + r]
  {
  }

  lemma NoneLeft(g: Geometry, disk: seq<Block>, inodes: seq<Inode>, owner: map<nat, Slot>, n: nat)
    requires Sized(inodes) && n < |inodes| && Owned(g, disk, inodes, owner, {}) && 1 <= g.nmeta
    requires forall k :: 0 <= k <= NDIRECT ==> inodes[n].addrs[k] == 0
    ensures forall b :: b in owner ==> owner[b].inum != n
  {
    forall b | b in owner ensures owner[b].inum != n {
      assert Addr(disk, inodes, owner[b]) == b;
    }
  }

  lemma {:induction false} TouchedRange(g: Geometry, disk: seq<Block>, inodes: seq<Inode>, owner: map<nat, Slot>, n: nat, lo: nat, hi: nat)
    requires Sized(inodes) && Owned(g, disk, inodes, owner, {}) && n < |inodes|
    ensures forall b :: b in Touched(disk, inodes, n, lo, hi) ==> b == 0 || g.nmeta <= b < g.size
    decreases hi
  {
    if lo < hi <= MAXFILE {
      TouchedRange(g, disk, inodes, owner, n, lo, hi - 1);
      if Addr(disk, inodes, SlotOf(n, hi - 1)) != 0 { AddrInRange(g, disk, inodes, owner, SlotOf(n, hi - 1)); }
    }
  }

  lemma BlockBounds(off0: nat, len: nat, off: nat)
    requires off0 <= off < off0 + len <= MAXFILE * BSIZE
    ensures off0 / BSIZE <= off / BSIZE < (off0 + len + BSIZE - 1) / BSIZE <= MAXFILE
  {
  }

  /** Changing a size alone moves no block. */
  lemma SizeOnly(g: Geometry, d0: seq<Block>, i0: seq<Inode>, disk: seq<Block>, i1: seq<Inode>, i2: seq<Inode>,
                 owner: map<nat, Slot>, n: nat, lo: nat, hi: nat)
    requires Sized(i0) && Sized(i1) && |i1| == |i2| && n < |i1|
    requires forall m :: 0 <= m < |i1| ==> i2[m].addrs == i1[m].addrs
    requires Owned(g, disk, i1, owner, {}) && KeepsOthers(d0, i0, disk, i1, n)
    ensures Owned(g, disk, i2, owner, {}) && KeepsOthers(d0, i0, disk, i2, n)
    ensures forall m: nat, len: nat :: m < |i1| && FileFull(disk, i1, m, len) ==> FileFull(disk, i2, m, len)
    ensures forall m, k: nat :: 0 <= m < |i1| ==> ByteAt(disk, i2, m, k) == ByteAt(disk, i1, m, k)
    ensures Touched(disk, i2, n, lo, hi) == Touched(disk, i1, n, lo, hi)
    ensures forall s {:trigger Addr(disk, i2, s)} :: ValidSlot(s, |i1|) ==> Addr(disk, i2, s) == Addr(disk, i1, s)
  {
    hide Touched;
    forall s | ValidSlot(s, |i1|) ensures Addr(disk, i2, s) == Addr(disk, i1, s) {
    }
    TouchedSame(disk, i1, i2, n, lo, hi);
  }

  /** A size that grew over the bytes written. */
  lemma Grew(g: Geometry, d0: seq<Block>, i0: seq<Inode>, disk: seq<Block>, i1: seq<Inode>, i2: seq<Inode>,
             owner: map<nat, Slot>, n: nat, off: nat, src: seq<byte>, lo: nat, hi: nat)
    requires Sized(i0) && Sized(i1) && |i1| == |i2| && n < |i1| && off + |src| <= MAXFILE * BSIZE
    requires forall m :: 0 <= m < |i1| ==> i2[m].addrs == i1[m].addrs
    requires Owned(g, disk, i1, owner, {}) && KeepsOthers(d0, i0, disk, i1, n)
    requires Spliced(d0, i0, disk, i1, n, off, src) && NoHole(disk, i1, n, off, |src|)
    ensures Owned(g, disk, i2, owner, {}) && KeepsOthers(d0, i0, disk, i2, n)
    ensures forall m: nat, len: nat :: m < |i1| && FileFull(disk, i1, m, len) ==> FileFull(disk, i2, m, len)
    ensures Touched(disk, i2, n, lo, hi) == Touched(disk, i1, n, lo, hi)
    ensures Spliced(d0, i0, disk, i2, n, off, src) && NoHole(disk, i2, n, off, |src|)
    ensures forall s {:trigger Addr(disk, i2, s)} :: ValidSlot(s, |i1|) ==> Addr(disk, i2, s) == Addr(disk, i1, s)
  {
    hide Owned, FileFull, Touched, ByteAt, NoHole, Spliced, KeepsOthers;
    SizeOnly(g, d0, i0, disk, i1, i2, owner, n, lo, hi);
    SplicedSize(d0, i0, disk, i1, i2, n, off, src);
    KeepsOthersSame(disk, i1, n);
    SizeOnly(g, disk, i1, disk, i1, i2, owner, n, lo, hi);
    NoHoleKeeps(disk, i1, disk, i2, n, off, |src|);
  }

  lemma PointerKeeps(d0: seq<Block>, i0: seq<Inode>, d1: seq<Block>, i1: seq<Inode>, n: nat)
    requires Sized(i0) && Sized(i1) && KeepsOthers(d0, i0, d1, i1, n) && n < |i0|
    ensures i0[n].addrs[NDIRECT] != 0 ==> i1[n].addrs[NDIRECT] == i0[n].addrs[NDIRECT]
  {
    assert Addr(d1, i1, Direct(n, NDIRECT)) == i1[n].addrs[NDIRECT];
  }

  lemma {:induction false} TouchedSame(disk: seq<Block>, i1: seq<Inode>, i2: seq<Inode>, n: nat, lo: nat, hi: nat)
    requires Sized(i1) && |i1| == |i2| && n < |i1| && forall m :: 0 <= m < |i1| ==> i2[m].addrs == i1[m].addrs
    ensures Touched(disk, i2, n, lo, hi) == Touched(disk, i1, n, lo, hi)
    decreases hi
  {
    if lo < hi <= MAXFILE { TouchedSame(disk, i1, i2, n, lo, hi - 1); }
  }

  lemma {:induction false} TouchedKeeps(d0: seq<Block>, i0: seq<Inode>, d1: seq<Block>, i1: seq<Inode>, n: nat, lo: nat, hi: nat)
    requires Sized(i0) && Sized(i1) && KeepsOthers(d0, i0, d1, i1, n) && n < |i0|
    ensures forall x :: x in Touched(d0, i0, n, lo, hi) && x != 0 ==> x in Touched(d1, i1, n, lo, hi)
    decreases hi
  {
    if lo < hi <= MAXFILE {
      TouchedKeeps(d0, i0, d1, i1, n, lo, hi - 1);
      assert Addr(d0, i0, SlotOf(n, hi - 1)) != 0 ==> Addr(d1, i1, SlotOf(n, hi - 1)) == Addr(d0, i0, SlotOf(n, hi - 1));
    }
  }

  lemma {:induction false} TouchedHas(disk: seq<Block>, inodes: seq<Inode>, n: nat, lo: nat, hi: nat, bn: nat)
    requires Sized(inodes) && n < |inodes| && lo <= bn < hi <= MAXFILE
    ensures Addr(disk, inodes, SlotOf(n, bn)) in Touched(disk, inodes, n, lo, hi)
    decreases hi
  {
    if bn < hi - 1 { TouchedHas(disk, inodes, n, lo, hi - 1, bn); }
  }

  lemma {:induction false} TouchedSize(disk: seq<Block>, inodes: seq<Inode>, n: nat, lo: nat, hi: nat)
    requires Sized(inodes) && n < |inodes|
    ensures |Touched(disk, inodes, n, lo, hi)| <= if lo < hi then hi - lo else 0
    decreases hi
  {
    if lo < hi <= MAXFILE { TouchedSize(disk, inodes, n, lo, hi - 1); }
  }

  function Max(a: nat, b: nat): (r: nat) { if a < b then b else a }

  /** Byte k lies among the m bytes from off, all in one block. */
  lemma InBlock(off: nat, m: nat, k: nat)
    requires off % BSIZE + m <= BSIZE
    ensures off <= k < off + m <==> k / BSIZE == off / BSIZE && off % BSIZE <= k % BSIZE < off % BSIZE + m
    ensures off <= k < off + m ==> k % BSIZE - off % BSIZE == k - off
  {
  }

  /** Patching the block of byte off puts piece there, and changes no other byte of any file. */
  lemma PieceBytes(g: Geometry, d0: seq<Block>, i0: seq<Inode>, d1: seq<Block>, d2: seq<Block>, inodes: seq<Inode>,
                   owner: map<nat, Slot>, n: nat, off: nat, piece: seq<byte>)
    requires Sized(i0) && Sized(inodes) && Owned(g, d1, inodes, owner, {}) && |d1| == g.size && n < |inodes|
    requires SameBytes(d0, i0, d1, inodes) && off / BSIZE < MAXFILE && off % BSIZE + |piece| <= BSIZE
    requires var a := Addr(d1, inodes, SlotOf(n, off / BSIZE)); 0 < a < |d1| && d2 == d1[a := Patch(d1[a], off % BSIZE, piece)]
    ensures Spliced(d0, i0, d2, inodes, n, off, piece)
  {
    hide Owned, ByteAt, Patch;
    var s := SlotOf(n, off / BSIZE);
    forall m, k: nat | 0 <= m < |inodes|
      ensures ByteAt(d2, inodes, m, k) == if m == n && off <= k < off + |piece| then piece[k - off] else ByteAt(d0, i0, m, k)
    {
      if m == n {
        PatchBytes(g, d1, inodes, owner, n, off / BSIZE, off % BSIZE, piece, k);
        InBlock(off, |piece|, k);
      } else {
        PatchOther(g, d1, inodes, owner, s, Patch(d1[Addr(d1, inodes, s)], off % BSIZE, piece), m, k);
      }
    }
  }

  /** One round of writei's loop, after those that wrote the first tot bytes. */
  lemma NextRound(d0: seq<Block>, i0: seq<Inode>, d1: seq<Block>, i1: seq<Inode>, d2: seq<Block>, i2: seq<Inode>, n: nat,
                  off: nat, src: seq<byte>, tot: nat, m: nat, ok: bool)
    requires Sized(i0) && Sized(i1) && Sized(i2) && n < |i1| && tot + m <= |src| && off + |src| <= MAXFILE * BSIZE
    requires 0 < m <= BSIZE - (off + tot) % BSIZE && (tot > 0 ==> (off + tot) % BSIZE == 0)
    requires KeepsOthers(d0, i0, d1, i1, n) && KeepsOthers(d1, i1, d2, i2, n) && NoHole(d1, i1, n, off, tot)
    requires Spliced(d0, i0, d1, i1, n, off, src[..tot])
    requires Spliced(d1, i1, d2, i2, n, off + tot, if ok then src[tot..tot + m] else [])
    requires n < |i2| && (off + tot) / BSIZE < MAXFILE && (ok <==> Addr(d2, i2, SlotOf(n, (off + tot) / BSIZE)) != 0)
    ensures KeepsOthers(d0, i0, d2, i2, n) && Spliced(d0, i0, d2, i2, n, off, src[..if ok then tot + m else tot])
    ensures NoHole(d2, i2, n, off, if ok then tot + m else tot)
    ensures var lo, hi := off / BSIZE, (off + |src| + BSIZE - 1) / BSIZE;
            && Addr(d2, i2, SlotOf(n, (off + tot) / BSIZE)) in Touched(d2, i2, n, lo, hi)
            && (i1[n].addrs[NDIRECT] == 0 || i1[n].addrs[NDIRECT] == i2[n].addrs[NDIRECT])
            && forall x :: x in Touched(d1, i1, n, lo, hi) && x != 0 ==> x in Touched(d2, i2, n, lo, hi)
  {
    hide Touched, NoHole, KeepsOthers, Spliced, Addr;
    var lo, hi := off / BSIZE, (off + |src| + BSIZE - 1) / BSIZE;
    SameCount(d1, i1, d2, i2, n);
    KeepsOthersTrans(d0, i0, d1, i1, d2, i2, n);
    TouchedKeeps(d1, i1, d2, i2, n, lo, hi);
    PointerKeeps(d1, i1, d2, i2, n);
    NoHoleKeeps(d1, i1, d2, i2, n, off, tot);
    NextHole(d2, i2, n, off, tot, m, |src|);
    BlockBounds(off, |src|, off + tot);
    TouchedHas(d2, i2, n, lo, hi, (off + tot) / BSIZE);
    assert src[tot..tot] == [];
    SplicedMore(d0, i0, d1, i1, d2, i2, n, off, src, tot, if ok then m else 0);
  }

  lemma SameCount(d0: seq<Block>, i0: seq<Inode>, d1: seq<Block>, i1: seq<Inode>, n: nat)
    requires Sized(i0) && Sized(i1) && KeepsOthers(d0, i0, d1, i1, n)
    ensures |i1| == |i0|
  {
  }

  lemma SplicedSize(d0: seq<Block>, i0: seq<Inode>, d1: seq<Block>, i1: seq<Inode>, i2: seq<Inode>, n: nat, off: nat, piece: seq<byte>)
    requires Sized(i0) && Sized(i1) && Sized(i2) && |i2| == |i1| && Spliced(d0, i0, d1, i1, n, off, piece)
    requires forall m, k: nat :: 0 <= m < |i1| ==> ByteAt(d1, i2, m, k) == ByteAt(d1, i1, m, k)
    ensures Spliced(d0, i0, d1, i2, n, off, piece)
  {
    hide ByteAt;
  }

  lemma FullTo(disk: seq<Block>, inodes: seq<Inode>, n: nat, len: nat, off: nat, m: nat)
    requires Sized(inodes) && n < |inodes|
    requires off / BSIZE < MAXFILE && off % BSIZE + m <= BSIZE && Addr(disk, inodes, SlotOf(n, off / BSIZE)) != 0
    ensures FileFull(disk, inodes, n, len) && off <= len ==> FileFull(disk, inodes, n, Max(len, off + m))
  {
    if FileFull(disk, inodes, n, len) && off <= len {
      forall bn: nat | bn * BSIZE < Max(len, off + m) ensures bn < MAXFILE && Addr(disk, inodes, SlotOf(n, bn)) != 0 {
        if bn * BSIZE >= len {
          assert bn == off / BSIZE;
        }
      }
    }
  }

  function Min(a: nat, b: nat): (r: nat) { if a < b then a else b }

  lemma StillFull(d0: seq<Block>, i0: seq<Inode>, d1: seq<Block>, i1: seq<Inode>, n: nat)
    requires Sized(i0) && Sized(i1) && KeepsOthers(d0, i0, d1, i1, n)
    ensures forall m :: 0 <= m < |i0| && FileFull(d0, i0, m, i0[m].size) ==> FileFull(d1, i1, m, i0[m].size)
  {
    hide FileFull;
    forall m | 0 <= m < |i0| ensures FileFull(d0, i0, m, i0[m].size) ==> FileFull(d1, i1, m, i0[m].size) {
      KeepsFull(d0, i0, d1, i1, m, i0[m].size);
    }
  }

  /** Byte (bi / 8) of bitmap block (b / BPB) holds bit b + bi. */
  lemma ByteIndex(b: nat, bi: nat)
    requires b % BPB == 0 && bi < BPB
    ensures b / BPB * BSIZE + bi / 8 == (b + bi) / 8 && bi % 8 == (b + bi) % 8 && (b + bi) / BPB == b / BPB
  {
  }

  lemma Cleared(size: nat, bm: seq<bv8>, b: nat)
    requires size <= 8 * |bm| && b < size
    ensures var bm2 := bm[b / 8 := bm[b / 8] & !Mask(b % 8)];
            forall x: nat :: x < size ==> (Bit(bm2, x) <==> x != b && Bit(bm, x))
  {
    hide Mask;
    var bm2 := bm[b / 8 := bm[b / 8] & !Mask(b % 8)];
    forall x: nat | x < size ensures Bit(bm2, x) <==> x != b && Bit(bm, x) {
      BitSet(bm[b / 8], b % 8, x % 8);
    }
  }

  lemma MarkBit(g: Geometry, bm: seq<bv8>, owner: map<nat, Slot>, loose: set<nat>, b: nat)
    requires BitsMatch(g, bm, owner, loose) && b < g.size && b / 8 < |bm| && !Bit(bm, b)
    ensures g.nmeta <= b && b !in owner
    ensures BitsMatch(g, bm[b / 8 := bm[b / 8] | Mask(b % 8)], owner, loose + {b})
  {
    var bm2 := bm[b / 8 := bm[b / 8] | Mask(b % 8)];
    forall x: nat | x < g.size ensures Bit(bm2, x) <==> x == b || Bit(bm, x) {
      BitSet(bm[b / 8], b % 8, x % 8);
    }
  }
}
