/** The logical disk of xv6-riscv/kernel/fs.c as values: bitmap bytes, inodes, and 512-byte blocks
    that hold file data or little-endian block numbers. */
module FsModel {

  const BSIZE: nat := 512
  const NDIRECT: nat := 12
  const NINDIRECT: nat := 128
  const MAXFILE: nat := 140
  const BPB: nat := 4096
  const LIMIT: nat := 0x1_0000_0000

  type byte = x: int | 0 <= x < 256
  type Block = s: seq<byte> | |s| == 512 witness seq(512, _ => 0)

  const ZERO: Block := seq(512, _ => 0)

  /** struct inode / struct dinode; addrs[12] names the indirect block. */
  datatype Inode = Inode(typ: nat, major: nat, minor: nat, nlink: nat, size: nat, addrs: seq<nat>)

  function NoBlocks(): (r: seq<nat>)
    ensures |r| == NDIRECT + 1 && forall i :: 0 <= i < |r| ==> r[i] == 0
  {
    seq(NDIRECT + 1, _ => 0)
  }

  /** A directory entry: inode number and 14 bytes of name. */
  function Dirent(inum: nat, name: seq<byte>): (r: seq<byte>)
    requires inum < 65536 && |name| == 14
    ensures |r| == 16
  {
    [inum % 256, inum / 256] + name
  }

  // ----- Words of an indirect block -----

  function Word(b: Block, j: nat): (r: nat)
    requires j < NINDIRECT
    ensures r < LIMIT
  {
    (b[4 * j] as int) + 256 * (b[4 * j + 1] as int) + 65536 * (b[4 * j + 2] as int) + 16777216 * (b[4 * j + 3] as int)
  }

  function SetWord(b: Block, j: nat, w: nat): (r: Block)
    requires j < NINDIRECT
  {
    b[4 * j := w % 256][4 * j + 1 := w / 256 % 256][4 * j + 2 := w / 65536 % 256][4 * j + 3 := w / 16777216 % 256]
  }

  lemma WordSplit(w: nat)
    requires w < LIMIT
    ensures w % 256 + 256 * (w / 256 % 256) + 65536 * (w / 65536 % 256) + 16777216 * (w / 16777216 % 256) == w
  {
  }

  /** Storing one word stores that word and no other. */
  lemma SetWordGet(b: Block, j: nat, w: nat, k: nat)
    requires j < NINDIRECT && k < NINDIRECT && w < LIMIT
    ensures Word(SetWord(b, j, w), k) == if k == j then w else Word(b, k)
  {
    WordSplit(w);
  }

  // ----- Bitmap bits -----

  /** 1 << k. */
  function Mask(k: nat): (m: bv8)
    requires k < 8
    ensures m != 0
  {
    if k == 0 then 1 else if k == 1 then 2 else if k == 2 then 4 else if k == 3 then 8
    else if k == 4 then 16 else if k == 5 then 32 else if k == 6 then 64 else 128
  }

  predicate BitOf(x: bv8, k: nat)
    requires k < 8
  {
    x & Mask(k) != 0
  }

  lemma MasksApart(k: nat, i: nat)
    requires k < 8 && i < 8 && k != i
    ensures Mask(k) & Mask(i) == 0
  {
  }

  lemma MaskAlgebra(x: bv8, m: bv8, o: bv8)
    requires m & o == 0
    ensures (x | m) & o == x & o && (x & !m) & o == x & o
  {
  }

  lemma MaskSelf(x: bv8, m: bv8)
    ensures (x | m) & m == m && (x & !m) & m == 0
  {
  }

  lemma BitSelf(x: bv8, k: nat)
    requires k < 8
    ensures BitOf(x | Mask(k), k) && !BitOf(x & !Mask(k), k)
  {
    MaskSelf(x, Mask(k));
    hide Mask;
  }

  lemma BitOther(x: bv8, k: nat, i: nat)
    requires k < 8 && i < 8 && i != k
    ensures BitOf(x | Mask(k), i) == BitOf(x, i) && BitOf(x & !Mask(k), i) == BitOf(x, i)
  {
    MasksApart(k, i);
    hide Mask;
    MaskAlgebra(x, Mask(k), Mask(i));
  }

  /** Setting or clearing one bit leaves the others. */
  lemma BitSet(x: bv8, k: nat, i: nat)
    requires k < 8 && i < 8
    ensures BitOf(x | Mask(k), i) <==> i == k || BitOf(x, i)
    ensures BitOf(x & !Mask(k), i) <==> i != k && BitOf(x, i)
  {
    hide Mask, BitOf;
    if i == k {
      BitSelf(x, k);
    } else {
      BitOther(x, k, i);
    }
  }

  predicate Bit(bm: seq<bv8>, b: nat)
    requires b / 8 < |bm|
  {
    BitOf(bm[b / 8], b % 8)
  }

  // ----- Slots: the places that name blocks -----

  /** sb.size blocks, of which the first nmeta (boot, super, log, inodes, bitmap) are never files'. */
  datatype Geometry = Geometry(size: nat, nmeta: nat)

  ghost predicate Shape(g: Geometry, bm: seq<bv8>, disk: seq<Block>, inodes: seq<Inode>) {
    && 1 <= g.nmeta <= g.size < LIMIT && |disk| == g.size && g.size <= 8 * |bm|
    && forall n :: 0 <= n < |inodes| ==> |inodes[n].addrs| == NDIRECT + 1
  }

  /** Direct(n, 12) is inode n's indirect pointer; Indirect(n, j) is entry j of that block. */
  datatype Slot = Direct(inum: nat, i: nat) | Indirect(inum: nat, j: nat)

  predicate ValidSlot(s: Slot, ninodes: nat) {
    s.inum < ninodes && match s case Direct(_, i) => i <= NDIRECT case Indirect(_, j) => j < NINDIRECT
  }

  predicate DataSlot(s: Slot) {
    s.Indirect? || s.i < NDIRECT
  }

  /** The slot of a file's block bn. */
  function SlotOf(n: nat, bn: nat): (s: Slot)
    ensures DataSlot(s) && s.inum == n
  {
    if bn < NDIRECT then Direct(n, bn) else Indirect(n, bn - NDIRECT)
  }

  /** The block number a slot holds; 0 for none. */
  function Addr(disk: seq<Block>, inodes: seq<Inode>, s: Slot): (r: nat)
    requires ValidSlot(s, |inodes|) && |inodes[s.inum].addrs| == NDIRECT + 1
  {
    match s
    case Direct(n, i) => inodes[n].addrs[i]
    case Indirect(n, j) =>
      var p := inodes[n].addrs[NDIRECT];
      if p == 0 || p >= |disk| then 0 else Word(disk[p], j)
  }

  ghost predicate Sized(inodes: seq<Inode>) {
    forall n :: 0 <= n < |inodes| ==> |inodes[n].addrs| == NDIRECT + 1
  }

  /** `owner` inverts the slots outside `gone`: no two slots name one block. */
  ghost predicate Owned(g: Geometry, disk: seq<Block>, inodes: seq<Inode>, owner: map<nat, Slot>, gone: set<Slot>)
    requires Sized(inodes)
  {
    && (forall s {:trigger Addr(disk, inodes, s)} :: ValidSlot(s, |inodes|) && s !in gone && Addr(disk, inodes, s) != 0 ==>
          Addr(disk, inodes, s) in owner && owner[Addr(disk, inodes, s)] == s)
    && (forall b :: b in owner ==>
          && g.nmeta <= b < g.size && ValidSlot(owner[b], |inodes|) && owner[b] !in gone
          && Addr(disk, inodes, owner[b]) == b)
  }

  /** A data block's bit is set exactly when a slot names it; `loose` are blocks balloc handed out
      and no slot names yet; metadata bits stay set. */
  ghost predicate BitsMatch(g: Geometry, bm: seq<bv8>, owner: map<nat, Slot>, loose: set<nat>) {
    && g.size <= 8 * |bm|
    && (forall b: nat {:trigger Bit(bm, b)} :: b < g.size ==> (Bit(bm, b) <==> b < g.nmeta || b in owner || b in loose))
    && (forall b :: b in loose ==> g.nmeta <= b < g.size && b !in owner)
  }

  /** Every slot that named a block still names it, and data blocks are as before. */
  ghost predicate Keeps(d0: seq<Block>, i0: seq<Inode>, d1: seq<Block>, i1: seq<Inode>)
    requires Sized(i0) && Sized(i1)
  {
    && |i0| == |i1| && |d0| == |d1|
    && forall s {:trigger Addr(d1, i1, s)} :: ValidSlot(s, |i0|) && Addr(d0, i0, s) != 0 ==>
         && Addr(d1, i1, s) == Addr(d0, i0, s)
         && (DataSlot(s) && Addr(d0, i0, s) < |d0| ==> d1[Addr(d0, i0, s)] == d0[Addr(d0, i0, s)])
  }

  /** One slot changed its block; the others did not. */
  ghost predicate OnlySlot(d0: seq<Block>, i0: seq<Inode>, d1: seq<Block>, i1: seq<Inode>, s: Slot, a: nat)
    requires Sized(i0) && Sized(i1) && |i0| == |i1|
  {
    ValidSlot(s, |i0|) &&
    forall t {:trigger Addr(d1, i1, t)} :: ValidSlot(t, |i0|) ==> Addr(d1, i1, t) == if t == s then a else Addr(d0, i0, t)
  }

  /** Giving a fresh block to an empty slot. */
  lemma OwnedAssign(g: Geometry, d0: seq<Block>, i0: seq<Inode>, d1: seq<Block>, i1: seq<Inode>,
                    owner: map<nat, Slot>, gone: set<Slot>, s: Slot, a: nat)
    requires Sized(i0) && Sized(i1) && |i0| == |i1| && Owned(g, d0, i0, owner, gone)
    requires OnlySlot(d0, i0, d1, i1, s, a) && Addr(d0, i0, s) == 0 && s !in gone
    requires a !in owner && 1 <= g.nmeta <= a < g.size
    ensures Owned(g, d1, i1, owner[a := s], gone)
  {
    forall b | b in owner ensures owner[b] != s {
      assert Addr(d0, i0, owner[b]) == b;
    }
  }

  /** Freeing the block a slot names: first the slot still shows it... */
  lemma OwnedRelease(g: Geometry, disk: seq<Block>, inodes: seq<Inode>, owner: map<nat, Slot>, gone: set<Slot>, s: Slot)
    requires Sized(inodes) && Owned(g, disk, inodes, owner, gone)
    requires ValidSlot(s, |inodes|) && s !in gone && Addr(disk, inodes, s) != 0
    ensures Addr(disk, inodes, s) in owner && owner[Addr(disk, inodes, s)] == s
    ensures Owned(g, disk, inodes, owner - {Addr(disk, inodes, s)}, gone + {s})
  {
  }

  /** ...then it is cleared. */
  lemma OwnedClear(g: Geometry, d0: seq<Block>, i0: seq<Inode>, d1: seq<Block>, i1: seq<Inode>,
                   owner: map<nat, Slot>, gone: set<Slot>, s: Slot)
    requires Sized(i0) && Sized(i1) && |i0| == |i1| && Owned(g, d0, i0, owner, gone) && s in gone
    requires OnlySlot(d0, i0, d1, i1, s, 0)
    ensures Owned(g, d1, i1, owner, gone - {s})
  {
  }

  /** Which blocks can be written without changing any slot. */
  lemma AddrsUnchanged(g: Geometry, d0: seq<Block>, inodes: seq<Inode>, owner: map<nat, Slot>, gone: set<Slot>, b: nat, x: Block)
    requires Sized(inodes) && Owned(g, d0, inodes, owner, gone) && b < |d0|
    requires b in owner ==> DataSlot(owner[b])
    requires forall n :: 0 <= n < |inodes| ==> Direct(n, NDIRECT) !in gone
    ensures forall s {:trigger Addr(d0[b := x], inodes, s)} :: ValidSlot(s, |inodes|) ==>
              Addr(d0[b := x], inodes, s) == Addr(d0, inodes, s)
    ensures Owned(g, d0[b := x], inodes, owner, gone)
  {
    forall s | ValidSlot(s, |inodes|) ensures Addr(d0[b := x], inodes, s) == Addr(d0, inodes, s) {
      if s.Indirect? {
        var p := Addr(d0, inodes, Direct(s.inum, NDIRECT));
        assert p != 0 ==> p in owner && owner[p] == Direct(s.inum, NDIRECT);
      }
    }
  }

  /** Inode n with another block in slot i. */
  function SetAddr(inodes: seq<Inode>, n: nat, i: nat, a: nat): (r: seq<Inode>)
    requires n < |inodes| && i < |inodes[n].addrs|
    ensures |r| == |inodes|
  {
    inodes[n := inodes[n].(addrs := inodes[n].addrs[i := a])]
  }

  lemma SetDirect(disk: seq<Block>, inodes: seq<Inode>, n: nat, i: nat, a: nat)
    requires Sized(inodes) && n < |inodes| && i < NDIRECT
    ensures Sized(SetAddr(inodes, n, i, a)) && OnlySlot(disk, inodes, disk, SetAddr(inodes, n, i, a), Direct(n, i), a)
  {
  }

  /** A zeroed indirect block, or none, adds no entries. */
  lemma SetIndirectPointer(disk: seq<Block>, inodes: seq<Inode>, n: nat, a: nat)
    requires Sized(inodes) && n < |inodes|
    requires forall j :: 0 <= j < NINDIRECT ==> Addr(disk, inodes, Indirect(n, j)) == 0
    requires a != 0 && a < |disk| ==> disk[a] == ZERO
    ensures Sized(SetAddr(inodes, n, NDIRECT, a))
    ensures OnlySlot(disk, inodes, disk, SetAddr(inodes, n, NDIRECT, a), Direct(n, NDIRECT), a)
  {
  }

  lemma SetEntry(g: Geometry, disk: seq<Block>, inodes: seq<Inode>, owner: map<nat, Slot>, gone: set<Slot>, n: nat, j: nat, a: nat)
    requires Sized(inodes) && n < |inodes| && j < NINDIRECT && a < LIMIT && |disk| == g.size
    requires Owned(g, disk, inodes, owner, gone) && forall m :: 0 <= m < |inodes| ==> Direct(m, NDIRECT) !in gone
    requires inodes[n].addrs[NDIRECT] != 0
    ensures var p := inodes[n].addrs[NDIRECT];
            p < |disk| && OnlySlot(disk, inodes, disk[p := SetWord(disk[p], j, a)], inodes, Indirect(n, j), a)
  {
    var p := inodes[n].addrs[NDIRECT];
    assert Addr(disk, inodes, Direct(n, NDIRECT)) == p && owner[p] == Direct(n, NDIRECT);
    var d := disk[p := SetWord(disk[p], j, a)];
    forall t | ValidSlot(t, |inodes|)
      ensures Addr(d, inodes, t) == if t == Indirect(n, j) then a else Addr(disk, inodes, t)
    {
      if t.Indirect? {
        var q := Addr(disk, inodes, Direct(t.inum, NDIRECT));
        assert q == p ==> t.inum == n;
        SetWordGet(disk[p], j, a, t.j);
      }
    }
  }

  lemma KeepsTrans(d0: seq<Block>, i0: seq<Inode>, d1: seq<Block>, i1: seq<Inode>, d2: seq<Block>, i2: seq<Inode>)
    requires Sized(i0) && Sized(i1) && Sized(i2) && Keeps(d0, i0, d1, i1) && Keeps(d1, i1, d2, i2)
    ensures Keeps(d0, i0, d2, i2)
  {
    forall s | ValidSlot(s, |i0|) && Addr(d0, i0, s) != 0
      ensures Addr(d2, i2, s) == Addr(d0, i0, s)
      ensures DataSlot(s) && Addr(d0, i0, s) < |d0| ==> d2[Addr(d0, i0, s)] == d0[Addr(d0, i0, s)]
    {
      assert Addr(d1, i1, s) == Addr(d0, i0, s);
    }
  }

  /** Writing one block that no data slot names. */
  lemma KeepsWrite(g: Geometry, d0: seq<Block>, i0: seq<Inode>, owner: map<nat, Slot>, i1: seq<Inode>, b: nat, x: Block, s: Slot, a: nat)
    requires Sized(i0) && Sized(i1) && |i0| == |i1| && Owned(g, d0, i0, owner, {}) && b < |d0|
    requires b in owner ==> !DataSlot(owner[b])
    requires OnlySlot(d0, i0, d0[b := x], i1, s, a) && Addr(d0, i0, s) == 0
    ensures Keeps(d0, i0, d0[b := x], i1)
  {
    forall t | ValidSlot(t, |i0|) && Addr(d0, i0, t) != 0
      ensures Addr(d0[b := x], i1, t) == Addr(d0, i0, t)
      ensures DataSlot(t) ==> Addr(d0, i0, t) != b
    {
    }
  }

  /** ...and the slots of inodes other than n, empty ones too, are as before. */
  ghost predicate KeepsIn(d0: seq<Block>, i0: seq<Inode>, d1: seq<Block>, i1: seq<Inode>, n: nat)
    requires Sized(i0) && Sized(i1)
  {
    && Keeps(d0, i0, d1, i1)
    && forall s {:trigger Addr(d1, i1, s)} :: ValidSlot(s, |i0|) && s.inum != n ==> Addr(d1, i1, s) == Addr(d0, i0, s)
  }

  lemma KeepsInSame(d0: seq<Block>, i0: seq<Inode>, n: nat)
    requires Sized(i0)
    ensures KeepsIn(d0, i0, d0, i0, n)
  {
  }

  lemma KeepsInTrans(d0: seq<Block>, i0: seq<Inode>, d1: seq<Block>, i1: seq<Inode>, d2: seq<Block>, i2: seq<Inode>, n: nat)
    requires Sized(i0) && Sized(i1) && Sized(i2) && KeepsIn(d0, i0, d1, i1, n) && KeepsIn(d1, i1, d2, i2, n)
    ensures KeepsIn(d0, i0, d2, i2, n)
  {
    hide Addr;
    KeepsTrans(d0, i0, d1, i1, d2, i2);
    forall s | ValidSlot(s, |i0|) && s.inum != n ensures Addr(d2, i2, s) == Addr(d0, i0, s) {
      assert Addr(d1, i1, s) == Addr(d0, i0, s);
    }
  }

  lemma KeepsOnly(d0: seq<Block>, i0: seq<Inode>, d1: seq<Block>, i1: seq<Inode>, s: Slot, a: nat)
    requires Sized(i0) && Sized(i1) && |i0| == |i1| && Keeps(d0, i0, d1, i1) && OnlySlot(d0, i0, d1, i1, s, a)
    ensures KeepsIn(d0, i0, d1, i1, s.inum)
  {
    hide Addr;
  }

  lemma KeepsSame(d0: seq<Block>, i0: seq<Inode>)
    requires Sized(i0)
    ensures Keeps(d0, i0, d0, i0)
  {
  }

  /** A fresh zeroed block put in an inode's own slot. */
  lemma AssignInInode(g: Geometry, d0: seq<Block>, i0: seq<Inode>, owner: map<nat, Slot>, n: nat, i: nat, a: nat)
    requires Sized(i0) && Owned(g, d0, i0, owner, {}) && |d0| == g.size && n < |i0| && i <= NDIRECT
    requires i0[n].addrs[i] == 0 && 1 <= g.nmeta <= a < g.size && a !in owner
    ensures var d1, i1 := d0[a := ZERO], SetAddr(i0, n, i, a);
            && Sized(i1) && OnlySlot(d0, i0, d1, i1, Direct(n, i), a)
            && Owned(g, d1, i1, owner[a := Direct(n, i)], {}) && Keeps(d0, i0, d1, i1)
  {
    var d1, i1 := d0[a := ZERO], SetAddr(i0, n, i, a);
    AddrsUnchanged(g, d0, i0, owner, {}, a, ZERO);
    if i < NDIRECT {
      SetDirect(d1, i0, n, i, a);
    } else {
      forall j | 0 <= j < NINDIRECT ensures Addr(d1, i0, Indirect(n, j)) == 0 {
        assert Addr(d1, i0, Indirect(n, j)) == Addr(d0, i0, Indirect(n, j));
      }
      SetIndirectPointer(d1, i0, n, a);
    }
    OwnedAssign(g, d1, i0, d1, i1, owner, {}, Direct(n, i), a);
    KeepsWrite(g, d0, i0, owner, i1, a, ZERO, Direct(n, i), a);
  }

  lemma BitsAssign(g: Geometry, bm: seq<bv8>, owner: map<nat, Slot>, a: nat, s: Slot)
    requires BitsMatch(g, bm, owner, {a})
    ensures BitsMatch(g, bm, owner[a := s], {})
  {
  }

  /** A fresh zeroed block put in an indirect block. */
  lemma AssignEntry(g: Geometry, d0: seq<Block>, i0: seq<Inode>, owner: map<nat, Slot>, n: nat, j: nat, a: nat)
    requires Sized(i0) && Owned(g, d0, i0, owner, {}) && |d0| == g.size < LIMIT && n < |i0| && j < NINDIRECT
    requires i0[n].addrs[NDIRECT] != 0 && Addr(d0, i0, Indirect(n, j)) == 0
    requires 1 <= g.nmeta <= a < g.size && a !in owner
    ensures var p := i0[n].addrs[NDIRECT];
            && p < |d0| && p != a
            && var d1: seq<Block> := d0[a := ZERO]; var d2: seq<Block> := d1[p := SetWord(d1[p], j, a)];
            && OnlySlot(d0, i0, d2, i0, Indirect(n, j), a)
            && Owned(g, d2, i0, owner[a := Indirect(n, j)], {}) && Keeps(d0, i0, d2, i0)
            && d2[a] == ZERO
  {
    var p := i0[n].addrs[NDIRECT];
    assert Addr(d0, i0, Direct(n, NDIRECT)) == p && owner[p] == Direct(n, NDIRECT);
    var d1 := d0[a := ZERO];
    var d2 := d1[p := SetWord(d1[p], j, a)];
    AddrsUnchanged(g, d0, i0, owner, {}, a, ZERO);
    SetEntry(g, d1, i0, owner, {}, n, j, a);
    OwnedAssign(g, d1, i0, d2, i0, owner, {}, Indirect(n, j), a);
    KeepsFresh(g, d0, i0, owner, a);
    KeepsWrite(g, d1, i0, owner, i0, p, SetWord(d1[p], j, a), Indirect(n, j), a);
    KeepsTrans(d0, i0, d1, i0, d2, i0);
  }

  lemma KeepsFresh(g: Geometry, d0: seq<Block>, i0: seq<Inode>, owner: map<nat, Slot>, a: nat)
    requires Sized(i0) && Owned(g, d0, i0, owner, {}) && a < |d0| && a !in owner
    ensures Keeps(d0, i0, d0[a := ZERO], i0)
  {
    AddrsUnchanged(g, d0, i0, owner, {}, a, ZERO);
  }

  lemma PointerOwned(g: Geometry, disk: seq<Block>, inodes: seq<Inode>, owner: map<nat, Slot>, n: nat)
    requires Sized(inodes) && Owned(g, disk, inodes, owner, {}) && n < |inodes| && |disk| == g.size
    requires inodes[n].addrs[NDIRECT] != 0
    ensures var p := inodes[n].addrs[NDIRECT]; p in owner && owner[p] == Direct(n, NDIRECT) && g.nmeta <= p < |disk|
  {
    assert Addr(disk, inodes, Direct(n, NDIRECT)) == inodes[n].addrs[NDIRECT];
  }

  lemma OnlySlotAt(d0: seq<Block>, i0: seq<Inode>, d1: seq<Block>, i1: seq<Inode>, s: Slot, a: nat)
    requires Sized(i0) && Sized(i1) && |i0| == |i1| && OnlySlot(d0, i0, d1, i1, s, a)
    ensures ValidSlot(s, |i0|) && Addr(d1, i1, s) == a
  {
  }

  // ----- File contents -----

  /** Byte k of file n. */
  ghost function ByteAt(disk: seq<Block>, inodes: seq<Inode>, n: nat, k: nat): byte
    requires Sized(inodes) && n < |inodes|
  {
    if k / BSIZE >= MAXFILE then 0
    else
      var a := Addr(disk, inodes, SlotOf(n, k / BSIZE));
      if a == 0 || a >= |disk| then 0 else disk[a][k % BSIZE]
  }

  /** Blocks that giving file n its block bn takes. */
  ghost function SlotCost(disk: seq<Block>, inodes: seq<Inode>, n: nat, bn: nat): (r: nat)
    requires Sized(inodes) && n < |inodes| && bn < MAXFILE
  {
    (if Addr(disk, inodes, SlotOf(n, bn)) == 0 then 1 else 0) +
    if bn >= NDIRECT && inodes[n].addrs[NDIRECT] == 0 then 1 else 0
  }

  /** Every bit is set exactly when all data blocks have owners. */
  lemma FullCount(g: Geometry, bm: seq<bv8>, owner: map<nat, Slot>)
    requires BitsMatch(g, bm, owner, {}) && g.nmeta <= g.size && forall b :: b in owner ==> g.nmeta <= b < g.size
    ensures |owner| <= g.size - g.nmeta
    ensures |owner| == g.size - g.nmeta <==> forall b: nat :: b < g.size ==> Bit(bm, b)
  {
    hide Bit;
    var all := Consecutive(g.nmeta, g.size - g.nmeta);
    assert owner.Keys <= all && |owner.Keys| == |owner|;
    SubsetSize(owner.Keys, all);
    if |owner| == g.size - g.nmeta {
      forall b: nat | b < g.size ensures Bit(bm, b) {
        if b !in owner && b >= g.nmeta {
          SubsetSize(owner.Keys, all - {b});
          assert false;
        }
      }
    } else if forall b: nat :: b < g.size ==> Bit(bm, b) {
      forall b: nat | b in all ensures b in owner.Keys {
        assert b < g.size && Bit(bm, b);
      }
      SubsetSize(all, owner.Keys);
      assert false;
    }
  }

  ghost function Consecutive(lo: nat, n: nat): (r: set<nat>)
    ensures |r| == n && forall x: nat :: x in r <==> lo <= x < lo + n
  {
    if n == 0 then {} else Consecutive(lo, n - 1) + {lo + n - 1}
  }

  lemma SubsetSize(a: set<nat>, b: set<nat>)
    requires a <= b
    ensures |a| <= |b|
  {
    assert b == a + (b - a);
  }

  /** Blocks are allocated for the first len bytes of file n. */
  ghost predicate FileFull(disk: seq<Block>, inodes: seq<Inode>, n: nat, len: nat)
    requires Sized(inodes) && n < |inodes|
  {
    len <= MAXFILE * BSIZE &&
    forall bn: nat {:trigger SlotOf(n, bn)} :: bn * BSIZE < len ==> Addr(disk, inodes, SlotOf(n, bn)) != 0
  }

  /** Every byte of every file is as before. */
  ghost predicate SameBytes(d0: seq<Block>, i0: seq<Inode>, d1: seq<Block>, i1: seq<Inode>)
    requires Sized(i0) && Sized(i1)
  {
    |i0| == |i1| && forall n, k: nat :: 0 <= n < |i0| ==> ByteAt(d1, i1, n, k) == ByteAt(d0, i0, n, k)
  }

  lemma SameBytesSame(d0: seq<Block>, i0: seq<Inode>)
    requires Sized(i0)
    ensures SameBytes(d0, i0, d0, i0)
  {
  }

  lemma SameBytesTrans(d0: seq<Block>, i0: seq<Inode>, d1: seq<Block>, i1: seq<Inode>, d2: seq<Block>, i2: seq<Inode>)
    requires Sized(i0) && Sized(i1) && Sized(i2) && SameBytes(d0, i0, d1, i1) && SameBytes(d1, i1, d2, i2)
    ensures SameBytes(d0, i0, d2, i2)
  {
    hide ByteAt;
    forall n, k: nat | 0 <= n < |i0| ensures ByteAt(d2, i2, n, k) == ByteAt(d0, i0, n, k) {
      assert ByteAt(d1, i1, n, k) == ByteAt(d0, i0, n, k);
    }
  }

  /** A zeroed block in an empty slot changes no byte of any file: what it fills read as zero. */
  lemma SameBytesAt(d0: seq<Block>, i0: seq<Inode>, d1: seq<Block>, i1: seq<Inode>, s: Slot, a: nat)
    requires Sized(i0) && Sized(i1) && Keeps(d0, i0, d1, i1)
    requires !(d0 == d1 && i0 == i1) ==>
               OnlySlot(d0, i0, d1, i1, s, a) && Addr(d0, i0, s) == 0 && (a != 0 && a < |d1| ==> d1[a] == ZERO)
    ensures SameBytes(d0, i0, d1, i1)
  {
    hide Word;
    forall n, k: nat | 0 <= n < |i0| ensures ByteAt(d1, i1, n, k) == ByteAt(d0, i0, n, k) {
      if k / BSIZE < MAXFILE {
        var t := SlotOf(n, k / BSIZE);
        assert t != s && Addr(d0, i0, t) == 0 ==> Addr(d1, i1, t) == 0;
      }
    }
  }

  /** Blocks are allocated for the len bytes from off of file n. */
  ghost predicate NoHole(disk: seq<Block>, inodes: seq<Inode>, n: nat, off: nat, len: nat)
    requires Sized(inodes) && n < |inodes| && (len > 0 ==> off + len <= MAXFILE * BSIZE)
  {
    len > 0 ==>
      forall bn: nat {:trigger SlotOf(n, bn)} :: off / BSIZE <= bn && bn * BSIZE < off + len ==> Addr(disk, inodes, SlotOf(n, bn)) != 0
  }

  lemma NoHoleNone(disk: seq<Block>, inodes: seq<Inode>, n: nat, off: nat)
    requires Sized(inodes) && n < |inodes|
    ensures NoHole(disk, inodes, n, off, 0)
  {
  }

  /** The next m bytes lie in one block. */
  lemma NextHole(disk: seq<Block>, inodes: seq<Inode>, n: nat, off: nat, tot: nat, m: nat, len: nat)
    requires Sized(inodes) && n < |inodes| && tot + m <= len && off + len <= MAXFILE * BSIZE
    requires 0 < m <= BSIZE - (off + tot) % BSIZE && (tot > 0 ==> (off + tot) % BSIZE == 0)
    ensures (off + tot) / BSIZE < MAXFILE
    ensures Addr(disk, inodes, SlotOf(n, (off + tot) / BSIZE)) == 0 ==> !NoHole(disk, inodes, n, off, len)
    ensures NoHole(disk, inodes, n, off, tot) && Addr(disk, inodes, SlotOf(n, (off + tot) / BSIZE)) != 0 ==>
              NoHole(disk, inodes, n, off, tot + m)
  {
    var b := (off + tot) / BSIZE;
    if Addr(disk, inodes, SlotOf(n, b)) != 0 && NoHole(disk, inodes, n, off, tot) {
      forall bn: nat | off / BSIZE <= bn && bn * BSIZE < off + tot + m ensures Addr(disk, inodes, SlotOf(n, bn)) != 0 {
        assert bn <= b;
        if bn < b {
          assert tot > 0 && bn * BSIZE < off + tot;
        }
      }
    }
  }

  lemma FullNoHole(disk: seq<Block>, inodes: seq<Inode>, n: nat, size: nat, off: nat, len: nat)
    requires Sized(inodes) && n < |inodes| && FileFull(disk, inodes, n, size) && (len > 0 ==> off + len <= size)
    ensures NoHole(disk, inodes, n, off, len)
  {
  }

  /** Byte off + i, in the same block as byte off. */
  lemma ByteInBlock(disk: seq<Block>, inodes: seq<Inode>, n: nat, off: nat, i: nat)
    requires Sized(inodes) && n < |inodes| && off / BSIZE < MAXFILE && off % BSIZE + i < BSIZE
    requires 0 < Addr(disk, inodes, SlotOf(n, off / BSIZE)) < |disk|
    ensures ByteAt(disk, inodes, n, off + i) == disk[Addr(disk, inodes, SlotOf(n, off / BSIZE))][off % BSIZE + i]
  {
    assert (off + i) / BSIZE == off / BSIZE && (off + i) % BSIZE == off % BSIZE + i;
  }

  lemma SameByte(d0: seq<Block>, i0: seq<Inode>, d1: seq<Block>, i1: seq<Inode>, n: nat)
    requires Sized(i0) && Sized(i1) && SameBytes(d0, i0, d1, i1) && n < |i0|
    ensures forall k: nat :: ByteAt(d1, i1, n, k) == ByteAt(d0, i0, n, k)
  {
  }


  /** Slots of other files are as before, with the same data; inode n's slots that named a block still
      do. */
  ghost predicate KeepsOthers(d0: seq<Block>, i0: seq<Inode>, d1: seq<Block>, i1: seq<Inode>, n: nat)
    requires Sized(i0) && Sized(i1)
  {
    && |i0| == |i1| && |d0| == |d1|
    && forall s {:trigger Addr(d1, i1, s)} :: ValidSlot(s, |i0|) && (s.inum != n || Addr(d0, i0, s) != 0) ==>
         && Addr(d1, i1, s) == Addr(d0, i0, s)
         && (DataSlot(s) && s.inum != n && 0 < Addr(d0, i0, s) < |d0| ==> d1[Addr(d0, i0, s)] == d0[Addr(d0, i0, s)])
  }

  /** o bytes kept, then piece, then the rest. */
  function Patch(b: Block, o: nat, piece: seq<byte>): (r: Block)
    requires o + |piece| <= 512
  {
    b[..o] + piece + b[o + |piece|..]
  }

  /** Patching the block of one slot: no slot moves, and only that slot's data changes. */
  lemma PatchKeeps(g: Geometry, d0: seq<Block>, inodes: seq<Inode>, owner: map<nat, Slot>, s: Slot, x: Block)
    requires Sized(inodes) && Owned(g, d0, inodes, owner, {}) && |d0| == g.size
    requires ValidSlot(s, |inodes|) && DataSlot(s) && Addr(d0, inodes, s) != 0
    ensures var a := Addr(d0, inodes, s); a < |d0| && Owned(g, d0[a := x], inodes, owner, {})
    ensures var a := Addr(d0, inodes, s);
            forall t {:trigger Addr(d0[a := x], inodes, t)} :: ValidSlot(t, |inodes|) ==>
              && Addr(d0[a := x], inodes, t) == Addr(d0, inodes, t)
              && (t != s && Addr(d0, inodes, t) != 0 ==> Addr(d0, inodes, t) != a)
  {
    var a := Addr(d0, inodes, s);
    AddrsUnchanged(g, d0, inodes, owner, {}, a, x);
  }

  lemma PatchKeepsOthers(g: Geometry, d0: seq<Block>, inodes: seq<Inode>, owner: map<nat, Slot>, s: Slot, x: Block)
    requires Sized(inodes) && Owned(g, d0, inodes, owner, {}) && |d0| == g.size
    requires ValidSlot(s, |inodes|) && DataSlot(s) && Addr(d0, inodes, s) != 0
    ensures var a := Addr(d0, inodes, s); a < |d0| && KeepsOthers(d0, inodes, d0[a := x], inodes, s.inum)
  {
    var a := Addr(d0, inodes, s);
    PatchKeeps(g, d0, inodes, owner, s, x);
    forall t | ValidSlot(t, |inodes|)
      ensures Addr(d0[a := x], inodes, t) == Addr(d0, inodes, t)
      ensures DataSlot(t) && t.inum != s.inum && 0 < Addr(d0, inodes, t) < |d0| ==>
                d0[a := x][Addr(d0, inodes, t)] == d0[Addr(d0, inodes, t)]
    {
    }
  }

  /** ...and in that file, only the patched bytes. */
  lemma PatchBytes(g: Geometry, d0: seq<Block>, inodes: seq<Inode>, owner: map<nat, Slot>, n: nat, bn: nat, o: nat,
                   piece: seq<byte>, k: nat)
    requires Sized(inodes) && Owned(g, d0, inodes, owner, {}) && |d0| == g.size && n < |inodes|
    requires bn < MAXFILE && Addr(d0, inodes, SlotOf(n, bn)) != 0 && o + |piece| <= 512
    ensures var a := Addr(d0, inodes, SlotOf(n, bn));
            a < |d0| &&
            ByteAt(d0[a := Patch(d0[a], o, piece)], inodes, n, k) ==
              if k / BSIZE == bn && o <= k % BSIZE < o + |piece| then piece[k % BSIZE - o] else ByteAt(d0, inodes, n, k)
  {
    var s := SlotOf(n, bn);
    var a := Addr(d0, inodes, s);
    PatchKeeps(g, d0, inodes, owner, s, Patch(d0[a := d0[a]][a], o, piece));
    if k / BSIZE < MAXFILE {
      var t := SlotOf(n, k / BSIZE);
      assert Addr(d0[a := Patch(d0[a], o, piece)], inodes, t) == Addr(d0, inodes, t);
      assert t == s <==> k / BSIZE == bn;
    }
  }

  /** ...and no byte of another file. */
  lemma PatchOther(g: Geometry, d0: seq<Block>, inodes: seq<Inode>, owner: map<nat, Slot>, s: Slot, x: Block, m: nat, k: nat)
    requires Sized(inodes) && Owned(g, d0, inodes, owner, {}) && |d0| == g.size && m < |inodes| && s.inum != m
    requires ValidSlot(s, |inodes|) && DataSlot(s) && Addr(d0, inodes, s) != 0
    ensures var a := Addr(d0, inodes, s); a < |d0| && ByteAt(d0[a := x], inodes, m, k) == ByteAt(d0, inodes, m, k)
  {
    PatchKeeps(g, d0, inodes, owner, s, x);
    if k / BSIZE < MAXFILE {
      var t := SlotOf(m, k / BSIZE);
      assert Addr(d0[Addr(d0, inodes, s) := x], inodes, t) == Addr(d0, inodes, t);
    }
  }

  /** Of all the bytes of all files, those of file n from off on became piece. */
  ghost predicate Spliced(d0: seq<Block>, i0: seq<Inode>, d1: seq<Block>, i1: seq<Inode>, n: nat, off: nat, piece: seq<byte>)
    requires Sized(i0) && Sized(i1)
  {
    |i0| == |i1| && forall m, k: nat :: 0 <= m < |i0| ==>
      ByteAt(d1, i1, m, k) == if m == n && off <= k < off + |piece| then piece[k - off] else ByteAt(d0, i0, m, k)
  }

  /** The next m bytes of src follow the first tot. */
  lemma SplicedMore(d0: seq<Block>, i0: seq<Inode>, d1: seq<Block>, i1: seq<Inode>, d2: seq<Block>, i2: seq<Inode>, n: nat,
                    off: nat, src: seq<byte>, tot: nat, m: nat)
    requires Sized(i0) && Sized(i1) && Sized(i2) && tot + m <= |src|
    requires Spliced(d0, i0, d1, i1, n, off, src[..tot]) && Spliced(d1, i1, d2, i2, n, off + tot, src[tot..tot + m])
    ensures Spliced(d0, i0, d2, i2, n, off, src[..tot + m])
  {
    hide ByteAt;
    forall f, k: nat | 0 <= f < |i0|
      ensures ByteAt(d2, i2, f, k) == if f == n && off <= k < off + (tot + m) then src[k - off] else ByteAt(d0, i0, f, k)
    {
      assert ByteAt(d2, i2, f, k) ==
        if f == n && off + tot <= k < off + tot + m then src[tot..tot + m][k - (off + tot)] else ByteAt(d1, i1, f, k);
    }
  }

  lemma SplicedSame(d0: seq<Block>, i0: seq<Inode>, d1: seq<Block>, i1: seq<Inode>, n: nat, off: nat)
    requires Sized(i0) && Sized(i1) && SameBytes(d0, i0, d1, i1)
    ensures Spliced(d0, i0, d1, i1, n, off, [])
  {
    hide ByteAt;
  }

  lemma SplicedNone(d0: seq<Block>, i0: seq<Inode>, n: nat, off: nat)
    requires Sized(i0)
    ensures Spliced(d0, i0, d0, i0, n, off, [])
  {
  }

  lemma KeepsFull(d0: seq<Block>, i0: seq<Inode>, d1: seq<Block>, i1: seq<Inode>, n: nat, len: nat)
    requires Sized(i0) && Sized(i1) && |i0| == |i1| && n < |i0|
    requires exists m :: KeepsIn(d0, i0, d1, i1, m) || KeepsOthers(d0, i0, d1, i1, m)
    ensures FileFull(d0, i0, n, len) ==> FileFull(d1, i1, n, len)
  {
    if FileFull(d0, i0, n, len) {
      forall bn: nat | bn * BSIZE < len ensures Addr(d1, i1, SlotOf(n, bn)) != 0 {
        assert Addr(d0, i0, SlotOf(n, bn)) != 0;
      }
    }
  }

  lemma KeepsOthersTrans(d0: seq<Block>, i0: seq<Inode>, d1: seq<Block>, i1: seq<Inode>, d2: seq<Block>, i2: seq<Inode>, n: nat)
    requires Sized(i0) && Sized(i1) && Sized(i2) && KeepsOthers(d0, i0, d1, i1, n)
    requires KeepsIn(d1, i1, d2, i2, n) || KeepsOthers(d1, i1, d2, i2, n)
    ensures KeepsOthers(d0, i0, d2, i2, n)
  {
    forall s | ValidSlot(s, |i0|) && (s.inum != n || Addr(d0, i0, s) != 0)
      ensures Addr(d2, i2, s) == Addr(d0, i0, s)
      ensures DataSlot(s) && s.inum != n && 0 < Addr(d0, i0, s) < |d0| ==> d2[Addr(d0, i0, s)] == d0[Addr(d0, i0, s)]
    {
      assert Addr(d1, i1, s) == Addr(d0, i0, s);
    }
  }

  lemma NoHoleKeeps(d0: seq<Block>, i0: seq<Inode>, d1: seq<Block>, i1: seq<Inode>, n: nat, off: nat, len: nat)
    requires Sized(i0) && Sized(i1) && n < |i0| && (len > 0 ==> off + len <= MAXFILE * BSIZE)
    requires NoHole(d0, i0, n, off, len) && KeepsOthers(d0, i0, d1, i1, n)
    ensures NoHole(d1, i1, n, off, len)
  {
    if len > 0 {
      forall bn: nat | off / BSIZE <= bn && bn * BSIZE < off + len ensures Addr(d1, i1, SlotOf(n, bn)) != 0 {
        assert Addr(d0, i0, SlotOf(n, bn)) != 0;
      }
    }
  }

  lemma KeepsOthersSame(d0: seq<Block>, i0: seq<Inode>, n: nat)
    requires Sized(i0)
    ensures KeepsOthers(d0, i0, d0, i0, n)
  {
  }

  /** What writing src at off does: file n takes the bytes and grows to hold them, and nothing else of
      any file changes. */
  ghost predicate Wrote(d0: seq<Block>, i0: seq<Inode>, d1: seq<Block>, i1: seq<Inode>, n: nat, off: nat, src: seq<byte>) {
    && Sized(i0) && Sized(i1) && |i0| == |i1| && n < |i0| && KeepsOthers(d0, i0, d1, i1, n)
    && (forall m :: 0 <= m < |i1| && m != n ==> i1[m] == i0[m])
    && i1[n] == i0[n].(addrs := i1[n].addrs, size := i1[n].size)
    && i1[n].size == (if |src| > 0 && i0[n].size < off + |src| then off + |src| else i0[n].size) && (|src| > 0 ==> off <= i0[n].size)
    && Spliced(d0, i0, d1, i1, n, off, src)
  }

  lemma WroteNone(d: seq<Block>, i: seq<Inode>, n: nat, off: nat)
    requires Sized(i) && n < |i|
    ensures Wrote(d, i, d, i, n, off, [])
  {
    SplicedNone(d, i, n, off);
  }

  lemma WroteMore(d0: seq<Block>, i0: seq<Inode>, d1: seq<Block>, i1: seq<Inode>, d2: seq<Block>, i2: seq<Inode>, n: nat,
                  off: nat, src: seq<byte>, tot: nat, m: nat)
    requires tot + m <= |src| && Wrote(d0, i0, d1, i1, n, off, src[..tot]) && Wrote(d1, i1, d2, i2, n, off + tot, src[tot..tot + m])
    ensures Wrote(d0, i0, d2, i2, n, off, src[..tot + m])
  {
    hide KeepsOthers, Spliced;
    KeepsOthersTrans(d0, i0, d1, i1, d2, i2, n);
    assert src[tot..tot] == [];
    SplicedMore(d0, i0, d1, i1, d2, i2, n, off, src, tot, m);
  }

  lemma AddrInRange(g: Geometry, disk: seq<Block>, inodes: seq<Inode>, owner: map<nat, Slot>, s: Slot)
    requires Sized(inodes) && Owned(g, disk, inodes, owner, {}) && ValidSlot(s, |inodes|) && Addr(disk, inodes, s) != 0
    ensures g.nmeta <= Addr(disk, inodes, s) < g.size
  {
  }

  /** The blocks of file n from lo up to hi. */
  ghost function Touched(disk: seq<Block>, inodes: seq<Inode>, n: nat, lo: nat, hi: nat): set<nat>
    requires Sized(inodes) && n < |inodes|
  {
    if lo >= hi || hi > MAXFILE then {} else Touched(disk, inodes, n, lo, hi - 1) + {Addr(disk, inodes, SlotOf(n, hi - 1))}
  }

  /** The inode itself has the blocks its size needs: the direct ones, and the indirect block. */
  predicate Anchored(i: Inode) {
    && |i.addrs| == NDIRECT + 1 && (forall k :: 0 <= k < NDIRECT && k * BSIZE < i.size ==> i.addrs[k] != 0)
    && (i.size > NDIRECT * BSIZE ==> i.addrs[NDIRECT] != 0)
  }

  /** The first r bytes from off were written: what they need was added to the inode. */
  lemma AnchoredMore(d0: seq<Block>, i0: seq<Inode>, d1: seq<Block>, i1: seq<Inode>, n: nat, off: nat, r: nat)
    requires Sized(i0) && Sized(i1) && n < |i0| && KeepsOthers(d0, i0, d1, i1, n) && off <= i0[n].size
    requires off + r <= MAXFILE * BSIZE && NoHole(d1, i1, n, off, r)
    requires i1[n].size == if i0[n].size < off + r then off + r else i0[n].size
    ensures Anchored(i0[n]) ==> Anchored(i1[n])
  {
    if Anchored(i0[n]) {
      forall k | 0 <= k <= NDIRECT && i0[n].addrs[k] != 0 ensures i1[n].addrs[k] == i0[n].addrs[k] {
        assert Addr(d0, i0, Direct(n, k)) == i0[n].addrs[k] && Addr(d1, i1, Direct(n, k)) == i1[n].addrs[k];
      }
      forall k: nat | k < NDIRECT && k * BSIZE < i1[n].size && i0[n].addrs[k] == 0 ensures i1[n].addrs[k] != 0 {
        assert k * BSIZE >= i0[n].size && Addr(d1, i1, SlotOf(n, k)) != 0;
      }
      if i1[n].size > NDIRECT * BSIZE && i0[n].addrs[NDIRECT] == 0 {
        assert Addr(d1, i1, SlotOf(n, (off + r - 1) / BSIZE)) != 0;
      }
    }
  }

  // ----- What was logged -----

  /** The file system's part of the disk, as the inode blocks have it, and the blocks logged so far. */
  datatype Snap = Snap(bm: seq<bv8>, disk: seq<Block>, dinodes: seq<Inode>, logged: set<nat>)

  /** From s0 to s1 each block that changed was passed to log_write: data and indirect blocks, bitmap
      blocks, and inode blocks. */
  ghost predicate Logs(ib: nat, bb: nat, s0: Snap, s1: Snap) {
    && |s0.bm| == |s1.bm| && |s0.disk| == |s1.disk| && |s0.dinodes| == |s1.dinodes| && s0.logged <= s1.logged
    && (forall b :: 0 <= b < |s0.disk| && s1.disk[b] != s0.disk[b] ==> b in s1.logged)
    && (forall i :: 0 <= i < |s0.bm| && s1.bm[i] != s0.bm[i] ==> i / BSIZE + bb in s1.logged)
    && (forall m :: 0 <= m < |s0.dinodes| && s1.dinodes[m] != s0.dinodes[m] ==> m / 8 + ib in s1.logged)
  }

  lemma LogsTrans(ib: nat, bb: nat, s0: Snap, s1: Snap, s2: Snap)
    requires Logs(ib, bb, s0, s1) && Logs(ib, bb, s1, s2)
    ensures Logs(ib, bb, s0, s2)
  {
  }

  lemma LogsSame(ib: nat, bb: nat, s: Snap)
    ensures Logs(ib, bb, s, s)
  {
  }

  lemma LogsBit(ib: nat, bb: nat, s: Snap, b: nat, x: bv8)
    requires b / 8 < |s.bm|
    ensures Logs(ib, bb, s, s.(bm := s.bm[b / 8 := x], logged := s.logged + {b / BPB + bb}))
  {
    assert b / 8 / BSIZE == b / BPB;
  }

  lemma LogsBlock(ib: nat, bb: nat, s: Snap, b: nat, x: Block)
    requires b < |s.disk|
    ensures Logs(ib, bb, s, s.(disk := s.disk[b := x], logged := s.logged + {b}))
  {
  }

  lemma LogsInode(ib: nat, bb: nat, s: Snap, n: nat, x: Inode)
    requires n < |s.dinodes|
    ensures Logs(ib, bb, s, s.(dinodes := s.dinodes[n := x], logged := s.logged + {n / 8 + ib}))
  {
  }

  /** The kernel's invariant of what is on disk: the block partition, and every file allocated to its size. */
  ghost predicate Whole(g: Geometry, s: Snap) {
    && (exists owner: map<nat, Slot> :: Names(g, s, owner))
    && Sized(s.dinodes) && forall n :: 0 <= n < |s.dinodes| ==> FileFull(s.disk, s.dinodes, n, s.dinodes[n].size)
  }

  ghost predicate Names(g: Geometry, s: Snap, owner: map<nat, Slot>) {
    Shape(g, s.bm, s.disk, s.dinodes) && Owned(g, s.disk, s.dinodes, owner, {}) && BitsMatch(g, s.bm, owner, {})
  }

  /** A block an operation may log: of data, of the bitmap, of inodes. */
  predicate Loggable(g: Geometry, ib: nat, bb: nat, ninodes: nat, b: nat) {
    g.nmeta <= b < g.size || bb <= b <= bb + g.size / BPB || ib <= b < ib + (ninodes + 7) / 8
  }

  /** Room for one operation: the bitmap and ten more blocks. */
  function OpBound(g: Geometry): nat { g.size / BPB + 10 }

  /** One operation, all of whose changes were logged, between two such states. */
  ghost predicate Step(g: Geometry, ib: nat, bb: nat, s0: Snap, s1: Snap) {
    && Whole(g, s0) && Whole(g, s1) && Logs(ib, bb, s0.(logged := {}), s1)
    && |s1.logged| <= OpBound(g) && forall b :: b in s1.logged ==> Loggable(g, ib, bb, |s1.dinodes|, b)
  }

  // ----- Truncation -----

  /** Entries 0..j-1 of inode n's indirect block. */
  ghost function Entries(n: nat, j: nat): (r: set<Slot>)
    ensures forall s :: s in r <==> s.Indirect? && s.inum == n && s.j < j
  {
    if j == 0 then {} else Entries(n, j - 1) + {Indirect(n, j - 1)}
  }

  lemma OwnedGoneZero(g: Geometry, disk: seq<Block>, inodes: seq<Inode>, owner: map<nat, Slot>, gone: set<Slot>, s: Slot)
    requires Sized(inodes) && Owned(g, disk, inodes, owner, gone) && ValidSlot(s, |inodes|) && 1 <= g.nmeta
    requires Addr(disk, inodes, s) == 0
    ensures Owned(g, disk, inodes, owner, gone + {s})
  {
  }

  /** All the freed slots are cleared at once. */
  lemma OwnedClearAll(g: Geometry, d0: seq<Block>, i0: seq<Inode>, d1: seq<Block>, i1: seq<Inode>,
                      owner: map<nat, Slot>, gone: set<Slot>)
    requires Sized(i0) && Sized(i1) && |i0| == |i1| && Owned(g, d0, i0, owner, gone)
    requires forall s {:trigger Addr(d1, i1, s)} :: ValidSlot(s, |i0|) ==> Addr(d1, i1, s) == if s in gone then 0 else Addr(d0, i0, s)
    ensures Owned(g, d1, i1, owner, {})
  {
  }

  lemma BitsRelease(g: Geometry, bm: seq<bv8>, bm2: seq<bv8>, owner: map<nat, Slot>, b: nat)
    requires BitsMatch(g, bm, owner, {}) && b in owner && g.nmeta <= b < g.size && |bm2| == |bm|
    ensures Bit(bm, b)
    ensures (forall x: nat :: x < g.size ==> (Bit(bm2, x) <==> x != b && Bit(bm, x))) ==> BitsMatch(g, bm2, owner - {b}, {})
  {
  }

  /** `owner` lost only blocks of inode n. */
  ghost predicate LostOnly(o0: map<nat, Slot>, o1: map<nat, Slot>, n: nat) {
    && (forall b :: b in o1 ==> b in o0 && o1[b] == o0[b])
    && (forall b :: b in o0 && b !in o1 ==> o0[b].inum == n)
  }
}
