/** The system calls of xv6-riscv/kernel/sysfile.c and file.c on blocks and inodes: what each makes of
    the files, the log space it takes, and what every run of them from mkfs's image keeps. */
module FsOps {
  import opened FsModel
  import opened FsCode
  import opened FileStore
  import Mkfs
  import P = LogProtocol

  // ----- States -----

  /** The disk, the inodes in memory, and who owns which block. */
  datatype State = State(snap: Snap, core: seq<Inode>, owner: map<nat, Slot>)

  ghost function At(fs: FileSystem): State
    reads fs
  {
    State(fs.Now(), fs.core, fs.owner)
  }

  ghost function FilesIn(st: State): (r: seq<File>)
    ensures Sized(st.core) ==> |r| == |st.core|
  {
    Files(st.snap.disk, st.core)
  }

  ghost function Free(g: Geometry, st: State): int { g.size - g.nmeta - |st.owner| }

  /** The block partition, as the inodes in memory have it. */
  ghost predicate Parted(g: Geometry, st: State) {
    && Shape(g, st.snap.bm, st.snap.disk, st.core) && Owned(g, st.snap.disk, st.core, st.owner, {})
    && BitsMatch(g, st.snap.bm, st.owner, {})
  }

  /** Inodes on disk differ from those in memory at most in block numbers, and an inode that is not in
      use has neither size nor blocks. */
  ghost predicate Coherent(core: seq<Inode>, dinodes: seq<Inode>) {
    && |core| == |dinodes| <= 65536
    && forall m :: 0 <= m < |core| ==>
         && dinodes[m] == core[m].(addrs := dinodes[m].addrs) && core[m].nlink < 65536
         && (core[m].typ == 0 ==> core[m].size == 0 && core[m].addrs == NoBlocks())
  }

  /** What holds between system calls; `whole` says that moreover every file is allocated to its size
      and the disk has the inodes as memory does. */
  ghost predicate Sound(fs: FileSystem, whole: bool)
    reads fs
  {
    fs.Partitioned({}, {}) && Coherent(fs.core, fs.dinodes) && (whole ==> fs.Valid() && fs.Synced())
  }

  /** The inodes on disk name all that those in memory name, and each has the blocks its size needs but
      for those an indirect block would name. */
  ghost predicate TiedIn(core: seq<Inode>, dinodes: seq<Inode>) {
    core == dinodes && forall m :: 0 <= m < |core| ==> Anchored(core[m])
  }

  ghost predicate Tied(fs: FileSystem)
    reads fs
  {
    TiedIn(fs.core, fs.dinodes)
  }

  /** Blocks that entry k of directory n would take. */
  ghost function Need(st: State, n: nat, k: nat): nat {
    if Sized(st.core) && n < |st.core| && 16 * k / BSIZE < MAXFILE then SlotCost(st.snap.disk, st.core, n, 16 * k / BSIZE) else 0
  }

  /** Entry k of directory n can be written, with `spare` blocks left. */
  ghost predicate Room(g: Geometry, st: State, n: nat, k: nat, spare: nat) {
    && n < |FilesIn(st)| && 16 * k <= |FilesIn(st)[n].data| && 16 * k + 16 <= MAXFILE * BSIZE
    && spare + Need(st, n, k) <= Free(g, st)
  }

  ghost predicate SameNeeds(st0: State, st1: State, n: nat) {
    forall m: nat, k: nat {:trigger Need(st1, m, k)} :: m != n ==> Need(st1, m, k) == Need(st0, m, k)
  }

  // ----- Inside an operation -----

  /** An operation on inodes ip and dp: it began at s0, and beside the bitmap and the blocks of those
      inodes it has logged at most `extra`. */
  datatype Op = Op(s0: Snap, ip: nat, dp: nat, extra: set<nat>, whole: bool)

  ghost predicate Underway(fs: FileSystem, op: Op)
    reads fs
  {
    && Sound(fs, op.whole) && fs.KindsLogged() && (op.whole ==> Whole(fs.g, op.s0))
    && Logs(fs.inodestart, fs.bmapstart, op.s0.(logged := {}), fs.Now())
    && fs.logged <= fs.BitmapBlocks() + {fs.Iblock(op.ip), fs.Iblock(op.dp)} + op.extra
  }

  /** The operation that began at s0 is over: it logged every block it changed, fits one transaction,
      and is a step of the file system. */
  ghost predicate Ended(fs: FileSystem, s0: Snap, whole: bool)
    reads fs
  {
    && Sound(fs, whole) && Logs(fs.inodestart, fs.bmapstart, s0.(logged := {}), fs.Now())
    && |fs.logged| <= OpBound(fs.g) && (fs.g.size <= P.SHIPPED.total ==> |fs.logged| <= P.SHIPPED.maxOpBlocks - 2)
    && (whole ==> Step(fs.g, fs.inodestart, fs.bmapstart, s0, fs.Now()))
  }

  lemma SoundSized(fs: FileSystem, whole: bool)
    requires Sound(fs, whole)
    ensures Sized(fs.core) && |FilesIn(At(fs))| == |fs.core| == |fs.dinodes| <= 65536 && Parted(fs.g, At(fs))
  {
  }

  lemma Fields(fs: FileSystem, n: nat)
    requires Sized(fs.core) && n < |fs.core|
    ensures var f, i := FilesIn(At(fs))[n], fs.core[n]; f == File(i.typ, i.major, i.minor, i.nlink, f.data) && |f.data| == i.size
  {
  }

  method Begin(fs: FileSystem, ghost dp: nat, ghost whole: bool) returns (ghost op: Op)
    requires Sound(fs, whole)
    modifies fs`logged
    ensures old(Tied(fs)) ==> Tied(fs)
    ensures op == Op(old(fs.Now()), dp, dp, {}, whole) && Underway(fs, op) && fs.logged == {}
    ensures At(fs) == old(At(fs)).(snap := old(fs.Now()).(logged := {}))
    ensures FilesIn(At(fs)) == FilesIn(old(At(fs))) && Free(fs.g, At(fs)) == old(Free(fs.g, At(fs)))
    ensures forall m: nat, k: nat :: Need(At(fs), m, k) == Need(old(At(fs)), m, k)
  {
    hide Coherent, Whole, Logs, FileFull, Loggable;
    fs.BeginOp(0);
    op := Op(old(fs.Now()), dp, dp, {}, whole);
  }

  lemma Finish(fs: FileSystem, op: Op)
    requires Underway(fs, op) && |op.extra| <= 6
    ensures Ended(fs, op.s0, op.whole) && Sound(fs, op.whole)
  {
    hide Coherent, Whole, Logs, FileFull, Loggable;
    var r := Consecutive(fs.bmapstart, fs.g.size / BPB + 1);
    forall b: nat | b < fs.g.size ensures fs.Bblock(b) in r {
      assert b / BPB <= fs.g.size / BPB;
    }
    assert fs.BitmapBlocks() <= r;
    SubsetSize(fs.logged, r + {fs.Iblock(op.ip), fs.Iblock(op.dp)} + op.extra);
    if op.whole { fs.EndStep(op.s0); }
  }

  // ----- Steps of an operation -----

  /** Other fields for inode n: no block moves. */
  lemma NodeKept(g: Geometry, disk: seq<Block>, i1: seq<Inode>, i2: seq<Inode>, owner: map<nat, Slot>, n: nat)
    requires Sized(i1) && n < |i1| == |i2| && i2 == i1[n := i2[n]] && i2[n].addrs == i1[n].addrs && Owned(g, disk, i1, owner, {})
    ensures Sized(i2) && Owned(g, disk, i2, owner, {})
    ensures forall m: nat, len: nat :: m < |i1| ==> FileFull(disk, i2, m, len) == FileFull(disk, i1, m, len)
    ensures forall m: nat, bn: nat :: m < |i1| && bn < MAXFILE ==> SlotCost(disk, i2, m, bn) == SlotCost(disk, i1, m, bn)
  {
    forall s | ValidSlot(s, |i1|) ensures Addr(disk, i2, s) == Addr(disk, i1, s) {
    }
  }

  /** The operation logged inode n's block and some of the bitmap besides. */
  lemma MoreLogged(fs: FileSystem, op: Op, s: Snap, n: nat)
    requires Sound(fs, op.whole) && (op.whole ==> Whole(fs.g, op.s0)) && n < |fs.core| && (n == op.ip || n == op.dp)
    requires Logs(fs.inodestart, fs.bmapstart, op.s0.(logged := {}), s) && Logs(fs.inodestart, fs.bmapstart, s, fs.Now())
    requires s.logged <= fs.BitmapBlocks() + {fs.Iblock(op.ip), fs.Iblock(op.dp)} + op.extra
    requires forall b :: b in s.logged ==> Loggable(fs.g, fs.inodestart, fs.bmapstart, |fs.dinodes|, b)
    requires fs.logged <= s.logged + fs.BitmapBlocks() + {fs.Iblock(n)}
    ensures Underway(fs, op)
  {
    hide Whole, Logs, Sound;
    LogsTrans(fs.inodestart, fs.bmapstart, op.s0.(logged := {}), s, fs.Now());
    SoundSized(fs, op.whole);
    forall b | b in fs.logged ensures Loggable(fs.g, fs.inodestart, fs.bmapstart, |fs.dinodes|, b) {
      if b !in s.logged && b in fs.BitmapBlocks() { fs.BitmapKind(b); }
    }
  }

  /** New fields for inode n, and iupdate. */
  method Update(fs: FileSystem, n: nat, x: Inode, ghost op: Op)
    requires Underway(fs, op) && n < |fs.core| && (n == op.ip || n == op.dp)
    requires x.size == fs.core[n].size && x.addrs == fs.core[n].addrs && x.nlink < 65536 && x.typ != 0
    modifies fs
    ensures old(Tied(fs)) ==> Tied(fs)
    ensures Underway(fs, op) && n < |FilesIn(old(At(fs)))| && |fs.core| == |old(fs.core)|
    ensures FilesIn(At(fs)) == FilesIn(old(At(fs)))[n := File(x.typ, x.major, x.minor, x.nlink, FilesIn(old(At(fs)))[n].data)]
    ensures Free(fs.g, At(fs)) == old(Free(fs.g, At(fs)))
    ensures forall m: nat, k: nat :: Need(At(fs), m, k) == Need(old(At(fs)), m, k)
    ensures fs.core == old(fs.core)[n := x]
  {
    hide BitsMatch, Bit, Owned, FileFull, Logs, Whole, Loggable, ByteAt, SlotCost;
    SoundSized(fs, op.whole);
    ghost var s1 := fs.Now();
    NodeKept(fs.g, fs.disk, fs.core, fs.core[n := x], fs.owner, n);
    NodeFiles(fs.disk, fs.core, fs.core[n := x], n);
    fs.core := fs.core[n := x];
    fs.Iupdate(n);
    MoreLogged(fs, op, s1, n);
  }

  /** ialloc's search from inode 1; |core| when all inodes are in use. */
  method FindInode(fs: FileSystem) returns (n: nat)
    requires Sized(fs.core)
    ensures n == FirstBlank(FilesIn(At(fs)), 1) && (n < |fs.core| ==> fs.core[n].typ == 0)
  {
    hide Files;
    n := 1;
    while n < |fs.core| && fs.core[n].typ != 0
      invariant 1 <= n && FirstBlank(FilesIn(At(fs)), 1) == FirstBlank(FilesIn(At(fs)), n)
    {
      Fields(fs, n);
      n := n + 1;
    }
    if n < |fs.core| { Fields(fs, n); }
  }

  /** The rest of ialloc: the inode is cleared and marked, on disk and, by ilock, in memory. */
  method TakeInode(fs: FileSystem, n: nat, typ: nat, ghost op: Op)
    requires Underway(fs, op) && n < |fs.core| && n == op.ip && fs.core[n].typ == 0 && typ != 0
    modifies fs
    ensures old(Tied(fs)) ==> Tied(fs)
    ensures Underway(fs, op) && |fs.core| == |old(fs.core)|
    ensures fs.core == old(fs.core)[n := Inode(typ, 0, 0, 0, 0, NoBlocks())]
    ensures FilesIn(At(fs)) == FilesIn(old(At(fs)))[n := File(typ, 0, 0, 0, [])]
    ensures Free(fs.g, At(fs)) == old(Free(fs.g, At(fs)))
    ensures forall m: nat, k: nat :: Need(At(fs), m, k) == Need(old(At(fs)), m, k)
  {
    hide BitsMatch, Bit, Owned, FileFull, Logs, Whole, Loggable, ByteAt, SlotCost, Files;
    SoundSized(fs, op.whole);
    ghost var s1 := fs.Now();
    var x := Inode(typ, 0, 0, 0, 0, NoBlocks());
    NodeKept(fs.g, fs.disk, fs.core, fs.core[n := x], fs.owner, n);
    NodeFiles(fs.disk, fs.core, fs.core[n := x], n);
    fs.core := fs.core[n := x];
    fs.Iupdate(n);
    MoreLogged(fs, op, s1, n);
  }

  /** An inode without blocks is no longer in use. */
  method FreeInode(fs: FileSystem, n: nat, ghost op: Op)
    requires Underway(fs, op) && n < |fs.core| && (n == op.ip || n == op.dp) && fs.core[n].size == 0 && fs.core[n].addrs == NoBlocks()
    modifies fs
    ensures old(Tied(fs)) ==> Tied(fs)
    ensures Underway(fs, op) && n < |FilesIn(old(At(fs)))| && |fs.core| == |old(fs.core)|
    ensures FilesIn(At(fs)) == FilesIn(old(At(fs)))[n := FilesIn(old(At(fs)))[n].(typ := 0)]
  {
    hide BitsMatch, Bit, Owned, FileFull, Logs, Whole, Loggable, ByteAt, Files;
    SoundSized(fs, op.whole);
    Fields(fs, n);
    ghost var s1 := fs.Now();
    var x := fs.core[n].(typ := 0);
    NodeKept(fs.g, fs.disk, fs.core, fs.core[n := x], fs.owner, n);
    NodeFiles(fs.disk, fs.core, fs.core[n := x], n);
    fs.core := fs.core[n := x];
    fs.Iupdate(n);
    MoreLogged(fs, op, s1, n);
  }

  /** iput of inode n: with the last reference to an inode without links it is truncated and freed. */
  method Drop(fs: FileSystem, n: nat, last: bool, ghost op: Op)
    requires Underway(fs, op) && n < |fs.core| && (n == op.ip || n == op.dp)
    modifies fs
    ensures old(Tied(fs)) ==> Tied(fs)
    ensures Underway(fs, op) && n < |FilesIn(old(At(fs)))| && |fs.core| == |old(fs.core)|
    ensures FilesIn(At(fs)) == Dropped(FilesIn(old(At(fs))), n, last)
  {
    hide Underway, Tied, TiedIn, FilesIn, Sound, Sized;
    Counts(fs, op);
    Fields(fs, n);
    if last && fs.core[n].nlink == 0 {
      Itrunc(fs, n, op);
      FreeInode(fs, n, op);
    }
  }

  /** itrunc: the file is empty. */
  method Itrunc(fs: FileSystem, n: nat, ghost op: Op)
    requires Underway(fs, op) && n < |fs.core| && (n == op.ip || n == op.dp)
    modifies fs
    ensures old(Tied(fs)) ==> Tied(fs)
    ensures Underway(fs, op) && n < |FilesIn(old(At(fs)))| && |fs.core| == |old(fs.core)|
    ensures FilesIn(At(fs)) == FilesIn(old(At(fs)))[n := FilesIn(old(At(fs)))[n].(data := [])]
    ensures fs.core[n] == old(fs.core)[n].(size := 0, addrs := NoBlocks())
  {
    hide BitsMatch, Bit, Owned, FileFull, Logs, Whole, Loggable, ByteAt, Addr;
    SoundSized(fs, op.whole);
    ghost var s1 := fs.Now();
    fs.Itrunc(n);
    NodeFiles(fs.disk, old(fs.core), fs.core, n);
    CutFull(fs.disk, old(fs.core), fs.core, n);
    assert fs.core[n].addrs == NoBlocks();
    MoreLogged(fs, op, s1, n);
  }

  lemma CutFull(disk: seq<Block>, i0: seq<Inode>, i1: seq<Inode>, n: nat)
    requires Sized(i0) && Sized(i1) && |i0| == |i1| && n < |i0| && forall m :: 0 <= m < |i0| && m != n ==> i1[m] == i0[m]
    requires i1[n].size == 0
    ensures (forall m :: 0 <= m < |i0| ==> FileFull(disk, i0, m, i0[m].size)) ==>
              forall m :: 0 <= m < |i1| ==> FileFull(disk, i1, m, i1[m].size)
  {
    if forall m :: 0 <= m < |i0| ==> FileFull(disk, i0, m, i0[m].size) {
      forall m | 0 <= m < |i1| ensures FileFull(disk, i1, m, i1[m].size) {
        if m != n {
          forall bn: nat | bn * BSIZE < i1[m].size ensures Addr(disk, i1, SlotOf(m, bn)) != 0 {
            assert Addr(disk, i0, SlotOf(m, bn)) != 0;
          }
        }
      }
    }
  }

  /** writei of entry k, which lies within a block; `more` are the blocks it logs besides the bitmap and
      the inode's. */
  method PutEntry(fs: FileSystem, n: nat, k: nat, entry: seq<byte>, ghost whole: bool) returns (ok: bool, ghost more: set<nat>)
    requires Sound(fs, whole) && n < |fs.core| && |entry| == 16 && fs.core[n].typ != 0
    modifies fs
    ensures Sound(fs, whole) && (old(Tied(fs)) ==> Tied(fs))
    ensures Logs(fs.inodestart, fs.bmapstart, old(fs.Now()), fs.Now()) && (old(fs.KindsLogged()) ==> fs.KindsLogged())
    ensures fs.logged <= old(fs.logged) + fs.BitmapBlocks() + {fs.Iblock(n)} + more && |more| <= 2
    ensures n < |FilesIn(old(At(fs)))| && |fs.core| == |old(fs.core)|
    ensures ok <==> Room(fs.g, old(At(fs)), n, k, 0)
    ensures FilesIn(At(fs)) == if ok then Put(FilesIn(old(At(fs))), n, 16 * k, entry) else FilesIn(old(At(fs)))
    ensures ok ==> Free(fs.g, At(fs)) == old(Free(fs.g, At(fs))) - Need(old(At(fs)), n, k)
    ensures ok && 16 * k < NDIRECT * BSIZE ==> forall j: nat :: j / 32 == k / 32 ==> Need(At(fs), n, j) == 0
    ensures SameNeeds(old(At(fs)), At(fs), n)
    ensures forall m :: 0 <= m < |fs.core| ==> fs.core[m] == old(fs.core)[m].(size := fs.core[m].size, addrs := fs.core[m].addrs)
  {
    hide BitsMatch, Bit, Owned, FileFull, Logs, ByteAt, Spliced, Touched, NoHole, KeepsOthers, SlotCost, Files,
         Coherent, SameNeeds, fs.DiskFull, fs.Valid, fs.Full, Loggable, Anchored, TiedIn;
    SoundSized(fs, whole);
    Fields(fs, n);
    EntryInBlock(k);
    var r := fs.Writei(n, 16 * k, entry);
    ok := r == 16;
    ghost var lo, t := 16 * k / BSIZE, Touched(fs.disk, fs.core, n, 16 * k / BSIZE, 16 * k / BSIZE + 1);
    TouchedSize(fs.disk, fs.core, n, lo, lo + 1);
    more := {fs.core[n].addrs[NDIRECT]} + t;
    if old(fs.KindsLogged()) { fs.NewKinds(old(fs.logged), n, lo, lo + 1); }
    EntryFiles(old(fs.disk), old(fs.core), fs.disk, fs.core, n, 16 * k, entry, r);
    EntryNeeds(old(At(fs)), At(fs), n);
    if ok { NoNeed(fs, n, k); }
    CoherentAfter(old(fs.core), old(fs.dinodes), fs.core, fs.dinodes, n);
  }

  /** ...as part of an operation. */
  method WriteEntry(fs: FileSystem, n: nat, k: nat, entry: seq<byte>, ghost op: Op) returns (ok: bool, ghost op2: Op)
    requires Underway(fs, op) && n < |fs.core| && (n == op.ip || n == op.dp) && |entry| == 16 && fs.core[n].typ != 0
    modifies fs
    ensures old(Tied(fs)) ==> Tied(fs)
    ensures op2 == op.(extra := op2.extra) && |op2.extra| <= |op.extra| + 2 && Underway(fs, op2)
    ensures n < |FilesIn(old(At(fs)))| && |fs.core| == |old(fs.core)|
    ensures ok <==> Room(fs.g, old(At(fs)), n, k, 0)
    ensures FilesIn(At(fs)) == if ok then Put(FilesIn(old(At(fs))), n, 16 * k, entry) else FilesIn(old(At(fs)))
    ensures ok ==> Free(fs.g, At(fs)) == old(Free(fs.g, At(fs))) - Need(old(At(fs)), n, k)
    ensures ok && 16 * k < NDIRECT * BSIZE ==> forall j: nat :: j / 32 == k / 32 ==> Need(At(fs), n, j) == 0
    ensures SameNeeds(old(At(fs)), At(fs), n)
    ensures forall m :: 0 <= m < |fs.core| ==> fs.core[m] == old(fs.core)[m].(size := fs.core[m].size, addrs := fs.core[m].addrs)
  {
    hide Sound, Tied, TiedIn, Room, FilesIn, Put, Free, Need, SameNeeds, Logs, Whole;
    ghost var s1, more := fs.Now(), {};
    ok, more := PutEntry(fs, n, k, entry, op.whole);
    op2 := op.(extra := op.extra + more);
    LogsTrans(fs.inodestart, fs.bmapstart, op.s0.(logged := {}), s1, fs.Now());
  }

  /** Inode n got blocks or a size, and was written to the disk. */
  lemma CoherentAfter(i0: seq<Inode>, f0: seq<Inode>, i1: seq<Inode>, f1: seq<Inode>, n: nat)
    requires Coherent(i0, f0) && n < |i1| == |i0| && |f1| == |f0| && i0[n].typ != 0
    requires forall m :: 0 <= m < |i0| && m != n ==> i1[m] == i0[m]
    requires i1[n] == i0[n].(addrs := i1[n].addrs, size := i1[n].size) && Flushed(f0, i0, f1, i1, n)
    ensures Coherent(i1, f1) && (TiedIn(i0, f0) ==> TiedIn(i1, f1))
  {
    hide Anchored;
  }

  lemma EntryInBlock(k: nat)
    ensures 16 <= BSIZE - 16 * k % BSIZE && (16 * k + 16 + BSIZE - 1) / BSIZE == 16 * k / BSIZE + 1
  {
  }

  lemma EntryNeeds(st0: State, st1: State, n: nat)
    requires Sized(st0.core) && Sized(st1.core) && KeepsOthers(st0.snap.disk, st0.core, st1.snap.disk, st1.core, n)
    requires forall m :: 0 <= m < |st0.core| && m != n ==> |st0.core| == |st1.core| && st1.core[m] == st0.core[m]
    ensures SameNeeds(st0, st1, n)
  {
    forall m: nat, k: nat | m != n ensures Need(st1, m, k) == Need(st0, m, k) {
      if m < |st0.core| && 16 * k / BSIZE < MAXFILE {
        var s := SlotOf(m, 16 * k / BSIZE);
        assert Addr(st1.snap.disk, st1.core, s) == Addr(st0.snap.disk, st0.core, s);
      }
    }
  }

  lemma NoNeed(fs: FileSystem, n: nat, k: nat)
    requires Sized(fs.core) && n < |fs.core| && 16 * k + 16 <= MAXFILE * BSIZE && NoHole(fs.disk, fs.core, n, 16 * k, 16)
    ensures 16 * k < NDIRECT * BSIZE ==> forall j: nat :: j / 32 == k / 32 ==> Need(At(fs), n, j) == 0
  {
    if 16 * k < NDIRECT * BSIZE {
      forall j: nat | j / 32 == k / 32 ensures Need(At(fs), n, j) == 0 {
        assert 16 * j / BSIZE == j / 32 && 16 * k / BSIZE == k / 32;
        assert Addr(fs.disk, fs.core, SlotOf(n, 16 * k / BSIZE)) != 0;
      }
    }
  }

  /** What writei of an entry makes of the files. */
  lemma EntryFiles(d0: seq<Block>, i0: seq<Inode>, d1: seq<Block>, i1: seq<Inode>, n: nat, off: nat, entry: seq<byte>, r: int)
    requires Sized(i0) && Sized(i1) && n < |i0| == |i1| && KeepsOthers(d0, i0, d1, i1, n) && r in {-1, 0, |entry|}
    requires forall m :: 0 <= m < |i1| && m != n ==> i1[m] == i0[m]
    requires i1[n] == i0[n].(addrs := i1[n].addrs, size := i1[n].size)
    requires if r == -1 then i1 == i0 else i1[n].size == Max(i0[n].size, off + r) && off <= i0[n].size
    requires Spliced(d0, i0, d1, i1, n, off, if r == -1 then [] else entry[..r])
    ensures n < |Files(d0, i0)|
    ensures Files(d1, i1) == if r > 0 then Put(Files(d0, i0), n, off, entry) else Files(d0, i0)
  {
    hide KeepsOthers, Spliced, Files;
    WroteBy(d0, i0, d1, i1, n, off, entry, r);
    WroteFiles(d0, i0, d1, i1, n, off, if r == -1 then [] else entry[..r]);
    assert entry[..|entry|] == entry;
  }

  // ----- System calls -----

  /** A call with its paths resolved: entry k of directory dp is where dirlookup or dirlink's search
      stopped; `last` says that the call's iput drops the last reference.  Read is readi, inside an
      operation (a directory is searched) or outside one (fileread). */
  datatype Call =
    | Write(n: nat, off: nat, src: seq<byte>)
    | Read(n: nat, off: nat, len: nat, inOp: bool)
    | Trunc(n: nat)
    | Close(n: nat, last: bool)
    | Create(typ: nat, major: nat, minor: nat, dp: nat, k: nat, name: seq<byte>, last: bool)
    | Link(n: nat, dp: nat, k: nat, name: seq<byte>, lastDp: bool, last: bool)
    | Unlink(n: nat, dp: nat, k: nat, lastDp: bool, last: bool)

  datatype Result = Written(ret: int, done: nat) | Got(data: seq<byte>) | Made(n: nat) | Done | Failed | Panicked

  /** Numbers that name inodes and fit their fields.  A call that unlinks a directory from itself would
      wait for its own lock; one that names its file as the parent holds a second reference to it. */
  predicate Sane(call: Call, ninodes: nat) {
    match call
    case Create(typ, major, minor, dp, _, name, _) => 0 < typ < 65536 && major < 65536 && minor < 65536 && dp < ninodes && |name| == 14
    case Link(n, dp, _, name, lastDp, _) => n < ninodes && dp < ninodes && |name| == 14 && (n == dp ==> !lastDp)
    case Unlink(n, dp, _, _, _) => n < ninodes && dp < ninodes && n != dp
    case _ => call.n < ninodes
  }

  /** filewrite: the bytes it got through are spliced in; it comes up short for a start past the end, a
      chunk past the largest file, or a full disk. */
  ghost predicate DidWrite(g: Geometry, st0: State, n: nat, off: nat, src: seq<byte>, r: Result, st1: State)
    requires n < |FilesIn(st0)|
  {
    var f0, f1 := FilesIn(st0), FilesIn(st1);
    if f0[n].typ == 0 then r == Panicked && f1 == f0
    else
      && r.Written? && r.done <= |src| && r.ret == (if r.done == |src| then |src| else -1)
      && f1 == Put(f0, n, off, src[..r.done]) && n < |f1|
      && (r.done < |src| ==>
            || off + r.done > |f1[n].data| || off + r.done + Min(|src| - r.done, MAXCHUNK) > MAXFILE * BSIZE
            || Free(g, st1) == 0)
  }

  /** readi: the file's bytes; short only at a hole with no block left.  It panics at the end of the
      largest file, and outside an operation at a hole that it fills (log_write's panic). */
  ghost predicate DidRead(g: Geometry, st0: State, n: nat, off: nat, len0: nat, inOp: bool, r: Result, st1: State)
    requires Sized(st0.core) && n < |st0.core|
  {
    var f0, f1 := FilesIn(st0), FilesIn(st1);
    if f0[n].typ == 0 then r == Panicked && f1 == f0
    else
      var len := ReadLen(|f0[n].data|, off, len0);
      var reach := Below(off, len);
      var fills := Free(g, st0) > 0 && !NoHole(st0.snap.disk, st0.core, n, off, reach);
      && f1 == f0
      && (r.Panicked? ==> reach < len || (!inOp && fills))
      && (!r.Panicked? ==> r.Got? && Part(f0[n].data, off, r.data) && (inOp || !fills)
                           && if |r.data| == len then reach == len else |r.data| < reach && Free(g, st1) == 0)
  }

  ghost predicate Part(data: seq<byte>, off: nat, piece: seq<byte>) {
    forall k: nat :: k < |piece| ==> off + k < |data| && piece[k] == data[off + k]
  }

  /** create, after a lookup that found nothing: exactly when an inode is free and the entries find room
      there is a new file; otherwise all files are as before. */
  ghost predicate DidCreate(g: Geometry, st0: State, c: Call, r: Result, st1: State)
    requires c.Create? && Sane(c, |FilesIn(st0)|) && |FilesIn(st0)| <= 65536
  {
    var f0, f1 := FilesIn(st0), FilesIn(st1);
    var n := FirstBlank(f0, 1);
    if f0[c.dp].typ == 0 then r == Panicked
    else if f0[c.dp].typ != T_DIR || n >= |f0| then r == Failed && f1 == Dropped(f0, c.dp, c.last)
    else if Room(g, st0, c.dp, c.k, if c.typ == T_DIR then 1 else 0) then
      && r == Made(n)
      && f1 == Dropped(Entered(f0, n, NewNode(n, c.typ, c.major, c.minor, c.dp), c.dp, c.k, c.name), c.dp, c.last)
    else r == Failed && f1 == Dropped(f0[n := File(0, c.major, c.minor, 0, [])], c.dp, c.last)
  }

  /** sys_link: exactly for a file that is not a directory, and with room in a directory, there is one
      entry and one link more; otherwise all files are as before. */
  ghost predicate DidLink(g: Geometry, st0: State, c: Call, r: Result, st1: State)
    requires c.Link? && Sane(c, |FilesIn(st0)|) && |FilesIn(st0)| <= 65536
  {
    var f0, f1 := FilesIn(st0), FilesIn(st1);
    if f0[c.n].typ == 0 then r == Panicked
    else if f0[c.n].typ == T_DIR then r == Failed && f1 == Dropped(f0, c.n, c.last)
    else if f0[c.dp].typ == 0 then r == Panicked
    else if f0[c.dp].typ == T_DIR && Room(g, st0, c.dp, c.k, 0) then
      r == Done && f1 == Dropped(Dropped(Linked(f0, c.n, c.dp, c.k, c.name), c.dp, c.lastDp), c.n, c.last)
    else r == Failed && f1 == Dropped(Dropped(f0, c.dp, c.lastDp), c.n, c.last)
  }

  /** sys_unlink, after a lookup that found entry k and, for a directory, found it empty. */
  ghost predicate DidUnlink(g: Geometry, st0: State, c: Call, r: Result, st1: State)
    requires c.Unlink? && Sane(c, |FilesIn(st0)|)
  {
    var f0, f1 := FilesIn(st0), FilesIn(st1);
    if f0[c.dp].typ == 0 then r == Panicked
    else if f0[c.dp].typ != T_DIR then r == Failed && f1 == Dropped(f0, c.dp, c.lastDp)
    else if f0[c.n].typ == 0 || !(1 <= f0[c.n].nlink < 32768) || !Room(g, st0, c.dp, c.k, 0) then r == Panicked
    else
      && r == Done
      && f1 == Dropped(Relink(Dropped(EntryCleared(f0, c.n, c.dp, c.k), c.dp, c.lastDp), c.n, -1), c.n, c.last)
  }

  /** What a call made of the files, and why it failed or panicked. */
  ghost predicate Did(g: Geometry, st0: State, call: Call, r: Result, st1: State)
    requires Sized(st0.core) && |st0.core| <= 65536 && Sane(call, |st0.core|)
  {
    |st1.core| == |st0.core| &&
    match call
    case Write(n, off, src) => DidWrite(g, st0, n, off, src, r, st1)
    case Read(n, off, len, inOp) => DidRead(g, st0, n, off, len, inOp, r, st1)
    case Trunc(n) =>
      var f0, f1 := FilesIn(st0), FilesIn(st1);
      if f0[n].typ == 0 then r == Panicked
      else r == Done && f1 == if f0[n].typ == T_FILE then f0[n := f0[n].(data := [])] else f0
    case Close(n, last) => r == Done && FilesIn(st1) == Dropped(FilesIn(st0), n, last)
    case Create(_, _, _, _, _, _, _) => DidCreate(g, st0, call, r, st1)
    case Link(_, _, _, _, _, _) => DidLink(g, st0, call, r, st1)
    case Unlink(_, _, _, _, _) => DidUnlink(g, st0, call, r, st1)
  }

  lemma Counts(fs: FileSystem, op: Op)
    requires Underway(fs, op)
    ensures Sound(fs, op.whole) && Sized(fs.core) && |FilesIn(At(fs))| == |fs.core| <= 65536 && Free(fs.g, At(fs)) >= 0
    ensures forall m :: 0 <= m < |fs.core| ==> fs.core[m].nlink < 65536
  {
    fs.NoneFree();
  }

  /** As long as nothing is logged the operation may be about any inode. */
  lemma Retarget(fs: FileSystem, op: Op, n: nat)
    requires Underway(fs, op) && fs.logged == {}
    ensures Underway(fs, op.(ip := n))
  {
  }

  lemma FreshNeed(fs: FileSystem, n: nat)
    requires Sized(fs.core) && n < |fs.core| && fs.core[n].addrs == NoBlocks()
    ensures Need(At(fs), n, 0) == 1
  {
    assert Addr(fs.disk, fs.core, SlotOf(n, 0)) == 0;
  }

  lemma DotsData(files: seq<File>, n: nat, a: seq<byte>, b: seq<byte>)
    requires n < |files| && files[n].data == [] && |a| == |b| == 16
    ensures Put(files, n, 0, a) == files[n := files[n].(data := a)]
    ensures Put(Put(files, n, 0, a), n, 16, b) == files[n := files[n].(data := a + b)]
  {
    assert SpliceInto([], 0, a) == a && SpliceInto(a, 16, b) == a + b;
  }

  /** Room depends on the directory's length, the blocks missing for the entry, and the free blocks. */
  lemma RoomAs(g: Geometry, st0: State, st1: State, n: nat, k: nat, spare: nat, used: nat)
    requires n < |FilesIn(st0)| && n < |FilesIn(st1)| && |FilesIn(st1)[n].data| == |FilesIn(st0)[n].data|
    requires Need(st1, n, k) == Need(st0, n, k) && Free(g, st1) == Free(g, st0) - used
    ensures Room(g, st1, n, k, spare) <==> Room(g, st0, n, k, spare + used)
    ensures Free(g, st1) < spare ==> !Room(g, st1, n, k, spare)
  {
    hide Need, Free;
  }

  lemma NeedOf(st0: State, st1: State, n: nat, m: nat, k: nat)
    requires SameNeeds(st0, st1, n) && m != n
    ensures Need(st1, m, k) == Need(st0, m, k)
  {
    hide Need;
  }

  lemma NeedsTrans(st0: State, st1: State, st2: State, n: nat)
    requires SameNeeds(st0, st1, n) && SameNeeds(st1, st2, n)
    ensures SameNeeds(st0, st2, n)
  {
    hide Need;
    forall m: nat, k: nat | m != n ensures Need(st2, m, k) == Need(st0, m, k) {
      assert Need(st1, m, k) == Need(st0, m, k);
    }
  }

  /** "." and ".." of a new directory: one block holds both. */
  method Dots(fs: FileSystem, n: nat, dp: nat, ghost op: Op) returns (made: bool, ghost op2: Op)
    requires Underway(fs, op) && n < |fs.core| && dp < |fs.core| && n == op.ip && op.extra == {}
    requires fs.core[n].addrs == NoBlocks() && fs.core[n].size == 0 && fs.core[n].typ != 0
    modifies fs
    ensures old(Tied(fs)) ==> Tied(fs)
    ensures op2 == op.(extra := op2.extra) && |op2.extra| <= 4 && Underway(fs, op2) && |fs.core| == |old(fs.core)| <= 65536
    ensures n < |FilesIn(old(At(fs)))| == |fs.core|
    ensures made <==> old(Free(fs.g, At(fs))) >= 1
    ensures made ==> Free(fs.g, At(fs)) == old(Free(fs.g, At(fs))) - 1
    ensures var f := FilesIn(old(At(fs)));
            FilesIn(At(fs)) == f[n := f[n].(data := if made then Dirent(n, DOT) + Dirent(dp, DOTDOT) else [])]
    ensures SameNeeds(old(At(fs)), At(fs), n)
    ensures forall m :: 0 <= m < |fs.core| ==> fs.core[m] == old(fs.core)[m].(size := fs.core[m].size, addrs := fs.core[m].addrs)
  {
    hide TiedIn, Tied, Sound, Underway, Need, Free, SameNeeds, Put, Ended, Sized;
    Counts(fs, op);
    Fields(fs, n);
    FreshNeed(fs, n);
    ghost var st0 := At(fs);
    made, op2 := WriteEntry(fs, n, 0, Dirent(n, DOT), op);
    DotsData(FilesIn(st0), n, Dirent(n, DOT), Dirent(dp, DOTDOT));
    Counts(fs, op2);
    if made {
      ghost var st1 := At(fs);
      assert Need(st1, n, 1) == 0;
      made, op2 := WriteEntry(fs, n, 1, Dirent(dp, DOTDOT), op2);
      NeedsTrans(st0, st1, At(fs), n);
    }
  }

  /** create's dirlink calls: "." and ".." in a new directory, then the entry for the inode. */
  method Entries(fs: FileSystem, n: nat, c: Call, ghost op: Op) returns (made: bool, ghost op2: Op)
    requires c.Create? && Sane(c, |fs.core|) && Underway(fs, op) && n < |fs.core| && n == op.ip && n != c.dp && c.dp == op.dp
    requires op.extra == {} && fs.core[n].addrs == NoBlocks() && fs.core[n].size == 0 && fs.core[n].typ != 0 && fs.core[c.dp].typ != 0
    modifies fs
    ensures old(Tied(fs)) ==> Tied(fs)
    ensures op2 == op.(extra := op2.extra) && |op2.extra| <= 6 && Underway(fs, op2) && |fs.core| == |old(fs.core)| <= 65536
    ensures n < |FilesIn(old(At(fs)))| == |fs.core| && c.dp < |FilesIn(old(At(fs)))|
    ensures made <==> Room(fs.g, old(At(fs)), c.dp, c.k, if c.typ == T_DIR then 1 else 0)
    ensures var f := FilesIn(old(At(fs))); var node := f[n];
            FilesIn(At(fs)) ==
              if made then
                Put(f[n := node.(data := NewNode(n, c.typ, 0, 0, c.dp).data)], c.dp, 16 * c.k, Dirent(n, c.name))
              else f[n := node.(data := FilesIn(At(fs))[n].data)]
    ensures forall m :: 0 <= m < |fs.core| ==> fs.core[m] == old(fs.core)[m].(size := fs.core[m].size, addrs := fs.core[m].addrs)
  {
    hide TiedIn, Tied, Sound, Underway, Room, Need, Free, SameNeeds, Put, Ended, Sized;
    Counts(fs, op);
    Fields(fs, n);
    FreshNeed(fs, n);
    ghost var st0 := At(fs);
    made, op2 := true, op;
    if c.typ == T_DIR {
      made, op2 := Dots(fs, n, c.dp, op);
    }
    ghost var st1 := At(fs);
    Counts(fs, op2);
    RoomAs(fs.g, st0, st0, c.dp, c.k, if c.typ == T_DIR then 1 else 0, 0);
    ghost var dots := if c.typ == T_DIR && made then NewNode(n, c.typ, 0, 0, c.dp).data else [];
    assert FilesIn(st1) == FilesIn(st0)[n := FilesIn(st0)[n].(data := dots)];
    if made {
      if c.typ == T_DIR { NeedOf(st0, st1, n, c.dp, c.k); }
      RoomAs(fs.g, st0, st1, c.dp, c.k, 0, if c.typ == T_DIR then 1 else 0);
      made, op2 := WriteEntry(fs, c.dp, c.k, Dirent(n, c.name), op2);
    }
  }

  /** create's new inode n: its fields, its entries, and what is undone when these fail. */
  method MakeNode(fs: FileSystem, n: nat, c: Call, ghost op: Op) returns (r: Result, ghost op2: Op)
    requires c.Create? && Sane(c, |fs.core|) && Underway(fs, op) && n < |fs.core| && n != c.dp && op.ip == n && op.dp == c.dp
    requires op.extra == {} && fs.core[n].typ == 0 && fs.core[c.dp].typ != 0
    modifies fs
    ensures old(Tied(fs)) ==> Tied(fs)
    ensures op2 == op.(extra := op2.extra) && |op2.extra| <= 6 && Underway(fs, op2) && |fs.core| == |old(fs.core)| <= 65536
    ensures n < |FilesIn(old(At(fs)))| == |fs.core| && c.dp < |FilesIn(old(At(fs)))|
    ensures Room(fs.g, old(At(fs)), c.dp, c.k, if c.typ == T_DIR then 1 else 0) ==>
              && r == Made(n)
              && FilesIn(At(fs)) ==
                   Dropped(Entered(FilesIn(old(At(fs))), n, NewNode(n, c.typ, c.major, c.minor, c.dp), c.dp, c.k, c.name), c.dp, c.last)
    ensures !Room(fs.g, old(At(fs)), c.dp, c.k, if c.typ == T_DIR then 1 else 0) ==>
              r == Failed && FilesIn(At(fs)) == Dropped(FilesIn(old(At(fs)))[n := File(0, c.major, c.minor, 0, [])], c.dp, c.last)
  {
    hide TiedIn, Tied, Sound, Underway, Room, Need, Free, SameNeeds, Put, Ended, Sized, FilesIn;
    Counts(fs, op);
    ghost var st0, f0 := At(fs), FilesIn(At(fs));
    TakeInode(fs, n, c.typ, op);
    Counts(fs, op);
    Update(fs, n, fs.core[n].(major := c.major, minor := c.minor, nlink := 1), op);
    Counts(fs, op);
    ghost var f1 := f0[n := File(c.typ, c.major, c.minor, 1, [])];
    assert FilesIn(At(fs)) == f1;
    RoomAs(fs.g, st0, At(fs), c.dp, c.k, if c.typ == T_DIR then 1 else 0, 0);
    var made;
    made, op2 := Entries(fs, n, c, op);
    Counts(fs, op2);
    if !made {
      Update(fs, n, fs.core[n].(nlink := 0), op2);
      Drop(fs, n, true, op2);
      assert FilesIn(At(fs)) == f0[n := File(0, c.major, c.minor, 0, [])];
      Drop(fs, c.dp, c.last, op2);
      r := Failed;
    } else {
      ghost var node := NewNode(n, c.typ, c.major, c.minor, c.dp);
      assert f1[n := f1[n].(data := NewNode(n, c.typ, 0, 0, c.dp).data)] == f0[n := node];
      Fields(fs, c.dp);
      if c.typ == T_DIR {
        Update(fs, c.dp, fs.core[c.dp].(nlink := (fs.core[c.dp].nlink + 1) % 65536), op2);
      }
      assert FilesIn(At(fs)) == Entered(f0, n, node, c.dp, c.k, c.name);
      Drop(fs, c.dp, c.last, op2);
      r := Made(n);
    }
  }

  /** create; see DidCreate. */
  method SysCreate(fs: FileSystem, c: Call, ghost whole: bool) returns (r: Result)
    requires Sound(fs, whole) && c.Create? && Sane(c, |fs.core|)
    modifies fs
    ensures old(Tied(fs)) ==> Tied(fs)
    ensures Sound(fs, whole) && |fs.core| == |old(fs.core)| <= 65536 && |FilesIn(old(At(fs)))| == |fs.core|
    ensures DidCreate(fs.g, old(At(fs)), c, r, At(fs))
    ensures r != Panicked ==> Ended(fs, old(fs.Now()), whole)
  {
    hide TiedIn, Tied, Sound, Underway, Room, Need, Free, SameNeeds, Put, Ended, Sized, FilesIn, Entered;
    ghost var st0, f0 := At(fs), FilesIn(At(fs));
    ghost var op := Begin(fs, c.dp, whole);
    Counts(fs, op);
    Fields(fs, c.dp);
    RoomAs(fs.g, st0, At(fs), c.dp, c.k, if c.typ == T_DIR then 1 else 0, 0);
    if fs.core[c.dp].typ == 0 {
      return Panicked;
    }
    var n := FindInode(fs);
    if fs.core[c.dp].typ != T_DIR || n >= |fs.core| {
      Drop(fs, c.dp, c.last, op);
      Finish(fs, op);
      return Failed;
    }
    Retarget(fs, op, n);
    r, op := MakeNode(fs, n, c, op.(ip := n));
    Finish(fs, op);
  }

  /** One link less for inode n, and iput. */
  method LoseLink(fs: FileSystem, n: nat, last: bool, ghost op: Op)
    requires Underway(fs, op) && n < |fs.core| && (n == op.ip || n == op.dp) && n < |FilesIn(At(fs))| && FilesIn(At(fs))[n].typ != 0
    modifies fs
    ensures old(Tied(fs)) ==> Tied(fs)
    ensures Underway(fs, op) && n < |FilesIn(old(At(fs)))| && |fs.core| == |old(fs.core)|
    ensures FilesIn(At(fs)) == Dropped(Relink(FilesIn(old(At(fs))), n, -1), n, last)
  {
    hide TiedIn, Tied, Sound, Underway, Need, Free, Sized, FilesIn;
    ghost var f0 := FilesIn(At(fs));
    Counts(fs, op);
    Fields(fs, n);
    Update(fs, n, fs.core[n].(nlink := (fs.core[n].nlink + 65535) % 65536), op);
    assert FilesIn(At(fs)) == Relink(f0, n, -1);
    Drop(fs, n, last, op);
  }

  /** unlink's entry, and the link of a directory's "..". */
  method ClearEntry(fs: FileSystem, c: Call, ghost op: Op) returns (ok: bool, ghost op2: Op)
    requires c.Unlink? && Sane(c, |fs.core|) && Underway(fs, op) && op.ip == c.n && op.dp == c.dp && op.extra == {}
    requires c.dp < |FilesIn(At(fs))| && FilesIn(At(fs))[c.dp].typ != 0
    modifies fs
    ensures old(Tied(fs)) ==> Tied(fs)
    ensures op2 == op.(extra := op2.extra) && |op2.extra| <= 6 && Underway(fs, op2) && |fs.core| == |old(fs.core)|
    ensures |FilesIn(old(At(fs)))| == |fs.core|
    ensures ok <==> Room(fs.g, old(At(fs)), c.dp, c.k, 0)
    ensures ok ==> FilesIn(At(fs)) == EntryCleared(FilesIn(old(At(fs))), c.n, c.dp, c.k)
  {
    hide TiedIn, Tied, Sound, Underway, Room, Need, Free, SameNeeds, SpliceInto, Sized, FilesIn;
    ghost var f0 := FilesIn(At(fs));
    Counts(fs, op);
    Fields(fs, c.dp);
    Fields(fs, c.n);
    ok, op2 := WriteEntry(fs, c.dp, c.k, NO_ENTRY, op);
    Counts(fs, op2);
    if ok {
      Fields(fs, c.dp);
      if fs.core[c.n].typ == T_DIR {
        Update(fs, c.dp, fs.core[c.dp].(nlink := (fs.core[c.dp].nlink + 65535) % 65536), op2);
      }
      assert FilesIn(At(fs)) == EntryCleared(f0, c.n, c.dp, c.k);
    }
  }

  /** sys_link; see DidLink. */
  method SysLink(fs: FileSystem, c: Call, ghost whole: bool) returns (r: Result)
    requires Sound(fs, whole) && c.Link? && Sane(c, |fs.core|)
    modifies fs
    ensures old(Tied(fs)) ==> Tied(fs)
    ensures Sound(fs, whole) && |fs.core| == |old(fs.core)| <= 65536 && |FilesIn(old(At(fs)))| == |fs.core|
    ensures DidLink(fs.g, old(At(fs)), c, r, At(fs))
    ensures r != Panicked ==> Ended(fs, old(fs.Now()), whole)
  {
    hide TiedIn, Tied, Sound, Underway, Room, Need, Free, SameNeeds, SpliceInto, Ended, Sized, FilesIn;
    ghost var st0, f0 := At(fs), FilesIn(At(fs));
    ghost var op := Begin(fs, c.dp, whole);
    Counts(fs, op);
    Retarget(fs, op, c.n);
    op := op.(ip := c.n);
    Fields(fs, c.n);
    Fields(fs, c.dp);
    if fs.core[c.n].typ == 0 {
      return Panicked;
    }
    if fs.core[c.n].typ == T_DIR {
      Drop(fs, c.n, c.last, op);
      Finish(fs, op);
      return Failed;
    }
    Update(fs, c.n, fs.core[c.n].(nlink := (fs.core[c.n].nlink + 1) % 65536), op);
    Counts(fs, op);
    Fields(fs, c.dp);
    assert FilesIn(At(fs)) == Relink(f0, c.n, 1);
    if fs.core[c.dp].typ == 0 {
      return Panicked;
    }
    RoomAs(fs.g, st0, At(fs), c.dp, c.k, 0, 0);
    var made := false;
    if fs.core[c.dp].typ == T_DIR {
      made, op := WriteEntry(fs, c.dp, c.k, Dirent(c.n, c.name), op);
    }
    Drop(fs, c.dp, c.lastDp, op);
    if !made {
      LoseLink(fs, c.n, c.last, op);
      NoLink(f0, c.n, c.dp, c.lastDp);
      r := Failed;
    } else {
      Drop(fs, c.n, c.last, op);
      r := Done;
    }
    Finish(fs, op);
  }

  /** A link added and taken back is as none. */
  lemma NoLink(files: seq<File>, n: nat, dp: nat, last: bool)
    requires n < |files| && dp < |files| && files[n].nlink < 65536 && (n == dp ==> !last)
    ensures Relink(Dropped(Relink(files, n, 1), dp, last), n, -1) == Dropped(files, dp, last)
  {
    var l: int := files[n].nlink;
    assert ((l + 1) % 65536 - 1) % 65536 == l;
  }

  /** sys_unlink; see DidUnlink. */
  method SysUnlink(fs: FileSystem, c: Call, ghost whole: bool) returns (r: Result)
    requires Sound(fs, whole) && c.Unlink? && Sane(c, |fs.core|)
    modifies fs
    ensures old(Tied(fs)) ==> Tied(fs)
    ensures Sound(fs, whole) && |fs.core| == |old(fs.core)| <= 65536 && |FilesIn(old(At(fs)))| == |fs.core|
    ensures DidUnlink(fs.g, old(At(fs)), c, r, At(fs))
    ensures r != Panicked ==> Ended(fs, old(fs.Now()), whole)
  {
    hide TiedIn, Tied, Sound, Underway, Room, Need, Free, SameNeeds, SpliceInto, Ended, Sized, FilesIn;
    ghost var st0, f0 := At(fs), FilesIn(At(fs));
    ghost var op := Begin(fs, c.dp, whole);
    Counts(fs, op);
    Retarget(fs, op, c.n);
    op := op.(ip := c.n);
    Fields(fs, c.n);
    Fields(fs, c.dp);
    if fs.core[c.dp].typ == 0 {
      return Panicked;
    }
    if fs.core[c.dp].typ != T_DIR {
      Drop(fs, c.dp, c.lastDp, op);
      Finish(fs, op);
      return Failed;
    }
    if fs.core[c.n].typ == 0 || fs.core[c.n].nlink == 0 || fs.core[c.n].nlink >= 32768 {
      return Panicked;
    }
    RoomAs(fs.g, st0, At(fs), c.dp, c.k, 0, 0);
    var ok;
    ok, op := ClearEntry(fs, c, op);
    if !ok {
      Counts(fs, op);
      return Panicked;
    }
    Drop(fs, c.dp, c.lastDp, op);
    LoseLink(fs, c.n, c.last, op);
    Finish(fs, op);
    r := Done;
  }

  /** The part of sys_open that truncates a file. */
  method SysTrunc(fs: FileSystem, n: nat, ghost whole: bool) returns (r: Result)
    requires Sound(fs, whole) && n < |fs.core|
    modifies fs
    ensures old(Tied(fs)) ==> Tied(fs)
    ensures Sound(fs, whole) && |fs.core| == |old(fs.core)| <= 65536 && |FilesIn(old(At(fs)))| == |fs.core|
    ensures Did(fs.g, old(At(fs)), Trunc(n), r, At(fs))
    ensures r != Panicked ==> Ended(fs, old(fs.Now()), whole)
  {
    hide TiedIn, Tied, Sound, Underway, Ended, Sized, FilesIn;
    ghost var op := Begin(fs, n, whole);
    Counts(fs, op);
    Fields(fs, n);
    if fs.core[n].typ == 0 {
      return Panicked;
    }
    if fs.core[n].typ == T_FILE {
      Itrunc(fs, n, op);
    }
    Finish(fs, op);
    r := Done;
  }

  /** The end of fileclose, or of any other call that lets go of an inode. */
  method SysClose(fs: FileSystem, n: nat, last: bool, ghost whole: bool) returns (r: Result)
    requires Sound(fs, whole) && n < |fs.core|
    modifies fs
    ensures old(Tied(fs)) ==> Tied(fs)
    ensures Sound(fs, whole) && |fs.core| == |old(fs.core)| <= 65536 && |FilesIn(old(At(fs)))| == |fs.core|
    ensures Did(fs.g, old(At(fs)), Close(n, last), r, At(fs))
    ensures Ended(fs, old(fs.Now()), whole)
  {
    hide TiedIn, Tied, Sound, Underway, Ended, Sized, FilesIn;
    ghost var op := Begin(fs, n, whole);
    Counts(fs, op);
    Drop(fs, n, last, op);
    Finish(fs, op);
    r := Done;
  }

  /** States between operations. */
  ghost predicate Chain(g: Geometry, ib: nat, bb: nat, steps: seq<Snap>) {
    |steps| >= 1 && Whole(g, steps[0]) && forall j :: 0 <= j < |steps| - 1 ==> Step(g, ib, bb, steps[j], steps[j + 1])
  }

  /** filewrite, several operations; see DidWrite. */
  method SysWrite(fs: FileSystem, n: nat, off: nat, src: seq<byte>, ghost whole: bool) returns (r: Result, ghost steps: seq<Snap>)
    requires Sound(fs, whole) && n < |fs.core|
    modifies fs
    ensures old(Tied(fs)) ==> Tied(fs)
    ensures Sound(fs, whole) && |fs.core| == |old(fs.core)| <= 65536 && n < |FilesIn(old(At(fs)))| == |fs.core|
    ensures DidWrite(fs.g, old(At(fs)), n, off, src, r, At(fs))
    ensures |steps| >= 1 && steps[0] == old(fs.Now()) && steps[|steps| - 1].(logged := {}) == fs.Now().(logged := {})
    ensures whole ==> Chain(fs.g, fs.inodestart, fs.bmapstart, steps)
  {
    hide Chain, Chunks, Wrote, Whole, Coherent, Owned, BitsMatch, FileFull, Addr, Bit, Files, Flushed, TiedIn;
    SoundSized(fs, whole);
    Fields(fs, n);
    if whole { fs.WholeNow(); }
    if fs.core[n].typ == 0 {
      r, steps := Panicked, [fs.Now()];
      if whole { ChainOne(fs.g, fs.inodestart, fs.bmapstart, fs.Now()); }
      return;
    }
    ghost var d0, i0, f0 := fs.disk, fs.core, fs.dinodes;
    var ret, end;
    ghost var peak;
    ret, end, peak, steps := fs.FileWrite(n, off, src);
    WroteNodes(d0, i0, fs.disk, fs.core, n, off, src[..end - off]);
    WroteFiles(d0, i0, fs.disk, fs.core, n, off, src[..end - off]);
    CoherentAfter(i0, f0, fs.core, fs.dinodes, n);
    SoundSized(fs, whole);
    Fields(fs, n);
    fs.NoneFree();
    if whole { ChunksChain(fs.g, fs.inodestart, fs.bmapstart, steps, n, off, src, end - off); }
    r := Written(ret, end - off);
  }

  lemma WroteNodes(d0: seq<Block>, i0: seq<Inode>, d1: seq<Block>, i1: seq<Inode>, n: nat, off: nat, src: seq<byte>)
    requires Wrote(d0, i0, d1, i1, n, off, src)
    ensures n < |i1| == |i0| && forall m :: 0 <= m < |i0| && m != n ==> i1[m] == i0[m]
    ensures i1[n] == i0[n].(addrs := i1[n].addrs, size := i1[n].size)
  {
  }

  lemma ChainOne(g: Geometry, ib: nat, bb: nat, s: Snap)
    requires Whole(g, s)
    ensures Chain(g, ib, bb, [s])
  {
    hide Whole;
  }

  lemma ChunksChain(g: Geometry, ib: nat, bb: nat, steps: seq<Snap>, n: nat, off: nat, src: seq<byte>, total: nat)
    requires Chunks(g, ib, bb, steps, n, off, src, total)
    ensures Chain(g, ib, bb, steps)
  {
    hide Whole, Step, ChunkAt;
  }

  /** readi of a file in use; `filled` says that it took blocks. */
  method ReadAt(fs: FileSystem, n: nat, off: nat, len: nat, ghost whole: bool) returns (ok: bool, data: seq<byte>, filled: bool)
    requires Sound(fs, whole) && n < |fs.core| && fs.core[n].typ != 0
    modifies fs
    ensures Sound(fs, whole) && (old(Tied(fs)) ==> Tied(fs)) && Sized(old(fs.core)) && |fs.core| == |old(fs.core)|
    ensures n < |FilesIn(At(fs))| && FilesIn(At(fs)) == FilesIn(old(At(fs))) && Part(FilesIn(At(fs))[n].data, off, data)
    ensures var len1 := ReadLen(|FilesIn(At(fs))[n].data|, off, len);
            && |data| <= Below(off, len1) && (ok <==> |data| == len1 || |data| < Below(off, len1))
            && (|data| < Below(off, len1) ==> Free(fs.g, At(fs)) == 0)
            && (filled <==> old(Free(fs.g, At(fs))) > 0 && !old(NoHole(fs.disk, fs.core, n, off, Below(off, len1))))
    ensures whole ==> fs.Now() == old(fs.Now())
  {
    hide Coherent, Owned, BitsMatch, FileFull, Addr, Bit, Files, NoHole, ByteAt, SameBytes, Keeps, KeepsIn, Loggable, Logs,
         TiedIn, Anchored, fs.DiskFull, Part;
    SoundSized(fs, whole);
    Fields(fs, n);
    fs.NoneFree();
    ghost var st0 := At(fs);
    if whole { FullNoHole(fs.disk, fs.core, n, fs.core[n].size, off, Reach(fs.core[n].size, off, len)); }
    var bm0 := fs.bm;
    ok, data := fs.Readi(n, off, len);
    filled := fs.bm != bm0;
    CoherentGrown(st0.core, fs.core, fs.dinodes, n);
    SameFiles(st0.snap.disk, st0.core, fs.disk, fs.core);
    Fields(fs, n);
    fs.NoneFree();
    BitsDiffer(fs.g, bm0, st0.owner, fs.bm, fs.owner, fs.disk, fs.core);
    PartRead(fs.disk, fs.core, n, off, data);
  }

  /** readi of file n, by a directory search inside an operation or by fileread outside one; see DidRead. */
  method SysRead(fs: FileSystem, n: nat, off: nat, len: nat, inOp: bool, ghost whole: bool) returns (r: Result)
    requires Sound(fs, whole) && n < |fs.core|
    modifies fs
    ensures old(Tied(fs)) ==> Tied(fs)
    ensures Sound(fs, whole) && Sized(old(fs.core)) && |fs.core| == |old(fs.core)| <= 65536
    ensures DidRead(fs.g, old(At(fs)), n, off, len, inOp, r, At(fs))
    ensures whole ==> fs.Now().(logged := {}) == old(fs.Now()).(logged := {})
  {
    hide Sound, Tied, TiedIn, FilesIn, NoHole, Part, Need, Underway, Sized;
    SoundSized(fs, whole);
    Fields(fs, n);
    if fs.core[n].typ == 0 {
      return Panicked;
    }
    if inOp {
      ghost var op := Begin(fs, n, whole);
      Counts(fs, op);
    }
    var ok, data, filled := ReadAt(fs, n, off, len, whole);
    SoundSized(fs, whole);
    r := if !ok || (!inOp && filled) then Panicked else Got(data);
  }

  lemma CoherentGrown(i0: seq<Inode>, i1: seq<Inode>, dinodes: seq<Inode>, n: nat)
    requires Coherent(i0, dinodes) && n < |i0| == |i1| && i0[n].typ != 0 && i1[n] == i0[n].(addrs := i1[n].addrs)
    requires forall m :: 0 <= m < |i1| && m != n ==> i1[m] == i0[m]
    requires Anchored(i0[n]) ==> i1 == i0
    ensures Coherent(i1, dinodes) && SameNodes(i0, i1) && (TiedIn(i0, dinodes) ==> TiedIn(i1, dinodes))
  {
    hide Anchored;
  }

  lemma BitsDiffer(g: Geometry, bm0: seq<bv8>, o0: map<nat, Slot>, bm1: seq<bv8>, o1: map<nat, Slot>, disk: seq<Block>, inodes: seq<Inode>)
    requires BitsMatch(g, bm0, o0, {}) && BitsMatch(g, bm1, o1, {}) && Sized(inodes) && Owned(g, disk, inodes, o1, {})
    ensures (exists b :: b in o1 && b !in o0) ==> bm0 != bm1
  {
    if b :| b in o1 && b !in o0 {
      assert Bit(bm1, b) && !Bit(bm0, b);
    }
  }

  lemma PartRead(disk: seq<Block>, inodes: seq<Inode>, n: nat, off: nat, data: seq<byte>)
    requires Sized(inodes) && n < |inodes| && (|data| > 0 ==> off + |data| <= inodes[n].size)
    requires forall k :: 0 <= k < |data| ==> data[k] == ByteAt(disk, inodes, n, off + k)
    ensures n < |Files(disk, inodes)| && Part(Files(disk, inodes)[n].data, off, data)
  {
    hide ByteAt;
    forall k: nat | k < |data| ensures data[k] == Files(disk, inodes)[n].data[off + k] {
      assert Files(disk, inodes)[n] == FileOf(disk, inodes, n);
    }
  }

  lemma WholeStart(fs: FileSystem)
    requires Sound(fs, true)
    ensures Whole(fs.g, fs.Now()) && Chain(fs.g, fs.inodestart, fs.bmapstart, [fs.Now()]) && AllWhole(fs.g, [At(fs)])
  {
    hide FileFull, Owned, BitsMatch;
    fs.WholeNow();
    ChainOne(fs.g, fs.inodestart, fs.bmapstart, fs.Now());
  }

  lemma ChainStep(fs: FileSystem, s0: Snap)
    requires Ended(fs, s0, true)
    ensures Chain(fs.g, fs.inodestart, fs.bmapstart, [s0, fs.Now()])
  {
  }

  /** One chain after another. */
  lemma ChainJoin(g: Geometry, ib: nat, bb: nat, a: seq<Snap>, b: seq<Snap>)
    requires Chain(g, ib, bb, a) && Chain(g, ib, bb, b) && a[|a| - 1].(logged := {}) == b[0].(logged := {})
    ensures Chain(g, ib, bb, a + b[1..])
    ensures (a + b[1..])[0] == a[0] && (a + b[1..])[|a + b[1..]| - 1].(logged := {}) == b[|b| - 1].(logged := {})
  {
    hide Whole, Step;
    var c := a + b[1..];
    forall j | 0 <= j < |c| - 1 ensures Step(g, ib, bb, c[j], c[j + 1]) {
      if j == |a| - 1 {
        StepFrom(g, ib, bb, b[0], a[j], b[1]);
      } else if j >= |a| {
        assert c[j] == b[j - |a| + 1] && c[j + 1] == b[j - |a| + 2];
      }
    }
  }

  /** One system call. */
  method Perform(fs: FileSystem, call: Call, ghost whole: bool) returns (r: Result, ghost steps: seq<Snap>)
    requires Sound(fs, whole) && Sane(call, |fs.core|)
    modifies fs
    ensures old(Tied(fs)) ==> Tied(fs)
    ensures Sound(fs, whole) && Sized(old(fs.core)) && |fs.core| == |old(fs.core)| <= 65536
    ensures Did(fs.g, old(At(fs)), call, r, At(fs))
    ensures |steps| >= 1 && steps[0] == old(fs.Now())
    ensures whole && r != Panicked ==> steps[|steps| - 1].(logged := {}) == fs.Now().(logged := {})
    ensures whole ==> Chain(fs.g, fs.inodestart, fs.bmapstart, steps)
  {
    hide TiedIn, Tied, Sound, Ended, DidWrite, DidRead, DidCreate, DidLink, DidUnlink, Chain, Free, Dropped, FilesIn;
    SoundSized(fs, whole);
    ghost var s0 := fs.Now();
    if whole { WholeStart(fs); }
    match call {
      case Write(n, off, src) =>
        r, steps := SysWrite(fs, n, off, src, whole);
        return;
      case Read(n, off, len, inOp) =>
        r := SysRead(fs, n, off, len, inOp, whole);
        steps := [s0];
        return;
      case Trunc(n) => r := SysTrunc(fs, n, whole);
      case Close(n, last) => r := SysClose(fs, n, last, whole);
      case Create(_, _, _, _, _, _, _) => r := SysCreate(fs, call, whole);
      case Link(_, _, _, _, _, _) => r := SysLink(fs, call, whole);
      case Unlink(_, _, _, _, _) => r := SysUnlink(fs, call, whole);
    }
    if r == Panicked {
      steps := [s0];
    } else {
      steps := [s0, fs.Now()];
      if whole { ChainStep(fs, s0); }
    }
  }

  // ----- Runs -----

  /** A run of calls: the states before and after each, as far as the first panic. */
  ghost predicate History(g: Geometry, calls: seq<Call>, states: seq<State>, results: seq<Result>) {
    && |states| == |results| + 1 && |results| <= |calls|
    && (|results| < |calls| ==> results != [] && results[|results| - 1] == Panicked)
    && (forall j :: 0 <= j < |results| - 1 ==> results[j] != Panicked)
    && (forall j :: 0 <= j < |states| ==> Parted(g, states[j]) && |states[j].core| == |states[0].core| <= 65536)
    && (forall j :: 0 <= j < |results| ==> Step1(g, states[j], calls[j], results[j], states[j + 1]))
  }

  ghost predicate Step1(g: Geometry, st0: State, call: Call, r: Result, st1: State) {
    Sized(st0.core) && |st0.core| <= 65536 && Sane(call, |st0.core|) && Did(g, st0, call, r, st1)
  }

  /** The partition on the disk: in every state the inodes there name each block in use, once. */
  ghost predicate OnDisk(g: Geometry, states: seq<State>) {
    forall j :: 0 <= j < |states| ==> Names(g, states[j].snap, states[j].owner)
  }

  /** ...and every file is allocated to its size. */
  ghost predicate AllWhole(g: Geometry, states: seq<State>) {
    forall j :: 0 <= j < |states| ==> Whole(g, states[j].snap)
  }

  lemma HistoryMore(g: Geometry, calls: seq<Call>, states: seq<State>, results: seq<Result>, r: Result, st: State)
    requires |results| < |calls| && History(g, calls[..|results|], states, results)
    requires forall j :: 0 <= j < |results| ==> results[j] != Panicked
    requires Step1(g, states[|results|], calls[|results|], r, st) && Parted(g, st)
    ensures History(g, calls[..|results| + 1], states + [st], results + [r])
    ensures r == Panicked ==> History(g, calls, states + [st], results + [r])
  {
    hide Parted, Step1;
    assert |st.core| == |states[|results|].core| by { SameCore(g, states[|results|], calls[|results|], r, st); }
    var i := |results|;
    assert forall j :: 0 <= j < i ==> calls[..i][j] == calls[..i + 1][j] == calls[j];
  }

  lemma SameCore(g: Geometry, st0: State, call: Call, r: Result, st1: State)
    requires Step1(g, st0, call, r, st1)
    ensures |st1.core| == |st0.core|
  {
  }

  /** Any run of calls, whatever the state it begins in. */
  method RunAll(fs: FileSystem, calls: seq<Call>, ghost whole: bool)
    returns (results: seq<Result>, ghost states: seq<State>, ghost steps: seq<Snap>)
    requires Sound(fs, whole) && forall i :: 0 <= i < |calls| ==> Sane(calls[i], |fs.core|)
    modifies fs
    ensures History(fs.g, calls, states, results) && states[0] == old(At(fs)) && states[|states| - 1] == At(fs)
    ensures old(Tied(fs)) ==> OnDisk(fs.g, states)
    ensures whole ==> AllWhole(fs.g, states) && Chain(fs.g, fs.inodestart, fs.bmapstart, steps) && steps[0] == old(fs.Now())
    ensures whole && (results == [] || results[|results| - 1] != Panicked) ==>
              steps[|steps| - 1].(logged := {}) == fs.Now().(logged := {})
  {
    hide Sound, Did, Chain, Whole, Parted, OnDisk, AllWhole, Tied;
    SoundSized(fs, whole);
    results, states, steps := [], [At(fs)], [fs.Now()];
    if whole { WholeStart(fs); }
    if Tied(fs) { OnDiskMore(fs, [], whole); }
    var i := 0;
    while i < |calls|
      invariant i <= |calls| && Sound(fs, whole) && |fs.core| == |old(fs.core)| <= 65536
      invariant |results| == i && History(fs.g, calls[..i], states, results) && states[0] == old(At(fs)) && states[i] == At(fs)
      invariant forall j :: 0 <= j < i ==> results[j] != Panicked
      invariant |steps| >= 1 && steps[0] == old(fs.Now())
      invariant whole ==> steps[|steps| - 1].(logged := {}) == fs.Now().(logged := {})
      invariant old(Tied(fs)) ==> Tied(fs) && OnDisk(fs.g, states)
      invariant whole ==> AllWhole(fs.g, states) && Chain(fs.g, fs.inodestart, fs.bmapstart, steps)
    {
      ghost var st0 := At(fs);
      var r;
      ghost var more;
      r, more := Perform(fs, calls[i], whole);
      SoundSized(fs, whole);
      assert Step1(fs.g, st0, calls[i], r, At(fs));
      HistoryMore(fs.g, calls, states, results, r, At(fs));
      if whole {
        WholeStart(fs);
        ChainJoin(fs.g, fs.inodestart, fs.bmapstart, steps, more);
        AllWholeMore(fs, states);
      }
      if old(Tied(fs)) { OnDiskMore(fs, states, whole); }
      results, states, steps := results + [r], states + [At(fs)], steps + more[1..];
      if r == Panicked { return; }
      i := i + 1;
    }
    assert calls[..i] == calls;
  }

  lemma OnDiskMore(fs: FileSystem, states: seq<State>, whole: bool)
    requires Sound(fs, whole) && Tied(fs) && (states == [] || OnDisk(fs.g, states))
    ensures OnDisk(fs.g, states + [At(fs)]) && [] + [At(fs)] == [At(fs)]
  {
    hide Owned, BitsMatch;
  }

  lemma AllWholeMore(fs: FileSystem, states: seq<State>)
    requires AllWhole(fs.g, states) && Whole(fs.g, fs.Now())
    ensures AllWhole(fs.g, states + [At(fs)])
  {
    hide Whole;
  }

  function Zeros(n: nat): seq<byte> { seq(n, _ => 0) }

  /** What mkfs leaves in file m: what was laid down and, in the root directory, zeros up to the size
      that main rounds up. */
  function Shipped(laid: seq<Mkfs.Call>, m: nat): seq<byte> {
    if m != 1 then Mkfs.Laid(laid, m)
    else Mkfs.Laid(laid, 1) + Zeros((|Mkfs.Laid(laid, 1)| / BSIZE + 1) * BSIZE - |Mkfs.Laid(laid, 1)|)
  }

  /** The image mkfs makes for these calls, in the kernel's hands. */
  method Boot(g: Geometry, ninodes: nat, laid: seq<Mkfs.Call>, nbitmap: nat, inodestart: nat, bmapstart: nat)
    returns (ok: bool, fs: FileSystem)
    requires 1 <= g.nmeta <= g.size < LIMIT && g.size <= nbitmap * BPB && inodestart > 0 && bmapstart > 0
    requires Mkfs.Proper(laid) && Mkfs.Plain(laid) && 1 <= Mkfs.Allocs(laid) && 1 < ninodes <= 65536
    ensures ok <==> Mkfs.Fits(g, ninodes, laid) && g.nmeta + Mkfs.Total(Mkfs.After(laid, ninodes)) < BPB
    ensures fresh(fs)
    ensures ok ==> fs.g == g && fs.inodestart == inodestart && fs.bmapstart == bmapstart && |fs.core| == ninodes && fs.Synced()
    ensures ok ==> fs.Partitioned({}, {}) && Sound(fs, |Mkfs.Laid(laid, 1)| % BSIZE != 0)
    ensures ok ==> (Tied(fs) <==> |Mkfs.Laid(laid, 1)| % BSIZE != 0 || |Mkfs.Laid(laid, 1)| > NDIRECT * BSIZE)
    ensures ok ==> Mkfs.Exact(fs.disk, fs.core, 1, |Mkfs.Laid(laid, 1)|) && fs.core[1].size == |Shipped(laid, 1)|
    ensures ok ==> (fs.DiskFull() <==> g.nmeta + Mkfs.Total(Mkfs.After(laid, ninodes)) == g.size)
    ensures ok ==> forall m :: 0 <= m < ninodes ==> FilesIn(At(fs))[m].data == Shipped(laid, m)
    ensures ok ==> AsMade(FilesIn(At(fs)), Mkfs.Types(laid))
  {
    hide Owned, BitsMatch, Bit, FileFull, ByteAt, Mkfs.Exact, Mkfs.Fits, Mkfs.Total, Mkfs.Laid, Mkfs.Proper, Mkfs.Allocs, Shipped,
         Coherent, Anchored, Files, Mkfs.Types;
    var img;
    ok, img := Mkfs.Build(g, ninodes, laid);
    if !ok {
      fs := new FileSystem(g, inodestart, bmapstart, [], [], [], map[]);
      return;
    }
    ghost var i0, c := img.inodes, img.content;
    MadeInodes(img);
    ok, fs := Mkfs.Mount(img, nbitmap, inodestart, bmapstart);
    if !ok { return; }
    assert c[1] == Mkfs.Laid(laid, 1);
    BootCoherent(i0, fs.core, c);
    ShippedSize(laid);
    forall m: nat | m < ninodes ensures Anchored(fs.core[m]) <==> m != 1 || |c[1]| % BSIZE != 0 || |c[1]| > NDIRECT * BSIZE {
      BootAnchored(fs.disk, fs.core, m, |c[m]|);
    }
    forall m: nat | m < ninodes ensures FilesIn(At(fs))[m].data == Shipped(laid, m) {
      assert c[m] == Mkfs.Laid(laid, m);
      BootFile(fs.disk, fs.core, c, laid, m);
    }
    BootTypes(fs, i0, Mkfs.Types(laid));
  }

  /** Types and link counts as mkfs made them. */
  ghost predicate AsMade(files: seq<File>, types: seq<nat>) {
    forall m :: 0 <= m < |files| ==>
      if 1 <= m <= |types| then files[m].typ == types[m - 1] && files[m].nlink == 1 else files[m].typ == 0 && files[m].nlink == 0
  }

  lemma BootTypes(fs: FileSystem, i0: seq<Inode>, types: seq<nat>)
    requires Sized(fs.core) && |i0| == |fs.core| && Mkfs.Typed(i0, types)
    requires forall m :: 0 <= m < |i0| ==> fs.core[m].typ == i0[m].typ && fs.core[m].nlink == i0[m].nlink
    ensures AsMade(FilesIn(At(fs)), types)
  {
    forall m: nat | m < |fs.core| ensures FilesIn(At(fs))[m].typ == i0[m].typ && FilesIn(At(fs))[m].nlink == i0[m].nlink {
      Fields(fs, m);
    }
  }

  lemma MadeInodes(img: Mkfs.Image)
    requires img.Valid() && img.Tidy() && img.freeinode > 1
    ensures |img.inodes| == |img.content| && forall m :: 0 <= m < |img.inodes| ==>
              && img.inodes[m].nlink < 65536 && img.inodes[m].size == |img.content[m]|
              && (img.inodes[m].typ == 0 ==> m != 1 && img.inodes[m] == Inode(0, 0, 0, 0, 0, NoBlocks()))
  {
    hide Owned, FileFull, ByteAt, Mkfs.Exact;
  }

  lemma BootCoherent(i0: seq<Inode>, core: seq<Inode>, content: seq<seq<byte>>)
    requires 1 < |core| == |i0| == |content| <= 65536 && forall m :: 0 <= m < |i0| ==>
               && i0[m].nlink < 65536 && i0[m].size == |content[m]| && core[m] == i0[m].(size := core[m].size)
               && (m != 1 ==> core[m].size == |content[m]|)
               && (i0[m].typ == 0 ==> m != 1 && i0[m] == Inode(0, 0, 0, 0, 0, NoBlocks()))
    ensures Coherent(core, core)
  {
  }

  lemma ShippedSize(laid: seq<Mkfs.Call>)
    ensures |Shipped(laid, 1)| == (|Mkfs.Laid(laid, 1)| / BSIZE + 1) * BSIZE
  {
  }

  /** An inode of the image has all it needs, but for the root when its entries fill the last block
      before one that an inode would name itself. */
  lemma BootAnchored(disk: seq<Block>, inodes: seq<Inode>, m: nat, len: nat)
    requires Sized(inodes) && m < |inodes| && Mkfs.Exact(disk, inodes, m, len)
    requires inodes[m].size == if m == 1 then (len / BSIZE + 1) * BSIZE else len
    ensures Anchored(inodes[m]) <==> m != 1 || len % BSIZE != 0 || len > NDIRECT * BSIZE
  {
    forall k: nat | k < NDIRECT ensures inodes[m].addrs[k] != 0 <==> k * BSIZE < len {
      assert Addr(disk, inodes, SlotOf(m, k)) == inodes[m].addrs[k];
    }
    if m == 1 && len % BSIZE == 0 && len < NDIRECT * BSIZE {
      assert inodes[m].addrs[len / BSIZE] == 0 && len / BSIZE * BSIZE < inodes[m].size;
    }
  }

  lemma BootFile(disk: seq<Block>, inodes: seq<Inode>, content: seq<seq<byte>>, laid: seq<Mkfs.Call>, m: nat)
    requires Sized(inodes) && m < |inodes| && Mkfs.Holds(disk, inodes, content) && content[m] == Mkfs.Laid(laid, m)
    requires inodes[m].size == if m == 1 then (|content[m]| / BSIZE + 1) * BSIZE else |content[m]|
    ensures Files(disk, inodes)[m].data == Shipped(laid, m)
  {
    hide ByteAt, Mkfs.Laid;
    assert Files(disk, inodes)[m] == FileOf(disk, inodes, m);
    ShippedSize(laid);
  }

  /** Boot mkfs's image, of any size and contents, and run any calls.  Each does to the files what Did
      says; in every state the inodes in memory name each block in use, once.  Those on disk do so too
      if the root's entries did not fill their last block, or the next is named in an indirect block;
      and in the first case every file is allocated to its size, and each operation fits a transaction
      and is a step from one such state to another. */
  method BootAndRun(g: Geometry, ninodes: nat, laid: seq<Mkfs.Call>, nbitmap: nat, inodestart: nat, bmapstart: nat,
                    calls: seq<Call>)
    returns (ok: bool, fs: FileSystem, results: seq<Result>, ghost states: seq<State>, ghost steps: seq<Snap>)
    requires 1 <= g.nmeta <= g.size < LIMIT && g.size <= nbitmap * BPB && inodestart > 0 && bmapstart > 0
    requires Mkfs.Proper(laid) && Mkfs.Plain(laid) && 1 <= Mkfs.Allocs(laid) && 1 < ninodes <= 65536
    requires forall i :: 0 <= i < |calls| ==> Sane(calls[i], ninodes)
    ensures ok <==> Mkfs.Fits(g, ninodes, laid) && g.nmeta + Mkfs.Total(Mkfs.After(laid, ninodes)) < BPB
    ensures ok ==> fs.g == g && History(g, calls, states, results) && states[|states| - 1] == At(fs)
    ensures ok ==> |FilesIn(states[0])| == ninodes && forall m :: 0 <= m < ninodes ==> FilesIn(states[0])[m].data == Shipped(laid, m)
    ensures ok ==> AsMade(FilesIn(states[0]), Mkfs.Types(laid))
    ensures ok && (|Mkfs.Laid(laid, 1)| % BSIZE != 0 || |Mkfs.Laid(laid, 1)| > NDIRECT * BSIZE) ==> OnDisk(g, states)
    ensures ok && |Mkfs.Laid(laid, 1)| % BSIZE != 0 ==>
              && AllWhole(g, states) && Chain(g, inodestart, bmapstart, steps) && steps[0] == states[0].snap
              && (results == [] || results[|results| - 1] != Panicked ==> steps[|steps| - 1].(logged := {}) == fs.Now().(logged := {}))
  {
    hide Sound, Tied, FilesIn, Shipped, History, OnDisk, AllWhole, Chain, Mkfs.Exact, Mkfs.Fits, Mkfs.Total, Mkfs.Laid, Mkfs.Proper,
         Mkfs.Allocs, Mkfs.Plain, Sane, AsMade, Mkfs.Types;
    results, states, steps := [], [], [];
    ok, fs := Boot(g, ninodes, laid, nbitmap, inodestart, bmapstart);
    if !ok { return; }
    SoundSized(fs, |Mkfs.Laid(laid, 1)| % BSIZE != 0);
    results, states, steps := RunAll(fs, calls, |Mkfs.Laid(laid, 1)| % BSIZE != 0);
  }

  /** The condition is exact for an image with a free block: otherwise the first search of the root
      takes a block that no inode on disk names, and no partition of the disk's blocks is left. */
  method BootAndLose(g: Geometry, ninodes: nat, laid: seq<Mkfs.Call>, nbitmap: nat, inodestart: nat, bmapstart: nat)
    returns (ok: bool, fs: FileSystem, ghost b: nat)
    requires 1 <= g.nmeta <= g.size < LIMIT && g.size <= nbitmap * BPB && inodestart > 0 && bmapstart > 0
    requires Mkfs.Proper(laid) && Mkfs.Plain(laid) && 1 <= Mkfs.Allocs(laid) && 1 < ninodes <= 65536
    requires |Mkfs.Laid(laid, 1)| % BSIZE == 0 && |Mkfs.Laid(laid, 1)| <= NDIRECT * BSIZE
    ensures ok <==> Mkfs.Fits(g, ninodes, laid) && g.nmeta + Mkfs.Total(Mkfs.After(laid, ninodes)) < BPB
    ensures ok ==> fs.g == g && fs.Partitioned({}, {}) && Sized(fs.dinodes)
    ensures ok && g.nmeta + Mkfs.Total(Mkfs.After(laid, ninodes)) < g.size ==>
              Mkfs.Lost(g, fs.Now(), b) && b in fs.logged && forall owner :: !Names(g, fs.Now(), owner)
  {
    hide Sound, Tied, FilesIn, Owned, BitsMatch, Mkfs.Lost, Names, Mkfs.Exact, Mkfs.Total, Mkfs.Laid, Mkfs.Proper, Mkfs.Allocs, Mkfs.Plain;
    b := 0;
    ok, fs := Boot(g, ninodes, laid, nbitmap, inodestart, bmapstart);
    if !ok { return; }
    ShippedSize(laid);
    if g.nmeta + Mkfs.Total(Mkfs.After(laid, ninodes)) == g.size { return; }
    var out;
    out, b := Mkfs.ReadPastRoot(fs, |Mkfs.Laid(laid, 1)|);
  }
}
