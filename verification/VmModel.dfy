/** Two-level page tables in physical memory, as values: xv6-riscv/kernel/riscv.h and vm.c.
    A frame is a page number; a page is its 1024 words. */
module VmModel {

  const PGSIZE: nat := 4096
  const ENTRIES: nat := 1024
  /** 2^20 pages of virtual addresses, and as many frame numbers. */
  const NPAGES: nat := 0x10_0000
  const LIMIT: nat := 0x1_0000_0000
  const KERNBASE: nat := 0x8000_0000
  const TRAMPOLINE: nat := 0xFFFFF000
  const TRAPFRAME: nat := 0xFFFFE000

  type Page = s: seq<nat> | |s| == 1024 witness seq(1024, _ => 0)

  function Filled(w: nat): Page {
    seq(1024, _ => w)
  }

  // ----- Page-table entries -----

  const PTE_V: nat := 1
  const PTE_R: nat := 2
  const PTE_W: nat := 4
  const PTE_X: nat := 8
  const PTE_U: nat := 16

  predicate IsValid(pte: nat) { pte % 2 == 1 }
  predicate IsLeaf(pte: nat) { pte / 2 % 8 != 0 }
  predicate IsUser(pte: nat) { pte / 16 % 2 == 1 }

  /** PTE_FLAGS. */
  function Flags(pte: nat): nat { pte % 1024 }

  /** PTE2PA >> 12; the shift left by 12 drops all but 20 bits of the frame number. */
  function Frame(pte: nat): (r: nat)
    ensures r < NPAGES
  {
    pte / 1024 % NPAGES
  }

  /** PA2PTE(frame << 12) | flags | PTE_V. */
  function Pte(frame: nat, flags: nat): (r: nat)
    requires frame < NPAGES && flags < 1024
  {
    frame * 1024 + (if flags % 2 == 1 then flags else flags + 1)
  }

  lemma PteFields(frame: nat, flags: nat)
    requires frame < NPAGES && flags < 1024
    ensures Frame(Pte(frame, flags)) == frame && IsValid(Pte(frame, flags)) && Pte(frame, flags) < LIMIT
    ensures IsLeaf(Pte(frame, flags)) <==> IsLeaf(flags)
    ensures IsUser(Pte(frame, flags)) <==> IsUser(flags)
    ensures Flags(Pte(frame, flags)) == if flags % 2 == 1 then flags else flags + 1
  {
    var f := if flags % 2 == 1 then flags else flags + 1;
    Low(frame, f);
    LeafBits(frame, f);
    UserBit(frame, f);
    assert f / 2 == flags / 2 && f / 16 == flags / 16;
  }

  lemma Low(frame: nat, f: nat)
    requires f < 1024
    ensures (frame * 1024 + f) / 1024 == frame && (frame * 1024 + f) % 1024 == f && (frame * 1024 + f) % 2 == f % 2
  {
  }

  lemma LeafBits(frame: nat, f: nat)
    ensures (frame * 1024 + f) / 2 % 8 == f / 2 % 8
  {
    assert (frame * 1024 + f) / 2 == frame * 512 + f / 2;
    Eighths(frame * 64, f / 2);
  }

  lemma Eighths(q: nat, f: nat)
    ensures (q * 8 + f) % 8 == f % 8
  {
  }

  lemma UserBit(frame: nat, f: nat)
    ensures (frame * 1024 + f) / 16 % 2 == f / 16 % 2
  {
    assert (frame * 1024 + f) / 16 == frame * 64 + f / 16;
    Evens(frame * 32, f / 16);
  }

  lemma Evens(q: nat, f: nat)
    ensures (q * 2 + f) % 2 == f % 2
  {
  }

  // ----- Slots: the entries of an address space -----

  /** Table(r, i) is entry i of the root r; Leaf(r, v) is the entry for virtual page v below it. */
  datatype Slot = Table(root: nat, i: nat) | Leaf(root: nat, v: nat)

  /** The table entry through which a slot is reached. */
  function Above(s: Slot): Slot {
    match s case Table(_, _) => s case Leaf(r, v) => Table(r, v / ENTRIES)
  }

  predicate InSpace(s: Slot, roots: set<nat>) {
    s.root in roots && match s case Table(_, i) => i < ENTRIES case Leaf(_, v) => v < NPAGES
  }

  /** The word a slot holds: this is the map from page to (frame, flags), 0 for unmapped. */
  function Entry(mem: seq<Page>, s: Slot): nat
    requires s.root < |mem|
    requires match s case Table(_, i) => i < ENTRIES case Leaf(_, v) => v < NPAGES
  {
    match s
    case Table(r, i) => mem[r][i]
    case Leaf(r, v) =>
      var e := mem[r][v / ENTRIES];
      if IsValid(e) && Frame(e) < |mem| then mem[Frame(e)][v % ENTRIES] else 0
  }

  // ----- Ownership of frames -----

  /** What a frame is for.  Kernel: handed out by kalloc and in no page table's keeping. */
  datatype Role = Free | Root | Held(s: Slot) | Kernel

  /** The trampoline and trapframe pages are mapped but not owned by the address space. */
  predicate Counts(s: Slot) {
    s.Table? || s.v < TRAPFRAME / PGSIZE
  }

  /** The frames the allocator manages. */
  datatype Pool = Pool(first: nat, stop: nat)

  ghost predicate Sane(p: Pool, mem: seq<Page>, roots: set<nat>) {
    && KERNBASE / PGSIZE <= p.first <= p.stop <= NPAGES && |mem| == p.stop
    && forall r :: r in roots ==> r < |mem|
  }

  /** Table entries point to tables, leaf entries to pages, and every other entry is 0. */
  ghost predicate Formed(mem: seq<Page>, s: Slot)
    requires s.root < |mem|
    requires match s case Table(_, i) => i < ENTRIES case Leaf(_, v) => v < NPAGES
  {
    var e := Entry(mem, s);
    if IsValid(e) then (s.Table? ==> Flags(e) == PTE_V) && (s.Leaf? ==> IsLeaf(e)) else e == 0
  }

  /** A valid entry's frame is the entry's own. */
  ghost predicate SlotOk(mem: seq<Page>, owner: map<nat, Role>, s: Slot)
    requires s.root < |mem|
    requires match s case Table(_, i) => i < ENTRIES case Leaf(_, v) => v < NPAGES
  {
    && Formed(mem, s)
    && (IsValid(Entry(mem, s)) && Counts(s) ==> Frame(Entry(mem, s)) in owner && owner[Frame(Entry(mem, s))] == Held(s))
  }

  /** A frame held for an entry is the entry's frame. */
  ghost predicate FrameOk(mem: seq<Page>, roots: set<nat>, s: Slot, gone: set<Slot>, f: nat) {
    && InSpace(s, roots) && s !in gone && Above(s) !in gone && Counts(s)
    && s.root < |mem| && IsValid(Entry(mem, s)) && Frame(Entry(mem, s)) == f
  }

  /** Each frame of the pool has one role, and the roles match the page tables; the entries in
      `gone`, and those reached through them, are being taken apart. */
  ghost predicate Owned(p: Pool, mem: seq<Page>, roots: set<nat>, owner: map<nat, Role>, gone: set<Slot>) {
    && Sane(p, mem, roots)
    && (forall f: nat :: f in owner <==> p.first <= f < p.stop)
    && (forall f :: f in roots <==> f in owner && owner[f] == Root)
    && (forall s {:trigger SlotOk(mem, owner, s)} {:trigger Entry(mem, s)} ::
          InSpace(s, roots) && s !in gone && Above(s) !in gone ==> SlotOk(mem, owner, s))
    && (forall f :: f in owner && owner[f].Held? ==> FrameOk(mem, roots, owner[f].s, gone, f))
  }

  /** No entry outside `except` changed. */
  ghost predicate SameEntries(m0: seq<Page>, m1: seq<Page>, roots: set<nat>, except: set<Slot>) {
    && |m0| == |m1| && (forall r :: r in roots ==> r < |m0|)
    && forall s {:trigger Entry(m1, s)} :: InSpace(s, roots) && s !in except && Above(s) !in except ==> Entry(m1, s) == Entry(m0, s)
  }

  /** No page mapping outside `except` changed. */
  ghost predicate SameLeaves(m0: seq<Page>, m1: seq<Page>, roots: set<nat>, except: set<Slot>) {
    && |m0| == |m1| && (forall r :: r in roots ==> r < |m0|)
    && forall s {:trigger Entry(m1, s)} :: InSpace(s, roots) && s.Leaf? && s !in except ==> Entry(m1, s) == Entry(m0, s)
  }

  /** Other address spaces have the entries they had. */
  ghost predicate OthersSame(m0: seq<Page>, m1: seq<Page>, roots: set<nat>, root: nat) {
    && |m0| == |m1| && (forall r :: r in roots ==> r < |m0|)
    && forall s {:trigger Entry(m1, s)} :: InSpace(s, roots) && s.root != root ==> Entry(m1, s) == Entry(m0, s)
  }

  /** Table i of the root is there now; the others are as before. */
  ghost predicate TableAdded(m0: seq<Page>, m1: seq<Page>, root: nat, i: nat) {
    root < |m0| && root < |m1| && forall x: nat :: x < ENTRIES ==> (IsValid(m1[root][x]) <==> x == i || IsValid(m0[root][x]))
  }

  /** Frames changed hands only from the free list to tables of this root. */
  ghost predicate TablesGrow(o0: map<nat, Role>, o1: map<nat, Role>, root: nat) {
    o0.Keys == o1.Keys &&
    forall f {:trigger o1[f]} {:trigger o0[f]} :: f in o0 ==>
      (o1[f] == o0[f] || (o0[f] == Free && o1[f].Held? && o1[f].s.Table? && o1[f].s.root == root))
  }

  /** Pages lo..hi-1 of a space are no longer mapped; nothing else changed. */
  ghost predicate Unmapped(m0: seq<Page>, m1: seq<Page>, roots: set<nat>, root: nat, lo: nat, hi: nat) {
    && |m0| == |m1| && (forall r :: r in roots ==> r < |m0|)
    && forall s {:trigger Entry(m1, s)} :: InSpace(s, roots) ==> Entry(m1, s) == if Ranged(s, root, lo, hi) then 0 else Entry(m0, s)
  }

  predicate Ranged(s: Slot, root: nat, lo: nat, hi: nat) {
    s.Leaf? && s.root == root && lo <= s.v < hi
  }

  /** The frames of those pages, and no others, went to the free list. */
  ghost predicate LeavesFreed(o0: map<nat, Role>, o1: map<nat, Role>, root: nat, lo: nat, hi: nat) {
    o0.Keys == o1.Keys &&
    forall f {:trigger o1[f]} {:trigger o0[f]} :: f in o0 ==>
      o1[f] == if o0[f].Held? && Ranged(o0[f].s, root, lo, hi) then Free else o0[f]
  }

  /** Pages that still hold data hold what they held. */
  ghost predicate DataStays(m0: seq<Page>, m1: seq<Page>, o1: map<nat, Role>) {
    |m0| == |m1| && forall f: nat {:trigger m1[f]} :: f < |m0| && (f in o1 ==> IsData(o1[f])) ==> m1[f] == m0[f]
  }

  predicate IsData(r: Role) {
    r.Kernel? || (r.Held? && r.s.Leaf?)
  }

  /** Pages that hold data keep it, and their role, outside `except`; so does memory outside the pool. */
  ghost predicate DataKept(m0: seq<Page>, o0: map<nat, Role>, m1: seq<Page>, o1: map<nat, Role>, except: set<nat>) {
    && |m0| == |m1|
    && (forall f: nat {:trigger m1[f]} :: f < |m0| && f !in o0 ==> m1[f] == m0[f])
    && (forall f: nat {:trigger o1[f]} {:trigger m1[f]} :: f < |m0| && f in o0 && IsData(o0[f]) && f !in except ==>
          f in o1 && o1[f] == o0[f] && m1[f] == m0[f])
  }

  /** Frames handed out by kalloc and not in a page table. */
  ghost function Loose(owner: map<nat, Role>): set<nat> {
    set f | f in owner && owner[f] == Kernel
  }

  // ----- Stores -----

  /** A store outside the tables changes no entry. */
  lemma StoreElsewhere(p: Pool, mem: seq<Page>, roots: set<nat>, owner: map<nat, Role>, gone: set<Slot>, f: nat, page: Page)
    requires Owned(p, mem, roots, owner, gone) && f < |mem|
    requires f in owner ==> owner[f] != Root && !(owner[f].Held? && owner[f].s.Table?)
    ensures SameEntries(mem, mem[f := page], roots, gone)
  {
    var mem2: seq<Page> := mem[f := page];
    forall s | InSpace(s, roots) && s !in gone && Above(s) !in gone ensures Entry(mem2, s) == Entry(mem, s) {
      assert s.root != f;
      assert SlotOk(mem, owner, Above(s));
    }
  }

  /** Owned follows the entries. */
  lemma OwnedSame(p: Pool, m0: seq<Page>, m1: seq<Page>, roots: set<nat>, owner: map<nat, Role>, gone: set<Slot>)
    requires Owned(p, m0, roots, owner, gone) && SameEntries(m0, m1, roots, gone)
    ensures Owned(p, m1, roots, owner, gone)
  {
    forall s | InSpace(s, roots) && s !in gone && Above(s) !in gone ensures SlotOk(m1, owner, s) {
      assert SlotOk(m0, owner, s) && Entry(m1, s) == Entry(m0, s);
    }
    forall f | f in owner && owner[f].Held? ensures FrameOk(m1, roots, owner[f].s, gone, f) {
      assert FrameOk(m0, roots, owner[f].s, gone, f);
    }
  }

  lemma SameEntriesTrans(m0: seq<Page>, m1: seq<Page>, m2: seq<Page>, roots: set<nat>, except: set<Slot>)
    requires SameEntries(m0, m1, roots, except) && SameEntries(m1, m2, roots, except)
    ensures SameEntries(m0, m2, roots, except)
  {
    forall s | InSpace(s, roots) && s !in except && Above(s) !in except ensures Entry(m2, s) == Entry(m0, s) {
      assert Entry(m2, s) == Entry(m1, s);
    }
  }

  /** A frame may pass between the free list and the kernel. */
  lemma OwnedRole(p: Pool, mem: seq<Page>, roots: set<nat>, owner: map<nat, Role>, gone: set<Slot>, f: nat, r: Role)
    requires Owned(p, mem, roots, owner, gone) && f in owner && owner[f] in {Free, Kernel} && r in {Free, Kernel}
    ensures Owned(p, mem, roots, owner[f := r], gone)
  {
    var o2 := owner[f := r];
    forall s | InSpace(s, roots) && s !in gone && Above(s) !in gone ensures SlotOk(mem, o2, s) {
      assert SlotOk(mem, owner, s);
    }
    forall x | x in o2 && o2[x].Held? ensures FrameOk(mem, roots, o2[x].s, gone, x) {
      assert FrameOk(mem, roots, owner[x].s, gone, x);
    }
  }

  /** A store into the table below Table(r, v / 1024) changes the entry for page v alone. */
  lemma StoreLeaf(p: Pool, mem: seq<Page>, roots: set<nat>, owner: map<nat, Role>, gone: set<Slot>, r: nat, v: nat, w: nat)
    requires Owned(p, mem, roots, owner, gone) && (forall g :: g in gone ==> g.Leaf?) && r in roots && v < NPAGES && IsValid(Entry(mem, Table(r, v / ENTRIES)))
    ensures var t := Frame(Entry(mem, Table(r, v / ENTRIES)));
            t < |mem| && t in owner && owner[t] == Held(Table(r, v / ENTRIES)) &&
            forall s {:trigger Entry(mem[t := mem[t][v % ENTRIES := w]], s)} :: InSpace(s, roots) ==>
              Entry(mem[t := mem[t][v % ENTRIES := w]], s) == if s == Leaf(r, v) then w else Entry(mem, s)
  {
    var up := Table(r, v / ENTRIES);
    var t := Frame(Entry(mem, up));
    assert SlotOk(mem, owner, up);
    var mem2: seq<Page> := mem[t := mem[t][v % ENTRIES := w]];
    forall s | InSpace(s, roots) ensures Entry(mem2, s) == if s == Leaf(r, v) then w else Entry(mem, s) {
      assert s.root != t;
      var e := Entry(mem, Above(s));
      if s.Leaf? && IsValid(e) && Frame(e) == t {
        assert SlotOk(mem, owner, Above(s));
        assert s.v / ENTRIES == v / ENTRIES;
      }
    }
  }

  /** Mapping a page: the frame, if the space is to own it, leaves the kernel's hands. */
  lemma OwnedMap(p: Pool, m0: seq<Page>, m1: seq<Page>, roots: set<nat>, owner: map<nat, Role>, r: nat, v: nat, f: nat, w: nat)
    requires Owned(p, m0, roots, owner, {}) && r in roots && v < NPAGES && |m1| == |m0|
    requires !IsValid(Entry(m0, Leaf(r, v)))
    requires IsValid(w) && IsLeaf(w) && Frame(w) == f && (Counts(Leaf(r, v)) ==> f in owner && owner[f] == Kernel)
    requires forall s {:trigger Entry(m1, s)} :: InSpace(s, roots) ==> Entry(m1, s) == if s == Leaf(r, v) then w else Entry(m0, s)
    ensures Owned(p, m1, roots, if Counts(Leaf(r, v)) then owner[f := Held(Leaf(r, v))] else owner, {})
  {
    var o2 := if Counts(Leaf(r, v)) then owner[f := Held(Leaf(r, v))] else owner;
    forall s | InSpace(s, roots) ensures SlotOk(m1, o2, s) {
      assert SlotOk(m0, owner, s);
    }
    forall x | x in o2 && o2[x].Held? ensures FrameOk(m1, roots, o2[x].s, {}, x) {
      assert x != f ==> FrameOk(m0, roots, o2[x].s, {}, x);
    }
  }

  /** Before an entry is cleared, its frame is taken from it. */
  lemma OwnedRelease(p: Pool, mem: seq<Page>, roots: set<nat>, owner: map<nat, Role>, s: Slot)
    requires Owned(p, mem, roots, owner, {}) && InSpace(s, roots) && IsValid(Entry(mem, s)) && Counts(s)
    requires s.Table? ==> forall v: nat {:trigger Leaf(s.root, v)} :: v < NPAGES && v / ENTRIES == s.i ==>
               !IsValid(Entry(mem, Leaf(s.root, v)))
    ensures Frame(Entry(mem, s)) in owner && owner[Frame(Entry(mem, s))] == Held(s)
    ensures Owned(p, mem, roots, owner[Frame(Entry(mem, s)) := Kernel], {s})
  {
    var o2 := owner[Frame(Entry(mem, s)) := Kernel];
    assert SlotOk(mem, owner, s);
    forall x | InSpace(x, roots) && x != s && Above(x) != s ensures SlotOk(mem, o2, x) {
      assert SlotOk(mem, owner, x);
    }
    forall f | f in o2 && o2[f].Held? ensures FrameOk(mem, roots, o2[f].s, {s}, f) {
      var x := o2[f].s;
      assert FrameOk(mem, roots, x, {}, f);
      assert x.Leaf? ==> x == Leaf(x.root, x.v);
    }
  }

  /** An entry whose frame is not counted may be taken apart at once. */
  lemma OwnedBorrowed(p: Pool, mem: seq<Page>, roots: set<nat>, owner: map<nat, Role>, s: Slot)
    requires Owned(p, mem, roots, owner, {}) && InSpace(s, roots) && !Counts(s)
    ensures Owned(p, mem, roots, owner, {s})
    ensures forall f :: f in owner && owner[f].Held? ==> owner[f].s != s
  {
    forall x | InSpace(x, roots) && x != s && Above(x) != s ensures SlotOk(mem, owner, x) {
    }
    forall f | f in owner && owner[f].Held? ensures FrameOk(mem, roots, owner[f].s, {s}, f) {
      assert FrameOk(mem, roots, owner[f].s, {}, f);
    }
  }

  lemma OneFrame(p: Pool, mem: seq<Page>, roots: set<nat>, owner: map<nat, Role>, s: Slot)
    requires Owned(p, mem, roots, owner, {}) && s.root < |mem| && InSpace(s, roots)
    ensures forall f :: f in owner && owner[f] == Held(s) ==> f == Frame(Entry(mem, s))
  {
    forall f | f in owner && owner[f] == Held(s) ensures f == Frame(Entry(mem, s)) {
      assert FrameOk(mem, roots, owner[f].s, {}, f);
    }
  }

  /** A cleared entry is in order again. */
  lemma OwnedCleared(p: Pool, m0: seq<Page>, m1: seq<Page>, roots: set<nat>, owner: map<nat, Role>, s: Slot)
    requires Owned(p, m0, roots, owner, {s}) && InSpace(s, roots) && |m1| == |m0| && Entry(m1, s) == 0
    requires SameEntries(m0, m1, roots, {s})
    requires s.Table? ==> forall v: nat {:trigger Leaf(s.root, v)} :: v < NPAGES && v / ENTRIES == s.i ==> Entry(m1, Leaf(s.root, v)) == 0
    ensures Owned(p, m1, roots, owner, {})
  {
    forall x | InSpace(x, roots) ensures SlotOk(m1, owner, x) {
      if x != s && Above(x) == s {
        assert x == Leaf(s.root, x.v);
      } else if x != s {
        assert SlotOk(m0, owner, x);
      }
    }
    forall f | f in owner && owner[f].Held? ensures FrameOk(m1, roots, owner[f].s, {}, f) {
      assert FrameOk(m0, roots, owner[f].s, {s}, f);
    }
  }

  /** A zeroed page becomes a table. */
  lemma OwnedTable(p: Pool, m0: seq<Page>, m1: seq<Page>, roots: set<nat>, owner: map<nat, Role>, r: nat, i: nat, f: nat)
    requires Owned(p, m0, roots, owner, {}) && r in roots && i < ENTRIES && !IsValid(m0[r][i])
    requires f in owner && owner[f] == Kernel && m0[f] == Filled(0)
    requires m1 == m0[r := m0[r][i := Pte(f, 0)]]
    ensures Owned(p, m1, roots, owner[f := Held(Table(r, i))], {})
    ensures SameEntries(m0, m1, roots, {Table(r, i)}) && SameLeaves(m0, m1, roots, {})
    ensures IsValid(m1[r][i]) && Frame(m1[r][i]) == f
  {
    PteFields(f, 0);
    var o2 := owner[f := Held(Table(r, i))];
    assert r != f && owner[r] == Root;
    forall s | InSpace(s, roots)
      ensures Entry(m1, s) == if s == Table(r, i) then Pte(f, 0) else Entry(m0, s)
    {
      assert s.Table? || InSpace(Above(s), roots);
      if s.Leaf? {
        var e := Entry(m0, Above(s));
        assert SlotOk(m0, owner, Above(s));
        assert IsValid(e) ==> owner[Frame(e)] == Held(Above(s));
        if Above(s) == Table(r, i) {
          assert Entry(m1, s) == m0[f][s.v % ENTRIES];
        }
      }
    }
    forall s | InSpace(s, roots) ensures SlotOk(m1, o2, s) {
      assert SlotOk(m0, owner, s);
    }
    forall x | x in o2 && o2[x].Held? ensures FrameOk(m1, roots, o2[x].s, {}, x) {
      assert x != f ==> FrameOk(m0, roots, o2[x].s, {}, x);
    }
  }

  /** When root, loose frames and entries agree, so do the free frames. */
  lemma FreeAgree(p: Pool, m0: seq<Page>, o0: map<nat, Role>, m1: seq<Page>, o1: map<nat, Role>, roots: set<nat>)
    requires Owned(p, m0, roots, o0, {}) && Owned(p, m1, roots, o1, {}) && SameEntries(m0, m1, roots, {})
    requires Loose(o0) == Loose(o1)
    ensures forall f :: f in o0 ==> f in o1 && (o0[f] == Free <==> o1[f] == Free)
  {
    forall f | f in o0 ensures o0[f] == Free <==> o1[f] == Free {
      assert f in Loose(o0) <==> f in Loose(o1);
      if o0[f].Held? {
        assert FrameOk(m0, roots, o0[f].s, {}, f) && SlotOk(m1, o1, o0[f].s);
        assert Entry(m1, o0[f].s) == Entry(m0, o0[f].s);
      }
      if o1[f].Held? {
        assert FrameOk(m1, roots, o1[f].s, {}, f) && SlotOk(m0, o0, o1[f].s);
        assert Entry(m1, o1[f].s) == Entry(m0, o1[f].s);
      }
    }
  }

  // ----- The free list -----

  function Next(free: seq<nat>, k: nat): nat {
    if k < |free| then free[k] * PGSIZE else 0
  }

  /** The first word of a free page is the address of the next. */
  ghost predicate LinkAt(mem: seq<Page>, free: seq<nat>, k: nat) {
    k < |free| && free[k] < |mem| && mem[free[k]][0] == Next(free, k + 1)
  }

  ghost predicate FreeList(mem: seq<Page>, head: nat, free: seq<nat>, owner: map<nat, Role>) {
    && head == Next(free, 0)
    && (forall k: nat {:trigger LinkAt(mem, free, k)} :: k < |free| ==> LinkAt(mem, free, k))
    && (forall j, k :: 0 <= j < k < |free| ==> free[j] != free[k])
    && (forall f: nat :: f in free <==> f in owner && owner[f] == Free)
  }

  /** Pages off the list may be written, and change hands. */
  lemma ListStore(m0: seq<Page>, m1: seq<Page>, head: nat, free: seq<nat>, o0: map<nat, Role>, o1: map<nat, Role>)
    requires FreeList(m0, head, free, o0) && |m1| == |m0|
    requires forall f: nat :: f < |m0| && f in free ==> m1[f] == m0[f]
    requires forall f: nat :: f in o1 && o1[f] == Free <==> f in o0 && o0[f] == Free
    ensures FreeList(m1, head, free, o1)
  {
    forall k: nat | k < |free| ensures LinkAt(m1, free, k) {
      assert LinkAt(m0, free, k) && free[k] in free;
    }
  }

  lemma ListPush(m0: seq<Page>, head: nat, free: seq<nat>, owner: map<nat, Role>, f: nat, page: Page)
    requires FreeList(m0, head, free, owner) && f < |m0| && f in owner && owner[f] != Free && page[0] == head
    ensures FreeList(m0[f := page], f * PGSIZE, [f] + free, owner[f := Free])
  {
    var m1: seq<Page> := m0[f := page];
    var l := [f] + free;
    forall k: nat | k < |l| ensures LinkAt(m1, l, k) {
      if k > 0 {
        assert LinkAt(m0, free, k - 1) && free[k - 1] in free;
      }
    }
    forall x: nat ensures x in l <==> x in owner[f := Free] && owner[f := Free][x] == Free {
      assert x in l <==> x == f || x in free;
    }
  }

  lemma ListPop(m0: seq<Page>, head: nat, free: seq<nat>, owner: map<nat, Role>, page: Page)
    requires FreeList(m0, head, free, owner) && free != []
    requires forall f :: f in owner ==> 1 <= f
    ensures head != 0 && head == free[0] * PGSIZE && free[0] < |m0| && free[0] in owner && owner[free[0]] == Free
    ensures FreeList(m0[free[0] := page], m0[free[0]][0], free[1..], owner[free[0] := Kernel])
  {
    var f := free[0];
    assert LinkAt(m0, free, 0) && f in free;
    var m1: seq<Page> := m0[f := page];
    var l := free[1..];
    forall k: nat | k < |l| ensures LinkAt(m1, l, k) {
      assert LinkAt(m0, free, k + 1);
    }
    forall x: nat ensures x in l <==> x in owner[f := Kernel] && owner[f := Kernel][x] == Free {
      assert free == [f] + l;
      assert x in free <==> x == f || x in l;
    }
  }
}
