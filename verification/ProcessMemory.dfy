/** Address spaces as fork, exit and sbrk use them: uvmcreate, proc_pagetable, uvmcopy, uvmfree,
    proc_freepagetable, growproc, and the memory part of fork. */
module ProcessMemory {
  import opened VmModel
  import opened VmCode
  import opened AddressSpaces
  import opened SpaceLife

  /** The user pages below n, the trapframe page and the trampoline page, and nothing else. */
  ghost predicate ProcSpace(mem: seq<Page>, root: nat, n: nat)
    requires root < |mem|
  {
    && UserSpace(mem, root, n)
    && IsValid(Entry(mem, Leaf(root, TRAPFRAME / PGSIZE))) && IsValid(Entry(mem, Leaf(root, TRAMPOLINE / PGSIZE)))
  }

  /** uvmfree.  It never panics. */
  method Uvmfree(m: Machine, root: nat, sz: nat)
    requires m.Valid() && root in m.roots && root < |m.mem| && sz < LIMIT
    requires UserSpace(m.mem, root, PagesUp(sz)) && NoneMapped(m.mem, root, UTOP, NPAGES)
    modifies m`mem, m`freelist, m`free, m`owner, m`gone, m`roots
    ensures m.Valid() && |m.mem| == |old(m.mem)| && m.roots == old(m.roots) - {root}
    ensures SpaceFreed(old(m.mem), old(m.owner), m.mem, m.owner, old(m.roots), root)
  {
    Bounds(m.p, m.mem, m.roots, m.owner, m.gone);
    hide Owned, FreeList, Unmapped, LeavesFreed, DataStays, SpaceFreed, NoneMapped, AllMapped;
    ghost var n := PagesUp(sz);
    UnmappedSelf(m.mem, m.roots, m.owner, root, 0);
    DataSelf(m.mem, m.owner);
    if sz > 0 {
      Rounding(sz);
      var ok := m.Uvmunmap(root, 0, Pgroundup(sz) / PGSIZE, true);
      assert ok;
    }
    ghost var m1, o1 := m.mem, m.owner;
    AllGone(old(m.mem), m1, m.roots, root, n);
    var ok := Freewalk(m, root);
    assert ok;
    UnmapThenFree(old(m.mem), old(m.owner), m1, o1, m.mem, m.owner, old(m.roots), root, 0, n);
  }

  lemma AllGone(m0: seq<Page>, m1: seq<Page>, roots: set<nat>, root: nat, n: nat)
    requires Unmapped(m0, m1, roots, root, 0, n) && root in roots && root < |m0|
    requires UserSpace(m0, root, n) && NoneMapped(m0, root, UTOP, NPAGES)
    ensures NoneMapped(m1, root, 0, NPAGES)
  {
    forall v: nat | v < NPAGES ensures !IsValid(Entry(m1, Leaf(root, v))) {
      assert Entry(m1, Leaf(root, v)) == if v < n then 0 else Entry(m0, Leaf(root, v));
    }
  }

  /** Unmapping some pages and then freeing the space frees the space. */
  lemma UnmapThenFree(m0: seq<Page>, o0: map<nat, Role>, m1: seq<Page>, o1: map<nat, Role>, m2: seq<Page>, o2: map<nat, Role>,
                      roots: set<nat>, root: nat, lo: nat, hi: nat)
    requires Unmapped(m0, m1, roots, root, lo, hi) && LeavesFreed(o0, o1, root, lo, hi) && DataStays(m0, m1, o1)
    requires SpaceFreed(m1, o1, m2, o2, roots, root)
    ensures SpaceFreed(m0, o0, m2, o2, roots, root)
  {
    forall s | InSpace(s, roots - {root}) ensures Entry(m2, s) == Entry(m0, s) {
      assert InSpace(s, roots) && Entry(m1, s) == Entry(m0, s);
    }
    forall f | f in o0 ensures o2[f] == if BelongsTo(o0[f], f, root) then Free else o0[f] {
      assert o2[f] == if BelongsTo(o1[f], f, root) then Free else o1[f];
    }
  }

  /** proc_freepagetable.  It never panics, and every frame of the space goes back. */
  method ProcFreepagetable(m: Machine, root: nat, sz: nat)
    requires m.Valid() && root in m.roots && root < |m.mem| && sz < LIMIT && ProcSpace(m.mem, root, PagesUp(sz))
    modifies m`mem, m`freelist, m`free, m`owner, m`gone, m`roots
    ensures m.Valid() && |m.mem| == |old(m.mem)| && m.roots == old(m.roots) - {root}
    ensures SpaceFreed(old(m.mem), old(m.owner), m.mem, m.owner, old(m.roots), root)
  {
    hide Owned, FreeList, Unmapped, LeavesFreed, DataStays, SpaceFreed, UserSpace;
    OneMapped(m.mem, root, TRAMPOLINE / PGSIZE);
    var ok := m.Uvmunmap(root, TRAMPOLINE, 1, false);
    ghost var m1, o1 := m.mem, m.owner;
    FirstOut(old(m.mem), m1, m.roots, root, PagesUp(sz));
    var ok2 := m.Uvmunmap(root, TRAPFRAME, 1, false);
    ghost var m2, o2 := m.mem, m.owner;
    BothOut(old(m.mem), m1, m2, m.roots, root, PagesUp(sz));
    Uvmfree(m, root, sz);
    UnmapThenFree(m1, o1, m2, o2, m.mem, m.owner, old(m.roots), root, TRAPFRAME / PGSIZE, TRAPFRAME / PGSIZE + 1);
    UnmapThenFree(old(m.mem), old(m.owner), m1, o1, m.mem, m.owner, old(m.roots), root, TRAMPOLINE / PGSIZE, TRAMPOLINE / PGSIZE + 1);
  }

  lemma OneMapped(mem: seq<Page>, root: nat, v: nat)
    requires root < |mem| && v < NPAGES
    ensures AllMapped(mem, root, v, v + 1) <==> IsValid(Entry(mem, Leaf(root, v)))
  {
    assert AllMapped(mem, root, v, v + 1) ==> IsValid(Entry(mem, Leaf(root, v)));
  }

  lemma FirstOut(m0: seq<Page>, m1: seq<Page>, roots: set<nat>, root: nat, n: nat)
    requires root in roots && root < |m0| && ProcSpace(m0, root, n)
    requires Unmapped(m0, m1, roots, root, TRAMPOLINE / PGSIZE, TRAMPOLINE / PGSIZE + 1)
    ensures AllMapped(m1, root, TRAPFRAME / PGSIZE, TRAPFRAME / PGSIZE + 1)
  {
    assert Entry(m1, Leaf(root, TRAPFRAME / PGSIZE)) == Entry(m0, Leaf(root, TRAPFRAME / PGSIZE));
  }

  lemma BothOut(m0: seq<Page>, m1: seq<Page>, m2: seq<Page>, roots: set<nat>, root: nat, n: nat)
    requires root in roots && root < |m0| && ProcSpace(m0, root, n)
    requires Unmapped(m0, m1, roots, root, TRAMPOLINE / PGSIZE, TRAMPOLINE / PGSIZE + 1)
    requires Unmapped(m1, m2, roots, root, TRAPFRAME / PGSIZE, TRAPFRAME / PGSIZE + 1)
    ensures UserSpace(m2, root, n) && NoneMapped(m2, root, UTOP, NPAGES)
  {
    forall v: nat | v < NPAGES
      ensures Entry(m2, Leaf(root, v)) == if v >= UTOP then 0 else Entry(m0, Leaf(root, v))
    {
      assert Entry(m2, Leaf(root, v)) == if v == UTOP then 0 else Entry(m1, Leaf(root, v));
    }
  }

  // ----- New spaces -----

  /** uvmcreate: an empty root; 0 when memory is out. */
  method Uvmcreate(m: Machine) returns (pagetable: nat)
    requires m.Valid()
    modifies m`mem, m`freelist, m`free, m`owner, m`roots
    ensures m.Valid() && |m.mem| == |old(m.mem)|
    ensures pagetable == 0 <==> old(m.free) == []
    ensures pagetable == 0 ==> m.mem == old(m.mem) && m.owner == old(m.owner) && m.roots == old(m.roots)
    ensures pagetable != 0 ==> pagetable % PGSIZE == 0 && pagetable < LIMIT
    ensures pagetable != 0 ==> var r := pagetable / PGSIZE;
              && r < |m.mem| && r !in old(m.roots) && m.roots == old(m.roots) + {r} && NoneMapped(m.mem, r, 0, NPAGES)
              && r in old(m.owner) && old(m.owner)[r] == Free && m.owner == old(m.owner)[r := Root]
              && m.mem[r] == Filled(0) && |m.free| == |old(m.free)| - 1
    ensures SameEntries(old(m.mem), m.mem, old(m.roots), {}) && DataKept(old(m.mem), old(m.owner), m.mem, m.owner, {})
  {
    hide Owned, FreeList, NoneMapped, SameEntries, DataKept, Filled;
    NothingChanged(m.p, m.mem, m.roots, m.owner, {}, 0);
    pagetable := m.KallocFill(Filled(0));
    if pagetable != 0 {
      FreshKept(old(m.mem), m.mem, old(m.owner), pagetable / PGSIZE);
      ghost var r, o1 := pagetable / PGSIZE, m.owner;
      NewRoot(m.p, m.mem, m.freelist, m.free, m.roots, o1, r);
      m.roots := m.roots + {r};
      m.owner := m.owner[r := Root];
    }
  }

  lemma FreshKept(m0: seq<Page>, m1: seq<Page>, owner: map<nat, Role>, f: nat)
    requires |m0| == |m1| && f in owner && owner[f] == Free && forall x: nat :: x < |m0| && x != f ==> m1[x] == m0[x]
    ensures DataKept(m0, owner, m1, owner[f := Root], {})
  {
  }

  lemma NewRoot(p: Pool, mem: seq<Page>, head: nat, free: seq<nat>, roots: set<nat>, owner: map<nat, Role>, r: nat)
    requires Owned(p, mem, roots, owner, {}) && FreeList(mem, head, free, owner)
    requires r < |mem| && r in owner && owner[r] == Kernel && mem[r] == Filled(0)
    ensures r !in roots && Owned(p, mem, roots + {r}, owner[r := Root], {}) && FreeList(mem, head, free, owner[r := Root])
    ensures NoneMapped(mem, r, 0, NPAGES)
  {
    var r2, o2 := roots + {r}, owner[r := Root];
    forall s | InSpace(s, r2) ensures SlotOk(mem, o2, s) {
      assert s.root != r ==> SlotOk(mem, owner, s);
    }
    forall f | f in o2 && o2[f].Held? ensures FrameOk(mem, r2, o2[f].s, {}, f) {
      assert FrameOk(mem, roots, o2[f].s, {}, f);
    }
    ListStore(mem, mem, head, free, owner, o2);
  }

  /** Frames changed hands only from the free list to the space of r. */
  ghost predicate SpaceBorn(o0: map<nat, Role>, o1: map<nat, Role>, r: nat) {
    o0.Keys == o1.Keys &&
    forall f {:trigger o1[f]} {:trigger o0[f]} :: f in o0 ==> o1[f] == o0[f] || (o0[f] == Free && BelongsTo(o1[f], f, r))
  }

  /** Everything a new space r leaves alone: the old spaces, all data, all frames it did not take. */
  ghost predicate Beside(m0: seq<Page>, o0: map<nat, Role>, m1: seq<Page>, o1: map<nat, Role>, roots: set<nat>, r: nat) {
    SameEntries(m0, m1, roots, {}) && DataKept(m0, o0, m1, o1, {}) && SpaceBorn(o0, o1, r)
  }

  lemma BesideMapped(m0: seq<Page>, o0: map<nat, Role>, m1: seq<Page>, o1: map<nat, Role>, m2: seq<Page>, o2: map<nat, Role>,
                     roots: set<nat>, r: nat)
    requires Beside(m0, o0, m1, o1, roots, r) && r !in roots && OthersSame(m1, m2, roots + {r}, r)
    requires DataKept(m1, o1, m2, o2, {})
    requires TablesGrow(o1, o2, r) || exists lo, hi :: SpaceGrows(o1, o2, r, lo, hi)
    ensures Beside(m0, o0, m2, o2, roots, r)
  {
    forall s | InSpace(s, roots) ensures Entry(m2, s) == Entry(m0, s) {
      assert InSpace(s, roots + {r}) && Entry(m2, s) == Entry(m1, s);
    }
    forall f | f in o0 ensures o2[f] == o0[f] || (o0[f] == Free && BelongsTo(o2[f], f, r)) {
      assert f in o1 && (o2[f] == o1[f] || (o1[f] == Free && BelongsTo(o2[f], f, r)));
    }
    forall f: nat | f < |m0| && f in o0 && IsData(o0[f]) ensures f in o2 && o2[f] == o0[f] && m2[f] == m0[f] {
      assert o1[f] == o0[f];
    }
  }

  lemma NotYetBorn(p: Pool, mem: seq<Page>, roots: set<nat>, owner: map<nat, Role>, r: nat)
    requires Owned(p, mem, roots, owner, {}) && r !in roots
    ensures forall f :: f in owner ==> !BelongsTo(owner[f], f, r)
    ensures !BelongsTo(Free, r, r)
  {
    forall f | f in owner && owner[f].Held? ensures owner[f].s.root != r {
      assert FrameOk(mem, roots, owner[f].s, {}, f);
    }
  }

  /** Freeing the new space gives back exactly what it took. */
  lemma BornThenFreed(p: Pool, m0: seq<Page>, o0: map<nat, Role>, m1: seq<Page>, o1: map<nat, Role>, m2: seq<Page>, o2: map<nat, Role>,
                      roots: set<nat>, r: nat)
    requires Owned(p, m0, roots, o0, {}) && Beside(m0, o0, m1, o1, roots, r) && r !in roots && |m1| == |m2|
    requires SpaceFreed(m1, o1, m2, o2, roots + {r}, r)
    ensures o2 == o0 && SameEntries(m0, m2, roots, {}) && DataKept(m0, o0, m2, o2, {})
  {
    hide Owned, BelongsTo, Entry;
    NotYetBorn(p, m0, roots, o0, r);
    forall f | f in o0 ensures o2[f] == o0[f] {
      assert o2[f] == if BelongsTo(o1[f], f, r) then Free else o1[f];
    }
    forall s | InSpace(s, roots) ensures Entry(m2, s) == Entry(m0, s) {
      assert InSpace(s, roots + {r} - {r}) && Entry(m2, s) == Entry(m1, s);
    }
    forall f: nat | f < |m0| && f in o0 && IsData(o0[f]) ensures m2[f] == m0[f] {
      assert o1[f] == o0[f];
    }
  }

  /** proc_pagetable: a space with only the trampoline and trapframe pages, or 0 with every frame back.
      Both pages share a table, so the second mapping cannot run out of memory. */
  method ProcPagetable(m: Machine, trapframe: nat, trampoline: nat) returns (pagetable: nat)
    requires m.Valid() && trapframe < LIMIT && trampoline < LIMIT
    modifies m`mem, m`freelist, m`free, m`owner, m`gone, m`roots
    ensures m.Valid() && |m.mem| == |old(m.mem)|
    ensures pagetable == 0 <==> |old(m.free)| < 2
    ensures pagetable == 0 ==> m.roots == old(m.roots) && m.owner == old(m.owner)
    ensures pagetable == 0 ==> SameEntries(old(m.mem), m.mem, m.roots, {}) && DataKept(old(m.mem), old(m.owner), m.mem, m.owner, {})
    ensures pagetable != 0 ==> pagetable % PGSIZE == 0 && pagetable < LIMIT && |m.free| + 2 == |old(m.free)|
    ensures pagetable != 0 ==> var r := pagetable / PGSIZE;
              && r < |m.mem| && r !in old(m.roots) && m.roots == old(m.roots) + {r} && ProcSpace(m.mem, r, 0)
              && Entry(m.mem, Leaf(r, TRAMPOLINE / PGSIZE)) == Pte(trampoline / PGSIZE, PTE_R + PTE_X)
              && Entry(m.mem, Leaf(r, TRAPFRAME / PGSIZE)) == Pte(trapframe / PGSIZE, PTE_R + PTE_W) && LastTable(m.mem, r)
              && Beside(old(m.mem), old(m.owner), m.mem, m.owner, old(m.roots), r)
  {
    Bounds(m.p, m.mem, m.roots, m.owner, m.gone);
    hide Owned, FreeList, SameEntries, OthersSame, DataKept, TablesGrow, TableAdded, LastTable, Entry, Pte, IsValid, Beside, ProcSpace, OnlyTrampoline;
    pagetable := TrampolineSpace(m, trampoline);
    if pagetable == 0 {
      return;
    }
    var root := pagetable / PGSIZE;
    ghost var m2, o2 := m.mem, m.owner;
    TrampolineOnly(m2, root, trampoline / PGSIZE);
    var r2 := MapOne(m, root, TRAPFRAME / PGSIZE, trapframe, PTE_R + PTE_W);
    assert r2 == Done;
    LastTableStays(m2, m.mem, root);
    BesideMapped(old(m.mem), old(m.owner), m2, o2, m.mem, m.owner, old(m.roots), root);
    Trapframed(m2, m.mem, root, trampoline / PGSIZE, trapframe / PGSIZE);
  }

  /** The table of the trampoline and trapframe pages is the only one. */
  ghost predicate LastTable(mem: seq<Page>, root: nat) {
    root < |mem| && forall x: nat :: x < ENTRIES ==> (IsValid(mem[root][x]) <==> x == TRAMPOLINE / PGSIZE / ENTRIES)
  }

  lemma LastTableMade(m1: seq<Page>, m2: seq<Page>, root: nat)
    requires root < |m1| && m1[root] == Filled(0) && TableAdded(m1, m2, root, TRAMPOLINE / PGSIZE / ENTRIES)
    ensures LastTable(m2, root)
  {
  }

  lemma LastTableStays(m1: seq<Page>, m2: seq<Page>, root: nat)
    requires LastTable(m1, root) && TableAdded(m1, m2, root, TRAPFRAME / PGSIZE / ENTRIES)
    ensures LastTable(m2, root)
  {
  }

  /** A new space needs a table for every 1024 pages. */
  lemma {:induction false} NeededFresh(mem: seq<Page>, root: nat, n: nat)
    requires LastTable(mem, root) && n <= TRAMPOLINE / PGSIZE / ENTRIES * ENTRIES
    ensures Needed(mem, root, 0, n) == n + (n + ENTRIES - 1) / ENTRIES
  {
    if n == 0 {
    } else {
      NeededFresh(mem, root, n - 1);
      SameTable(n);
    }
  }

  /** The trampoline is the one page mapped. */
  ghost predicate OnlyTrampoline(mem: seq<Page>, root: nat, tramp: nat)
    requires root < |mem| && tramp < NPAGES
  {
    forall v: nat {:trigger Leaf(root, v)} :: v < NPAGES ==>
      if v == TRAMPOLINE / PGSIZE then Entry(mem, Leaf(root, v)) == Pte(tramp, PTE_R + PTE_X) else !IsValid(Entry(mem, Leaf(root, v)))
  }

  /** proc_pagetable up to its first mapping. */
  method TrampolineSpace(m: Machine, trampoline: nat) returns (pagetable: nat)
    requires m.Valid() && trampoline < LIMIT
    modifies m`mem, m`freelist, m`free, m`owner, m`gone, m`roots
    ensures m.Valid() && |m.mem| == |old(m.mem)|
    ensures pagetable == 0 <==> |old(m.free)| < 2
    ensures pagetable == 0 ==> m.roots == old(m.roots) && m.owner == old(m.owner)
    ensures pagetable == 0 ==> SameEntries(old(m.mem), m.mem, m.roots, {}) && DataKept(old(m.mem), old(m.owner), m.mem, m.owner, {})
    ensures pagetable != 0 ==> pagetable % PGSIZE == 0 && pagetable < LIMIT && |m.free| + 2 == |old(m.free)|
    ensures pagetable != 0 ==> var r := pagetable / PGSIZE;
              && r < |m.mem| && r !in old(m.roots) && m.roots == old(m.roots) + {r}
              && OnlyTrampoline(m.mem, r, trampoline / PGSIZE) && LastTable(m.mem, r)
              && Beside(old(m.mem), old(m.owner), m.mem, m.owner, old(m.roots), r)
  {
    Bounds(m.p, m.mem, m.roots, m.owner, m.gone);
    hide Owned, FreeList, NoneMapped, AllMapped, SameEntries, SpaceFreed, OthersSame, DataKept, TablesGrow, TableAdded, LastTable, Entry, Pte, IsValid, Beside, OnlyTrampoline;
    pagetable := Uvmcreate(m);
    if pagetable == 0 {
      Unchanged(m.p, m.mem, m.roots, m.owner, 0, 0);
      return;
    }
    ghost var m1, o1 := m.mem, m.owner;
    var root := pagetable / PGSIZE;
    Born(old(m.mem), old(m.owner), m1, o1, old(m.roots), root);
    EmptyRoot(m1, root);
    var r1 := MapOne(m, root, TRAMPOLINE / PGSIZE, trampoline, PTE_R + PTE_X);
    if r1 != Done {
      Uvmfree(m, root, 0);
      BornThenFreed(m.p, old(m.mem), old(m.owner), m1, o1, m.mem, m.owner, old(m.roots), root);
      return 0;
    }
    BesideMapped(old(m.mem), old(m.owner), m1, o1, m.mem, m.owner, old(m.roots), root);
    Trampolined(m1, m.mem, root, trampoline / PGSIZE);
    LastTableMade(m1, m.mem, root);
  }

  lemma Born(m0: seq<Page>, o0: map<nat, Role>, m1: seq<Page>, o1: map<nat, Role>, roots: set<nat>, r: nat)
    requires SameEntries(m0, m1, roots, {}) && DataKept(m0, o0, m1, o1, {}) && r in o0 && o0[r] == Free && o1 == o0[r := Root]
    ensures Beside(m0, o0, m1, o1, roots, r)
  {
  }

  lemma EmptyRoot(mem: seq<Page>, root: nat)
    requires root < |mem| && NoneMapped(mem, root, 0, NPAGES) && mem[root] == Filled(0)
    ensures UserSpace(mem, root, 0) && NoneMapped(mem, root, UTOP, NPAGES)
    ensures !IsValid(Entry(mem, Leaf(root, TRAMPOLINE / PGSIZE))) && !IsValid(mem[root][TRAMPOLINE / PGSIZE / ENTRIES])
  {
  }

  lemma Trampolined(m1: seq<Page>, m2: seq<Page>, root: nat, tramp: nat)
    requires root < |m1| && root < |m2| && NoneMapped(m1, root, 0, NPAGES) && tramp < NPAGES
    requires forall v: nat {:trigger Entry(m2, Leaf(root, v))} :: v < NPAGES ==>
               Entry(m2, Leaf(root, v)) == if v == TRAMPOLINE / PGSIZE then Pte(tramp, PTE_R + PTE_X) else Entry(m1, Leaf(root, v))
    ensures OnlyTrampoline(m2, root, tramp)
  {
    hide Pte, Entry;
    forall v: nat | v < NPAGES && v != TRAMPOLINE / PGSIZE ensures !IsValid(Entry(m2, Leaf(root, v))) {
      assert Entry(m2, Leaf(root, v)) == Entry(m1, Leaf(root, v));
    }
    assert Entry(m2, Leaf(root, TRAMPOLINE / PGSIZE)) == Pte(tramp, PTE_R + PTE_X);
  }

  lemma TrampolineOnly(mem: seq<Page>, root: nat, tramp: nat)
    requires root < |mem| && tramp < NPAGES && OnlyTrampoline(mem, root, tramp)
    ensures !IsValid(Entry(mem, Leaf(root, TRAPFRAME / PGSIZE))) && IsValid(mem[root][TRAPFRAME / PGSIZE / ENTRIES])
  {
    hide Pte;
    PteFields(tramp, PTE_R + PTE_X);
    assert Entry(mem, Leaf(root, TRAMPOLINE / PGSIZE)) == Pte(tramp, PTE_R + PTE_X);
    var s := Leaf(root, TRAPFRAME / PGSIZE);
    assert !IsValid(Entry(mem, s));
  }

  lemma Trapframed(m2: seq<Page>, m3: seq<Page>, root: nat, tramp: nat, tf: nat)
    requires root < |m2| && root < |m3| && tramp < NPAGES && tf < NPAGES && OnlyTrampoline(m2, root, tramp)
    requires forall v: nat {:trigger Entry(m3, Leaf(root, v))} :: v < NPAGES ==>
               Entry(m3, Leaf(root, v)) == if v == TRAPFRAME / PGSIZE then Pte(tf, PTE_R + PTE_W) else Entry(m2, Leaf(root, v))
    ensures ProcSpace(m3, root, 0)
    ensures Entry(m3, Leaf(root, TRAMPOLINE / PGSIZE)) == Pte(tramp, PTE_R + PTE_X)
    ensures Entry(m3, Leaf(root, TRAPFRAME / PGSIZE)) == Pte(tf, PTE_R + PTE_W)
  {
    hide Pte, Entry;
    PteFields(tramp, PTE_R + PTE_X);
    PteFields(tf, PTE_R + PTE_W);
    assert Entry(m3, Leaf(root, TRAMPOLINE / PGSIZE)) == Entry(m2, Leaf(root, TRAMPOLINE / PGSIZE));
    forall v: nat | v < UTOP ensures !IsValid(Entry(m3, Leaf(root, v))) {
      assert Entry(m3, Leaf(root, v)) == Entry(m2, Leaf(root, v));
    }
  }

  // ----- uvmcopy -----

  /** What page v of a space holds, and its flags. */
  ghost function Content(mem: seq<Page>, root: nat, v: nat): Page
    requires root < |mem| && v < NPAGES && Frame(Entry(mem, Leaf(root, v))) < |mem|
  {
    mem[Frame(Entry(mem, Leaf(root, v)))]
  }

  /** Pages lo..hi-1 of the space c are as those of the space r were in m0. */
  ghost predicate Copied(m0: seq<Page>, r: nat, m1: seq<Page>, c: nat, hi: nat)
    requires r < |m0| && c < |m1| && hi <= NPAGES
  {
    forall v: nat {:trigger Leaf(c, v)} {:trigger Leaf(r, v)} :: v < hi ==>
      && Frame(Entry(m0, Leaf(r, v))) < |m0|
      && PageIs(m1, c, v, Content(m0, r, v), Flags(Entry(m0, Leaf(r, v))))
  }

  lemma CopyBegins(m: Machine, src: nat, dst: nat, sz: nat)
    requires m.Valid() && src < |m.mem| && dst in m.roots && dst < |m.mem| && sz < LIMIT && UserSpace(m.mem, src, PagesUp(sz))
    ensures Owned(m.p, m.mem, m.roots, m.owner, {}) && PagesUp(sz) <= UTOP
    ensures Grown(m.mem, m.owner, m.mem, m.owner, m.roots, dst, 0, 0) && Copied(m.mem, src, m.mem, dst, 0)
    ensures TablesTo(m.mem, m.mem, dst, 0, 0) && Needed(m.mem, dst, 0, 0) == 0
  {
    Bounds(m.p, m.mem, m.roots, m.owner, m.gone);
    NoTablesYet(m.mem, dst, 0);
    GrownSelf(m.mem, m.owner, m.roots, dst, 0);
    CopiedNone(m.mem, src, dst);
  }

  /** uvmcopy: each page of src copied, with its flags, to a page of dst; on failure dst is as it was. */
  method Uvmcopy(m: Machine, src: nat, dst: nat, sz: nat) returns (ok: bool)
    requires m.Valid() && src in m.roots && dst in m.roots && src != dst && src < |m.mem| && dst < |m.mem| && sz < LIMIT
    requires UserSpace(m.mem, src, PagesUp(sz)) && UserSpace(m.mem, dst, 0)
    modifies m`mem, m`freelist, m`free, m`owner, m`gone
    ensures m.Valid() && |m.mem| == |old(m.mem)|
    ensures Grown(old(m.mem), old(m.owner), m.mem, m.owner, m.roots, dst, 0, if ok then PagesUp(sz) else 0)
    ensures UserSpace(m.mem, dst, if ok then PagesUp(sz) else 0)
    ensures ok ==> Copied(old(m.mem), src, m.mem, dst, PagesUp(sz))
    ensures ok <==> |old(m.free)| >= Needed(old(m.mem), dst, 0, PagesUp(sz))
  {
    hide Owned, FreeList, Grown, UserSpace, Copied, Needed, TablesTo, TableAdded, IsValid, Machine.Valid, PagesUp;
    CopyBegins(m, src, dst, sz);
    var i := 0;
    ghost var k, n := 0, PagesUp(sz);
    while i < sz
      invariant i == k * PGSIZE && k <= n && m.Valid() && |m.mem| == |old(m.mem)|
      invariant Grown(old(m.mem), old(m.owner), m.mem, m.owner, m.roots, dst, 0, k)
      invariant UserSpace(m.mem, dst, k) && Copied(old(m.mem), src, m.mem, dst, k)
      invariant |m.free| + Needed(old(m.mem), dst, 0, k) == |old(m.free)| && TablesTo(old(m.mem), m.mem, dst, 0, k)
    {
      WholePages(k, sz);
      ghost var m1 := m.mem;
      NextCost(old(m.mem), m1, dst, 0, k);
      NeededGrows(old(m.mem), dst, 0, k + 1, n);
      ok := CopyRound(m, src, dst, i, n, old(m.mem), old(m.owner));
      if !ok {
        return;
      }
      TablesStep(old(m.mem), m1, m.mem, dst, 0, k);
      i := i + PGSIZE;
      k := k + 1;
    }
    WholePages(k, sz);
    ok := true;
  }

  lemma WholePages(k: nat, sz: nat)
    ensures k * PGSIZE / PGSIZE == k && (k * PGSIZE < sz <==> k < PagesUp(sz))
  {
  }

  /** One round of uvmcopy at address i, with its error exit. */
  method CopyRound(m: Machine, src: nat, dst: nat, i: nat, ghost n: nat, ghost m0: seq<Page>, ghost o0: map<nat, Role>) returns (ok: bool)
    requires m.Valid() && src in m.roots && dst in m.roots && src != dst && src < |m.mem| && dst < |m.mem|
    requires i / PGSIZE < n <= UTOP && |m0| == |m.mem| && Owned(m.p, m0, m.roots, o0, {})
    requires UserSpace(m0, src, n) && UserSpace(m0, dst, 0)
    requires Grown(m0, o0, m.mem, m.owner, m.roots, dst, 0, i / PGSIZE)
    requires UserSpace(m.mem, dst, i / PGSIZE) && Copied(m0, src, m.mem, dst, i / PGSIZE)
    modifies m`mem, m`freelist, m`free, m`owner, m`gone
    ensures m.Valid() && |m.mem| == |old(m.mem)|
    ensures ok <==> |old(m.free)| >= if IsValid(old(m.mem)[dst][i / PGSIZE / ENTRIES]) then 1 else 2
    ensures ok ==> |m.free| == |old(m.free)| - (if IsValid(old(m.mem)[dst][i / PGSIZE / ENTRIES]) then 1 else 2)
    ensures ok ==> TableAdded(old(m.mem), m.mem, dst, i / PGSIZE / ENTRIES)
    ensures Grown(m0, o0, m.mem, m.owner, m.roots, dst, 0, if ok then i / PGSIZE + 1 else 0)
    ensures UserSpace(m.mem, dst, if ok then i / PGSIZE + 1 else 0)
    ensures ok ==> Copied(m0, src, m.mem, dst, i / PGSIZE + 1)
  {
    hide Owned, FreeList, Grown, PageIs, SpaceGrows, DataKept, SameLeaves, OthersSame, SameEntries, TableAdded, Entry, Pte, IsValid, IsLeaf, Copied, UserSpace, Flags, Frame;
    ghost var m1, o1, k := m.mem, m.owner, i / PGSIZE;
    SourcePage(m.p, m0, o0, m1, o1, m.roots, src, dst, n, k);
    Room(m1, dst, k);
    ghost var page, flags := Content(m1, src, k), Flags(Entry(m1, Leaf(src, k)));
    ok := CopyPage(m, src, dst, i);
    if ok {
      GrownStep(m0, o0, m1, o1, m.mem, m.owner, m.roots, dst, 0, k, page, flags);
      CopiedMore(m.p, m0, src, m1, o1, m.mem, m.owner, m.roots, dst, k, page, flags);
    } else {
      GrownStill(m0, o0, m1, o1, m.mem, m.roots, dst, 0, k);
      UndoCopy(m, dst, i / PGSIZE, m0, o0);
    }
  }

  /** The error exit of uvmcopy. */
  method UndoCopy(m: Machine, dst: nat, k: nat, ghost m0: seq<Page>, ghost o0: map<nat, Role>)
    requires m.Valid() && dst in m.roots && dst < |m.mem| && Owned(m.p, m0, m.roots, o0, {})
    requires Grown(m0, o0, m.mem, m.owner, m.roots, dst, 0, k) && UserSpace(m0, dst, 0)
    modifies m`mem, m`freelist, m`free, m`owner, m`gone
    ensures m.Valid() && |m.mem| == |old(m.mem)|
    ensures Grown(m0, o0, m.mem, m.owner, m.roots, dst, 0, 0) && UserSpace(m.mem, dst, 0)
  {
    hide Owned, FreeList, Grown, AllMapped, NoneMapped, Unmapped, LeavesFreed, DataStays;
    GrownMapped(m0, o0, m.mem, m.owner, m.roots, dst, 0, k);
    ghost var m2, o2 := m.mem, m.owner;
    var ok := m.Uvmunmap(dst, 0, k, true);
    assert ok;
    GrownUndone(m.p, m0, o0, m2, o2, m.mem, m.owner, m.roots, dst, 0, k);
    SpaceBack(m0, o0, m.mem, m.owner, m.roots, dst, 0);
  }

  /** One round of the loop of uvmcopy, at address i. */
  method CopyPage(m: Machine, src: nat, dst: nat, i: nat) returns (ok: bool)
    requires m.Valid() && src in m.roots && dst in m.roots && src < |m.mem| && dst < |m.mem| && i < UTOP * PGSIZE
    requires !IsValid(Entry(m.mem, Leaf(dst, i / PGSIZE))) && IsValid(m.mem[src][i / PGSIZE / ENTRIES])
    requires var e := Entry(m.mem, Leaf(src, i / PGSIZE));
             IsValid(e) && Frame(e) < |m.mem| && IsLeaf(Flags(e)) && Flags(Pte(0, Flags(e))) == Flags(e)
    modifies m`mem, m`freelist, m`free, m`owner
    ensures m.Valid() && |m.mem| == |old(m.mem)|
    ensures ok <==> |old(m.free)| >= if IsValid(old(m.mem)[dst][i / PGSIZE / ENTRIES]) then 1 else 2
    ensures ok ==> |m.free| == |old(m.free)| - (if IsValid(old(m.mem)[dst][i / PGSIZE / ENTRIES]) then 1 else 2)
    ensures ok ==> TableAdded(old(m.mem), m.mem, dst, i / PGSIZE / ENTRIES)
    ensures ok ==> PageIs(m.mem, dst, i / PGSIZE, Content(old(m.mem), src, i / PGSIZE), Flags(Entry(old(m.mem), Leaf(src, i / PGSIZE))))
    ensures SameLeaves(old(m.mem), m.mem, m.roots, {Leaf(dst, i / PGSIZE)}) && OthersSame(old(m.mem), m.mem, m.roots, dst)
    ensures DataKept(old(m.mem), old(m.owner), m.mem, m.owner, {})
    ensures SpaceGrows(old(m.owner), m.owner, dst, i / PGSIZE, i / PGSIZE + 1)
    ensures !ok ==> m.owner == old(m.owner) && SameEntries(old(m.mem), m.mem, m.roots, {})
  {
    hide Owned, FreeList, PageIs, SpaceGrows, DataKept, SameLeaves, OthersSame, SameEntries, TableAdded, Entry, Pte, IsValid, IsLeaf;
    var found, t, j := m.Walk(src, i, false);
    var pa := Frame(m.mem[t][j]);
    var flags := Flags(m.mem[t][j]);
    ok := AddPage(m, dst, i / PGSIZE, m.mem[pa], flags);
  }

  lemma CopiedNone(mem: seq<Page>, src: nat, dst: nat)
    requires src < |mem| && dst < |mem|
    ensures Copied(mem, src, mem, dst, 0)
  {
  }

  lemma CopiedStep(m0: seq<Page>, src: nat, m1: seq<Page>, m2: seq<Page>, dst: nat, k: nat)
    requires src < |m0| && dst < |m1| && |m1| == |m2| && k < UTOP && Copied(m0, src, m1, dst, k)
    requires forall v: nat, q: Page, g: nat :: v < k && PageIs(m1, dst, v, q, g) ==> PageIs(m2, dst, v, q, g)
    requires Frame(Entry(m0, Leaf(src, k))) < |m0| && PageIs(m2, dst, k, Content(m0, src, k), Flags(Entry(m0, Leaf(src, k))))
    ensures Copied(m0, src, m2, dst, k + 1)
  {
    hide PageIs;
    forall v: nat | v < k + 1
      ensures Frame(Entry(m0, Leaf(src, v))) < |m0|
      ensures PageIs(m2, dst, v, Content(m0, src, v), Flags(Entry(m0, Leaf(src, v))))
    {
      var s := Leaf(src, v);
      assert v < k ==> PageIs(m1, dst, v, Content(m0, src, v), Flags(Entry(m0, s)));
    }
  }

  lemma CopiedMore(p: Pool, m0: seq<Page>, src: nat, m1: seq<Page>, o1: map<nat, Role>, m2: seq<Page>, o2: map<nat, Role>,
                   roots: set<nat>, dst: nat, k: nat, page: Page, flags: nat)
    requires Owned(p, m1, roots, o1, {}) && dst in roots && dst < |m1| && |m1| == |m2| && k < UTOP && UserSpace(m1, dst, k)
    requires SameLeaves(m1, m2, roots, {Leaf(dst, k)}) && DataKept(m1, o1, m2, o2, {}) && PageIs(m2, dst, k, page, flags)
    requires src < |m0| && Copied(m0, src, m1, dst, k) && Frame(Entry(m0, Leaf(src, k))) < |m0|
    requires page == Content(m0, src, k) && flags == Flags(Entry(m0, Leaf(src, k)))
    ensures UserSpace(m2, dst, k + 1) && Copied(m0, src, m2, dst, k + 1)
  {
    hide Owned, UserSpace, SameLeaves, DataKept, PageIs, Copied, Entry;
    OneMore(p, m1, o1, m2, o2, roots, dst, 0, k, page, flags);
    CopiedStep(m0, src, m1, m2, dst, k);
  }

  /** The page to be copied is mapped, and is still what it was at the start. */
  lemma SourcePage(p: Pool, m0: seq<Page>, o0: map<nat, Role>, m1: seq<Page>, o1: map<nat, Role>, roots: set<nat>,
                   src: nat, dst: nat, n: nat, k: nat)
    requires Owned(p, m0, roots, o0, {}) && Owned(p, m1, roots, o1, {}) && src in roots && src < |m0| && src != dst && k < n
    requires UserSpace(m0, src, n) && Grown(m0, o0, m1, o1, roots, dst, 0, k)
    ensures var e := Entry(m0, Leaf(src, k));
            && |m1| == |m0| && IsValid(m1[src][k / ENTRIES]) && Entry(m1, Leaf(src, k)) == e && IsValid(e)
            && Frame(e) < |m0| && m1[Frame(e)] == m0[Frame(e)] && Flags(e) < 1024 && IsLeaf(Flags(e)) && Flags(Pte(0, Flags(e))) == Flags(e)
  {
    var s := Leaf(src, k);
    var e := Entry(m0, s);
    assert IsValid(e) && SlotOk(m0, o0, s) && Entry(m1, s) == e;
    assert o0[Frame(e)] == Held(s);
    LeafBits(e / 1024, e % 1024);
    assert Flags(e) % 2 == 1;
    PteFields(0, Flags(e));
  }

  // ----- fork and sbrk -----

  /** The memory part of fork: allocproc's trapframe page and page table, then uvmcopy.  On every
      path on which memory runs out each frame ends with the keeper it had. */
  method Fork(m: Machine, src: nat, sz: nat, trampoline: nat) returns (ok: bool, trapframe: nat, child: nat)
    requires m.Valid() && src in m.roots && src < |m.mem| && sz < LIMIT && UserSpace(m.mem, src, PagesUp(sz)) && trampoline < LIMIT
    modifies m`mem, m`freelist, m`free, m`owner, m`gone, m`roots
    ensures m.Valid() && |m.mem| == |old(m.mem)|
    ensures SameEntries(old(m.mem), m.mem, old(m.roots), {}) && DataKept(old(m.mem), old(m.owner), m.mem, m.owner, {})
    ensures !ok ==> m.owner == old(m.owner) && m.roots == old(m.roots)
    ensures ok ==> trapframe % PGSIZE == 0 && trapframe < LIMIT
    ensures ok ==> child < |m.mem| && child !in old(m.roots) && m.roots == old(m.roots) + {child}
    ensures ok ==> ProcSpace(m.mem, child, PagesUp(sz)) && Copied(old(m.mem), src, m.mem, child, PagesUp(sz))
    ensures ok ==> Entry(m.mem, Leaf(child, TRAPFRAME / PGSIZE)) == Pte(trapframe / PGSIZE, PTE_R + PTE_W)
    ensures ok ==> Entry(m.mem, Leaf(child, TRAMPOLINE / PGSIZE)) == Pte(trampoline / PGSIZE, PTE_R + PTE_X)
    ensures ok ==> forall v: nat {:trigger Leaf(child, v)} :: v < NPAGES ==>
              (IsValid(Entry(m.mem, Leaf(child, v))) <==> v < PagesUp(sz) || v == TRAPFRAME / PGSIZE || v == TRAMPOLINE / PGSIZE)
    ensures ok ==> trapframe / PGSIZE in old(m.owner) && old(m.owner)[trapframe / PGSIZE] == Free
    ensures ok ==> SpaceBorn(old(m.owner)[trapframe / PGSIZE := Kernel], m.owner, child)
    ensures ok <==> |old(m.free)| >= 3 + PagesUp(sz) + (PagesUp(sz) + ENTRIES - 1) / ENTRIES
  {
    Bounds(m.p, m.mem, m.roots, m.owner, m.gone);
    hide Owned, FreeList, SameEntries, DataKept, UserSpace, Entry, Pte, Beside, SpaceBorn, Copied, Grown, ProcSpace, SpaceFreed, LastTable, Needed;
    NothingChanged(m.p, m.mem, m.roots, m.owner, {}, src);
    SameEntriesSelf(m.p, m.mem, m.roots, m.owner, {});
    FitsBelow(m.p, m.mem, m.roots, m.owner, src, PagesUp(sz));
    ok, child := false, 0;
    trapframe := m.Kalloc();
    if trapframe == 0 {
      return;
    }
    ghost var m1, o1, f := m.mem, m.owner, trapframe / PGSIZE;
    var pagetable := ProcPagetable(m, trapframe, trampoline);
    if pagetable == 0 {
      ghost var m2 := m.mem;
      var freed := m.Kfree(trapframe);
      NoTableBack(old(m.mem), old(m.owner), m1, o1, m2, m.mem, m.owner, m.roots, f);
      return;
    }
    child := pagetable / PGSIZE;
    NeededFresh(m.mem, child, PagesUp(sz));
    ok := ForkCopy(m, src, child, sz, trapframe, old(m.mem), old(m.owner), m1, o1, old(m.roots));
    if ok { PagesOf(m.mem, child, PagesUp(sz)); }
  }

  /** A process has the pages of its memory and the two at the top, and no other. */
  lemma PagesOf(mem: seq<Page>, root: nat, n: nat)
    requires root < |mem| && ProcSpace(mem, root, n)
    ensures forall v: nat {:trigger Leaf(root, v)} :: v < NPAGES ==>
              (IsValid(Entry(mem, Leaf(root, v))) <==> v < n || v == TRAPFRAME / PGSIZE || v == TRAMPOLINE / PGSIZE)
  {
    hide Entry, IsValid;
    forall v: nat | v < NPAGES
      ensures IsValid(Entry(mem, Leaf(root, v))) <==> v < n || v == TRAPFRAME / PGSIZE || v == TRAMPOLINE / PGSIZE
    {
    }
  }

  lemma FitsBelow(p: Pool, mem: seq<Page>, roots: set<nat>, owner: map<nat, Role>, root: nat, n: nat)
    requires Owned(p, mem, roots, owner, {}) && root in roots && root < |mem| && UserSpace(mem, root, n)
    ensures n <= TRAMPOLINE / PGSIZE / ENTRIES * ENTRIES
  {
    PagesBounded(p, mem, roots, owner, root, n);
  }

  /** fork from uvmcopy on. */
  method ForkCopy(m: Machine, src: nat, child: nat, sz: nat, trapframe: nat, ghost m0: seq<Page>, ghost o0: map<nat, Role>,
                  ghost m1: seq<Page>, ghost o1: map<nat, Role>, ghost roots: set<nat>) returns (ok: bool)
    requires m.Valid() && src in roots && child !in roots && m.roots == roots + {child} && child < |m.mem| && src < |m.mem|
    requires |m0| == |m1| == |m.mem| && Owned(m.p, m0, roots, o0, {}) && trapframe % PGSIZE == 0 && trapframe < LIMIT
    requires ProcSpace(m.mem, child, 0) && sz < LIMIT && UserSpace(m0, src, PagesUp(sz))
    requires var f := trapframe / PGSIZE;
             && f in o0 && o0[f] == Free && o1 == o0[f := Kernel] && forall x: nat :: x < |m0| && x != f ==> m1[x] == m0[x]
    requires SameEntries(m0, m1, roots, {}) && Beside(m1, o1, m.mem, m.owner, roots, child)
    modifies m`mem, m`freelist, m`free, m`owner, m`gone, m`roots
    ensures m.Valid() && |m.mem| == |old(m.mem)|
    ensures SameEntries(m0, m.mem, roots, {}) && DataKept(m0, o0, m.mem, m.owner, {})
    ensures !ok ==> m.owner == o0 && m.roots == roots
    ensures ok ==> m.roots == old(m.roots) && ProcSpace(m.mem, child, PagesUp(sz)) && Copied(m0, src, m.mem, child, PagesUp(sz))
    ensures ok ==> forall v: nat :: UTOP <= v < NPAGES ==> Entry(m.mem, Leaf(child, v)) == Entry(old(m.mem), Leaf(child, v))
    ensures ok ==> SpaceBorn(o1, m.owner, child)
    ensures ok <==> |old(m.free)| >= Needed(old(m.mem), child, 0, PagesUp(sz))
  {
    hide Owned, FreeList, SameEntries, DataKept, UserSpace, Entry, Pte, Beside, SpaceBorn, Copied, Grown, ProcSpace, Needed;
    ghost var m2, o2, f := m.mem, m.owner, trapframe / PGSIZE;
    SourceKept(m.p, m0, o0, m1, o1, m2, o2, roots, src, child, f, PagesUp(sz));
    SpaceOf(m2, child, 0);
    ok := Uvmcopy(m, src, child, sz);
    AfterCopy(m1, o1, m2, o2, m.mem, m.owner, roots, child, if ok then PagesUp(sz) else 0);
    if ok {
      CopiedFromStart(m.p, m0, o0, m1, o1, m2, o2, m.mem, roots, src, child, f, PagesUp(sz));
      Forked(m0, o0, m1, o1, m.mem, m.owner, roots, child, f);
    } else {
      ForkFailed(m, child, trapframe, m0, o0, m1, o1, roots);
    }
  }

  /** freeproc after uvmcopy failed: np->sz is still 0. */
  method ForkFailed(m: Machine, child: nat, trapframe: nat, ghost m0: seq<Page>, ghost o0: map<nat, Role>,
                    ghost m1: seq<Page>, ghost o1: map<nat, Role>, ghost roots: set<nat>)
    requires m.Valid() && child !in roots && m.roots == roots + {child} && child < |m.mem| && ProcSpace(m.mem, child, 0)
    requires |m0| == |m1| == |m.mem| && Owned(m.p, m0, roots, o0, {}) && trapframe % PGSIZE == 0 && trapframe < LIMIT
    requires var f := trapframe / PGSIZE;
             && f in o0 && o0[f] == Free && o1 == o0[f := Kernel] && forall x: nat :: x < |m0| && x != f ==> m1[x] == m0[x]
    requires SameEntries(m0, m1, roots, {}) && Beside(m1, o1, m.mem, m.owner, roots, child)
    modifies m`mem, m`freelist, m`free, m`owner, m`gone, m`roots
    ensures m.Valid() && |m.mem| == |old(m.mem)| && m.roots == roots && m.owner == o0
    ensures SameEntries(m0, m.mem, roots, {}) && DataKept(m0, o0, m.mem, m.owner, {})
  {
    Bounds(m.p, m.mem, m.roots, m.owner, m.gone);
    Bounds(m.p, m0, roots, o0, {});
    hide Owned, FreeList, SameEntries, DataKept, UserSpace, Entry, Beside, ProcSpace, SpaceFreed;
    ghost var m3, o3, f := m.mem, m.owner, trapframe / PGSIZE;
    StillKernel(m1, o1, m3, o3, roots, child, f);
    var freed := m.Kfree(trapframe);
    assert freed;
    ghost var m4, o4 := m.mem, m.owner;
    TrapframeBack(m0, o0, m1, o1, m3, o3, m4, o4, roots, child, f);
    ProcFreepagetable(m, child, 0);
    BornThenFreed(m.p, m0, o0, m4, o4, m.mem, m.owner, roots, child);
  }

  lemma SpaceOf(mem: seq<Page>, root: nat, n: nat)
    requires root < |mem| && ProcSpace(mem, root, n)
    ensures UserSpace(mem, root, n)
  {
  }

  lemma StillKernel(m1: seq<Page>, o1: map<nat, Role>, m3: seq<Page>, o3: map<nat, Role>, roots: set<nat>, child: nat, f: nat)
    requires Beside(m1, o1, m3, o3, roots, child) && f < |m1| && f in o1 && o1[f] == Kernel
    ensures f in o3 && o3[f] == Kernel
  {
  }

  lemma NoTableBack(m0: seq<Page>, o0: map<nat, Role>, m1: seq<Page>, o1: map<nat, Role>, m2: seq<Page>, m3: seq<Page>, o3: map<nat, Role>,
                    roots: set<nat>, f: nat)
    requires |m0| == |m1| == |m2| == |m3| && f in o0 && o0[f] == Free && o1 == o0[f := Kernel] && o3 == o1[f := Free]
    requires forall x: nat :: x < |m0| && x != f ==> m1[x] == m0[x]
    requires forall x: nat :: x < |m0| && x != f ==> m3[x] == m2[x]
    requires SameEntries(m0, m1, roots, {}) && SameEntries(m1, m2, roots, {}) && SameEntries(m2, m3, roots, {}) && DataKept(m1, o1, m2, o1, {})
    ensures o3 == o0 && SameEntries(m0, m3, roots, {}) && DataKept(m0, o0, m3, o3, {})
  {
    SameEntriesTrans(m0, m1, m2, roots, {});
    SameEntriesTrans(m0, m2, m3, roots, {});
    hide SameEntries;
    forall x: nat | x < |m0| && x in o0 && IsData(o0[x]) ensures m3[x] == m0[x] {
      assert x != f && o1[x] == o0[x];
    }
  }

  /** The parent's pages are as they were when the child's page table is ready. */
  lemma SourceKept(p: Pool, m0: seq<Page>, o0: map<nat, Role>, m1: seq<Page>, o1: map<nat, Role>, m2: seq<Page>, o2: map<nat, Role>,
                   roots: set<nat>, src: nat, child: nat, f: nat, n: nat)
    requires Owned(p, m0, roots, o0, {}) && |m0| == |m1| && src in roots && src < |m0| && child !in roots && UserSpace(m0, src, n)
    requires f in o0 && o0[f] == Free && o1 == o0[f := Kernel] && forall x: nat :: x < |m0| && x != f ==> m1[x] == m0[x]
    requires SameEntries(m0, m1, roots, {}) && Beside(m1, o1, m2, o2, roots, child)
    ensures |m2| == |m0| && UserSpace(m2, src, n)
    ensures forall v: nat :: v < n ==>
              && Entry(m2, Leaf(src, v)) == Entry(m0, Leaf(src, v)) && Frame(Entry(m0, Leaf(src, v))) < |m0|
              && Content(m2, src, v) == Content(m0, src, v)
  {
    SameEntriesTrans(m0, m1, m2, roots, {});
    forall v: nat | v < UTOP ensures Entry(m2, Leaf(src, v)) == Entry(m0, Leaf(src, v)) {
    }
    forall v: nat | v < n
      ensures Frame(Entry(m0, Leaf(src, v))) < |m0| && Content(m2, src, v) == Content(m0, src, v)
    {
      LeafHeld(p, m0, roots, o0, src, n, v);
      Bounds(p, m0, roots, o0, {});
      assert o1[Frame(Entry(m0, Leaf(src, v)))] == Held(Leaf(src, v));
    }
  }

  lemma CopiedFromStart(p: Pool, m0: seq<Page>, o0: map<nat, Role>, m1: seq<Page>, o1: map<nat, Role>, m2: seq<Page>, o2: map<nat, Role>,
                        m3: seq<Page>, roots: set<nat>, src: nat, child: nat, f: nat, n: nat)
    requires Owned(p, m0, roots, o0, {}) && |m0| == |m1| && src in roots && src < |m0| && child !in roots && UserSpace(m0, src, n)
    requires f in o0 && o0[f] == Free && o1 == o0[f := Kernel] && forall x: nat :: x < |m0| && x != f ==> m1[x] == m0[x]
    requires SameEntries(m0, m1, roots, {}) && Beside(m1, o1, m2, o2, roots, child)
    requires src < |m2| && child < |m3| && Copied(m2, src, m3, child, n)
    ensures Copied(m0, src, m3, child, n)
  {
    hide Owned, Beside, SameEntries, Entry, PageIs, IsValid, Frame, Flags;
    SourceKept(p, m0, o0, m1, o1, m2, o2, roots, src, child, f, n);
    forall v: nat | v < n
      ensures Frame(Entry(m0, Leaf(src, v))) < |m0| && PageIs(m3, child, v, Content(m0, src, v), Flags(Entry(m0, Leaf(src, v))))
    {
      var s := Leaf(child, v);
      assert PageIs(m3, child, v, Content(m2, src, v), Flags(Entry(m2, Leaf(src, v))));
    }
  }

  /** What uvmcopy did, seen from before the child's page table was made. */
  lemma AfterCopy(m1: seq<Page>, o1: map<nat, Role>, m2: seq<Page>, o2: map<nat, Role>, m3: seq<Page>, o3: map<nat, Role>,
                  roots: set<nat>, child: nat, n: nat)
    requires Beside(m1, o1, m2, o2, roots, child) && child !in roots && child < |m2|
    requires Grown(m2, o2, m3, o3, roots + {child}, child, 0, n) && ProcSpace(m2, child, 0) && UserSpace(m3, child, n)
    ensures Beside(m1, o1, m3, o3, roots, child) && ProcSpace(m3, child, n)
    ensures forall v: nat :: UTOP <= v < NPAGES ==> Entry(m3, Leaf(child, v)) == Entry(m2, Leaf(child, v))
  {
    hide Beside;
    BesideMapped(m1, o1, m2, o2, m3, o3, roots, child);
    assert Entry(m3, Leaf(child, TRAPFRAME / PGSIZE)) == Entry(m2, Leaf(child, TRAPFRAME / PGSIZE));
    assert Entry(m3, Leaf(child, TRAMPOLINE / PGSIZE)) == Entry(m2, Leaf(child, TRAMPOLINE / PGSIZE));
  }

  lemma TrapframeBack(m0: seq<Page>, o0: map<nat, Role>, m1: seq<Page>, o1: map<nat, Role>, m3: seq<Page>, o3: map<nat, Role>,
                      m4: seq<Page>, o4: map<nat, Role>, roots: set<nat>, child: nat, f: nat)
    requires |m0| == |m1| == |m3| == |m4| && child !in roots && child < |m3| && ProcSpace(m3, child, 0)
    requires f in o0 && o0[f] == Free && o1 == o0[f := Kernel] && forall x: nat :: x < |m0| && x != f ==> m1[x] == m0[x]
    requires SameEntries(m0, m1, roots, {}) && Beside(m1, o1, m3, o3, roots, child)
    requires o4 == o3[f := Free] && SameEntries(m3, m4, roots + {child}, {}) && forall x: nat :: x < |m0| && x != f ==> m4[x] == m3[x]
    ensures Beside(m0, o0, m4, o4, roots, child) && ProcSpace(m4, child, 0)
  {
    forall s | InSpace(s, roots) ensures Entry(m4, s) == Entry(m0, s) {
      assert InSpace(s, roots + {child}) && Entry(m4, s) == Entry(m3, s) && Entry(m3, s) == Entry(m1, s);
    }
    forall v: nat | v < NPAGES ensures Entry(m4, Leaf(child, v)) == Entry(m3, Leaf(child, v)) {
      assert InSpace(Leaf(child, v), roots + {child});
    }
    forall x: nat | x < |m0| && x in o0 && IsData(o0[x]) ensures x in o4 && o4[x] == o0[x] && m4[x] == m0[x] {
      assert x != f && o1[x] == o0[x] && o3[x] == o1[x];
    }
    forall x | x in o0 ensures o4[x] == o0[x] || (o0[x] == Free && BelongsTo(o4[x], x, child)) {
      assert x != f ==> o1[x] == o0[x] && o4[x] == o3[x];
    }
  }

  lemma Forked(m0: seq<Page>, o0: map<nat, Role>, m1: seq<Page>, o1: map<nat, Role>, m3: seq<Page>, o3: map<nat, Role>,
               roots: set<nat>, child: nat, f: nat)
    requires |m0| == |m1| && f in o0 && o0[f] == Free && o1 == o0[f := Kernel] && forall x: nat :: x < |m0| && x != f ==> m1[x] == m0[x]
    requires SameEntries(m0, m1, roots, {}) && Beside(m1, o1, m3, o3, roots, child)
    ensures SameEntries(m0, m3, roots, {}) && DataKept(m0, o0, m3, o3, {}) && SpaceBorn(o1, o3, child)
  {
    SameEntriesTrans(m0, m1, m3, roots, {});
    forall x: nat | x < |m0| && x in o0 && IsData(o0[x]) ensures x in o3 && o3[x] == o0[x] && m3[x] == m0[x] {
      assert x != f && o1[x] == o0[x];
    }
  }

  /** growproc.  A size never grows past 2^32, since memory is smaller.  A negative n that would take the
      size below 0 wraps, and growproc then reports success and changes nothing. */
  method Growproc(m: Machine, root: nat, sz: nat, n: int) returns (ret: int, sz2: nat)
    requires m.Valid() && root in m.roots && root < |m.mem| && sz < LIMIT && UserSpace(m.mem, root, PagesUp(sz))
    requires -0x8000_0000 <= n < 0x8000_0000
    modifies m`mem, m`freelist, m`free, m`owner, m`gone
    ensures m.Valid() && |m.mem| == |old(m.mem)| && sz2 < LIMIT && UserSpace(m.mem, root, PagesUp(sz2))
    ensures sz + n < LIMIT && (ret == 0 || ret == -1)
    ensures ret == -1 <==> n > 0 && |old(m.free)| < Needed(old(m.mem), root, PagesUp(sz), PagesUp(sz + n))
    ensures ret == -1 ==> sz2 == sz
    ensures ret == 0 ==> sz2 == if sz + n < 0 then sz else sz + n
    ensures ret == 0 && sz2 == sz <==> n == 0 || sz + n < 0
    ensures sz2 >= sz ==> Grown(old(m.mem), old(m.owner), m.mem, m.owner, m.roots, root, PagesUp(sz), PagesUp(sz2))
    ensures sz2 < sz ==> Unmapped(old(m.mem), m.mem, m.roots, root, PagesUp(sz2), PagesUp(sz)) && DataStays(old(m.mem), m.mem, m.owner)
                         && LeavesFreed(old(m.owner), m.owner, root, PagesUp(sz2), PagesUp(sz))
  {
    Bounds(m.p, m.mem, m.roots, m.owner, m.gone);
    PagesBounded(m.p, m.mem, m.roots, m.owner, root, PagesUp(sz));
    hide Owned, FreeList, Grown, Unmapped, LeavesFreed, DataStays, UserSpace, PageIs, Wrap32;
    GrownSelf(m.mem, m.owner, m.roots, root, PagesUp(sz));
    ret, sz2 := 0, sz;
    var newsz := Wrap32(sz, n);
    if n > 0 {
      var r, ok := Uvmalloc(m, root, sz, newsz, PTE_W);
      if r == 0 {
        return -1, sz;
      }
      sz2 := r;
    } else if n < 0 {
      sz2 := Shrink(m, root, sz, newsz);
    }
  }

  /** sbrk(-0x4000) in a program of three pages. */
  method ShrinkIgnored(m: Machine, root: nat) returns (ret: int, sz2: nat)
    requires m.Valid() && root in m.roots && root < |m.mem| && UserSpace(m.mem, root, 3)
    modifies m`mem, m`freelist, m`free, m`owner, m`gone
    ensures m.Valid() && |m.mem| == |old(m.mem)| && UserSpace(m.mem, root, 3)
    ensures ret == 0 && sz2 == 0x3000 && Wrap32(0x3000, -0x4000) == 0xFFFF_F000
  {
    assert PagesUp(0x3000) == 3;
    hide UserSpace, Grown, Machine.Valid;
    ret, sz2 := Growproc(m, root, 0x3000, -0x4000);
  }

  /** sz + n in 32 bits. */
  function Wrap32(sz: nat, n: int): (r: nat)
    requires sz < LIMIT && -0x8000_0000 <= n < 0x8000_0000
    ensures r < LIMIT && r == if sz + n < 0 then sz + n + LIMIT else if sz + n < LIMIT then sz + n else sz + n - LIMIT
  {
    (sz + n) % LIMIT
  }

  method Shrink(m: Machine, root: nat, sz: nat, newsz: nat) returns (sz2: nat)
    requires m.Valid() && root in m.roots && root < |m.mem| && sz < LIMIT && newsz < LIMIT && UserSpace(m.mem, root, PagesUp(sz))
    modifies m`mem, m`freelist, m`free, m`owner, m`gone
    ensures m.Valid() && |m.mem| == |old(m.mem)| && sz2 == if newsz < sz then newsz else sz
    ensures UserSpace(m.mem, root, PagesUp(sz2))
    ensures sz2 == sz ==> Grown(old(m.mem), old(m.owner), m.mem, m.owner, m.roots, root, PagesUp(sz), PagesUp(sz2))
    ensures Unmapped(old(m.mem), m.mem, m.roots, root, PagesUp(sz2), PagesUp(sz)) && DataStays(old(m.mem), m.mem, m.owner)
    ensures LeavesFreed(old(m.owner), m.owner, root, PagesUp(sz2), PagesUp(sz))
  {
    hide Owned, FreeList, Grown, Unmapped, LeavesFreed, DataStays, AllMapped, NoneMapped;
    Shrinkable(m.mem, root, sz, newsz);
    sz2 := Uvmdealloc(m, root, sz, newsz);
    Shrunk(m.p, old(m.mem), old(m.owner), m.mem, m.owner, m.roots, root, PagesUp(sz2), PagesUp(sz));
  }

  lemma Shrinkable(mem: seq<Page>, root: nat, sz: nat, newsz: nat)
    requires root < |mem| && UserSpace(mem, root, PagesUp(sz))
    ensures AllMapped(mem, root, if newsz < sz then PagesUp(newsz) else PagesUp(sz), PagesUp(sz))
  {
  }

  lemma Shrunk(p: Pool, m0: seq<Page>, o0: map<nat, Role>, m1: seq<Page>, o1: map<nat, Role>, roots: set<nat>, root: nat, lo: nat, hi: nat)
    requires Owned(p, m0, roots, o0, {}) && Owned(p, m1, roots, o1, {}) && root in roots && root < |m0| && lo <= hi
    requires UserSpace(m0, root, hi) && Unmapped(m0, m1, roots, root, lo, hi)
    requires LeavesFreed(o0, o1, root, lo, hi) && DataStays(m0, m1, o1)
    ensures UserSpace(m1, root, lo)
    ensures lo == hi ==> Grown(m0, o0, m1, o1, roots, root, lo, lo)
  {
    forall v: nat | v < UTOP ensures Entry(m1, Leaf(root, v)) == if lo <= v < hi then 0 else Entry(m0, Leaf(root, v)) {
    }
    if lo == hi {
      forall s | InSpace(s, roots) ensures Entry(m1, s) == Entry(m0, s) {
      }
      forall f: nat | f < |m0| && f in o0 && IsData(o0[f]) ensures f in o1 && o1[f] == o0[f] && m1[f] == m0[f] {
        assert o1[f] == o0[f];
      }
    }
  }
}
