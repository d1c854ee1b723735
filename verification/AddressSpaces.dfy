/** The user address spaces of vm.c and proc.c: growing, shrinking, copying and freeing them, with
    every path on which memory runs out. */
module AddressSpaces {
  import opened VmModel
  import opened VmCode

  /** User pages lie below the trapframe page. */
  const UTOP: nat := TRAPFRAME / PGSIZE

  /** PGROUNDUP(sz) / PGSIZE. */
  function PagesUp(sz: nat): nat { (sz + PGSIZE - 1) / PGSIZE }

  /** Exactly the pages below n are mapped for the user. */
  ghost predicate UserSpace(mem: seq<Page>, root: nat, n: nat)
    requires root < |mem|
  {
    n <= UTOP && AllMapped(mem, root, 0, n) && NoneMapped(mem, root, n, UTOP)
  }

  ghost predicate NoneMapped(mem: seq<Page>, root: nat, lo: nat, hi: nat)
    requires root < |mem| && hi <= NPAGES
  {
    forall v: nat {:trigger Leaf(root, v)} :: lo <= v < hi ==> !IsValid(Entry(mem, Leaf(root, v)))
  }

  /** Page v is mapped with these flags to a frame that holds `page`. */
  ghost predicate PageIs(mem: seq<Page>, root: nat, v: nat, page: Page, flags: nat)
    requires root < |mem| && v < NPAGES
  {
    var e := Entry(mem, Leaf(root, v));
    IsValid(e) && Flags(e) == flags && Frame(e) < |mem| && mem[Frame(e)] == page
  }

  /** Frames changed hands only from the free list to tables of this root and to its pages lo..hi-1. */
  ghost predicate SpaceGrows(o0: map<nat, Role>, o1: map<nat, Role>, root: nat, lo: nat, hi: nat) {
    o0.Keys == o1.Keys &&
    forall f {:trigger o1[f]} {:trigger o0[f]} :: f in o0 ==>
      o1[f] == o0[f] ||
      (o0[f] == Free && o1[f].Held? && o1[f].s.root == root && (o1[f].s.Table? || Ranged(o1[f].s, root, lo, hi)))
  }

  /** kalloc a page, fill it, map it; on failure the page goes back. */
  method AddPage(m: Machine, root: nat, k: nat, page: Page, perm: nat) returns (ok: bool)
    requires m.Valid() && root in m.roots && root < |m.mem| && k < UTOP && perm < 1024 && IsLeaf(perm)
    requires !IsValid(Entry(m.mem, Leaf(root, k)))
    modifies m`mem, m`freelist, m`free, m`owner
    ensures m.Valid() && |m.mem| == |old(m.mem)|
    ensures ok <==> |old(m.free)| >= if IsValid(old(m.mem)[root][k / ENTRIES]) then 1 else 2
    ensures |m.free| + 2 >= |old(m.free)|
    ensures ok ==> |m.free| == |old(m.free)| - (if IsValid(old(m.mem)[root][k / ENTRIES]) then 1 else 2)
    ensures ok ==> TableAdded(old(m.mem), m.mem, root, k / ENTRIES)
    ensures ok ==> PageIs(m.mem, root, k, page, Flags(Pte(0, perm)))
    ensures SameLeaves(old(m.mem), m.mem, m.roots, {Leaf(root, k)}) && OthersSame(old(m.mem), m.mem, m.roots, root)
    ensures DataKept(old(m.mem), old(m.owner), m.mem, m.owner, {})
    ensures SpaceGrows(old(m.owner), m.owner, root, k, k + 1)
    ensures !ok ==> m.owner == old(m.owner) && SameEntries(old(m.mem), m.mem, m.roots, {})
  {
    Bounds(m.p, m.mem, m.roots, m.owner, m.gone);
    hide Owned, FreeList, SameEntries, OthersSame, SameLeaves, DataKept, TablesGrow, TableAdded, SpaceGrows, Entry, Pte, IsValid, Frame, Flags, PageIs;
    Unchanged(m.p, m.mem, m.roots, m.owner, root, k);
    var pa := m.KallocFill(page);
    if pa == 0 {
      return false;
    }
    ghost var m2, o2, f := m.mem, m.owner, pa / PGSIZE;
    EntriesSame(old(m.mem), m2, m.roots, Leaf(root, k));
    var r := MapOne(m, root, k, pa, perm);
    if r != Done {
      ghost var m3 := m.mem;
      var freed := m.Kfree(pa);
      SameEntriesTrans(old(m.mem), m3, m.mem, m.roots, {});
      BackAgain(old(m.mem), m.mem, m.roots, old(m.owner), m.owner, root, k, f);
      return false;
    }
    RootKept(old(m.mem), m2, m.mem, root, k / ENTRIES);
    Added(m.p, old(m.mem), m2, m.mem, m.roots, old(m.owner), m.owner, root, k, f, perm, page);
    ok := true;
  }

  lemma RootKept(m0: seq<Page>, m1: seq<Page>, m2: seq<Page>, root: nat, i: nat)
    requires root < |m0| && root < |m1| && m1[root] == m0[root] && TableAdded(m1, m2, root, i)
    ensures TableAdded(m0, m2, root, i)
  {
  }

  /** mappages of a single page. */
  method MapOne(m: Machine, root: nat, k: nat, pa: nat, perm: nat) returns (r: Outcome)
    requires m.Valid() && root in m.roots && root < |m.mem| && k < NPAGES && pa < LIMIT && perm < 1024 && IsLeaf(perm)
    requires Counts(Leaf(root, k)) ==> pa / PGSIZE in m.owner && m.owner[pa / PGSIZE] == Kernel
    modifies m`mem, m`freelist, m`free, m`owner
    ensures m.Valid() && |m.mem| == |old(m.mem)|
    ensures r == Panic <==> IsValid(Entry(old(m.mem), Leaf(root, k)))
    ensures r == NoMemory <==> !IsValid(old(m.mem)[root][k / ENTRIES]) && old(m.free) == []
    ensures r == NoMemory ==> m.mem == old(m.mem) && m.freelist == old(m.freelist) && m.free == old(m.free) && m.owner == old(m.owner)
    ensures |m.free| + 1 >= |old(m.free)|
    ensures r == Done ==> |m.free| == |old(m.free)| - (if IsValid(old(m.mem)[root][k / ENTRIES]) then 0 else 1)
    ensures r == Done ==> TableAdded(old(m.mem), m.mem, root, k / ENTRIES)
    ensures r == Done ==> forall v: nat {:trigger Entry(m.mem, Leaf(root, v))} :: v < NPAGES ==>
              Entry(m.mem, Leaf(root, v)) == if v == k then Pte(pa / PGSIZE, perm) else Entry(old(m.mem), Leaf(root, v))
    ensures OthersSame(old(m.mem), m.mem, m.roots, root)
    ensures r == Done ==> DataKept(old(m.mem), MapOwner(old(m.owner), root, k, pa / PGSIZE), m.mem, m.owner, {})
    ensures r == Done ==> TablesGrow(MapOwner(old(m.owner), root, k, pa / PGSIZE), m.owner, root)
  {
    hide Owned, FreeList, OthersSame, DataKept, TablesGrow, TableAdded, Entry, Pte, IsValid, Frame, IndexOf, PageNo;
    OnePage(k, pa, m.owner, root);
    ghost var done;
    r, done := m.Mappages(root, k * PGSIZE, PGSIZE, pa, perm);
  }

  lemma Unchanged(p: Pool, mem: seq<Page>, roots: set<nat>, owner: map<nat, Role>, root: nat, k: nat)
    requires Owned(p, mem, roots, owner, {})
    ensures SameLeaves(mem, mem, roots, {Leaf(root, k)}) && OthersSame(mem, mem, roots, root) && SameEntries(mem, mem, roots, {})
    ensures DataKept(mem, owner, mem, owner, {}) && SpaceGrows(owner, owner, root, k, k + 1)
  {
  }

  lemma EntriesSame(m0: seq<Page>, m1: seq<Page>, roots: set<nat>, s: Slot)
    requires SameEntries(m0, m1, roots, {}) && InSpace(s, roots)
    ensures s.root < |m0| && Entry(m1, s) == Entry(m0, s)
    ensures s.Leaf? ==> m1[s.root][s.v / ENTRIES] == m0[s.root][s.v / ENTRIES]
  {
    assert Entry(m1, Above(s)) == Entry(m0, Above(s));
  }

  /** A page-sized region at a page boundary is that page. */
  lemma OnePage(k: nat, pa: nat, owner: map<nat, Role>, root: nat)
    requires k < NPAGES && pa < LIMIT
    ensures PageCount(k * PGSIZE, PGSIZE) == 1 && PageNo(k * PGSIZE, 0) == k && PageNo(pa, 0) == pa / PGSIZE
    ensures forall v: nat :: v < NPAGES ==> (IndexOf(k * PGSIZE, v) < 1 <==> v == k)
    ensures MapOwners(owner, root, k * PGSIZE, pa, 1) == MapOwner(owner, root, k, pa / PGSIZE)
    ensures MapOwners(owner, root, k * PGSIZE, pa, 0) == owner
  {
    CountPlain(k * PGSIZE, PGSIZE);
    forall v: nat | v < NPAGES ensures IndexOf(k * PGSIZE, v) < 1 <==> v == k {
      IndexInverse(k * PGSIZE, 0, v);
    }
  }

  /** kalloc and kfree of the same page change no role. */
  lemma BackAgain(m0: seq<Page>, m1: seq<Page>, roots: set<nat>, o0: map<nat, Role>, o1: map<nat, Role>, root: nat, k: nat, f: nat)
    requires SameEntries(m0, m1, roots, {}) && |m0| == |m1| && f in o0 && o0[f] == Free && o1 == o0[f := Kernel][f := Free]
    requires forall x: nat :: x < |m0| && x != f ==> m1[x] == m0[x]
    ensures o1 == o0 && SameLeaves(m0, m1, roots, {Leaf(root, k)}) && OthersSame(m0, m1, roots, root)
    ensures DataKept(m0, o0, m1, o1, {}) && SpaceGrows(o0, o1, root, k, k + 1)
  {
  }

  lemma Added(p: Pool, m0: seq<Page>, m2: seq<Page>, m3: seq<Page>, roots: set<nat>, o0: map<nat, Role>, o3: map<nat, Role>,
              root: nat, k: nat, f: nat, perm: nat, page: Page)
    requires |m0| == |m2| == |m3| && root in roots && root < |m0| && k < UTOP && perm < 1024 && f < |m0| && f < NPAGES
    requires f in o0 && o0[f] == Free && forall x: nat :: x < |m0| && x != f ==> m2[x] == m0[x]
    requires m2[f] == page && SameEntries(m0, m2, roots, {}) && OthersSame(m2, m3, roots, root)
    requires forall v: nat {:trigger Entry(m3, Leaf(root, v))} :: v < NPAGES ==>
               Entry(m3, Leaf(root, v)) == if v == k then Pte(f, perm) else Entry(m2, Leaf(root, v))
    requires DataKept(m2, MapOwner(o0[f := Kernel], root, k, f), m3, o3, {})
    requires TablesGrow(MapOwner(o0[f := Kernel], root, k, f), o3, root)
    ensures PageIs(m3, root, k, page, Flags(Pte(0, perm)))
    ensures SameLeaves(m0, m3, roots, {Leaf(root, k)}) && OthersSame(m0, m3, roots, root)
    ensures DataKept(m0, o0, m3, o3, {}) && SpaceGrows(o0, o3, root, k, k + 1)
  {
    hide Pte;
    PteFields(f, perm);
    PteFields(0, perm);
    forall s | InSpace(s, roots) && s.Leaf? && s != Leaf(root, k) ensures Entry(m3, s) == Entry(m0, s) {
      assert s == Leaf(s.root, s.v) && Entry(m2, s) == Entry(m0, s);
    }
    forall s | InSpace(s, roots) && s.root != root ensures Entry(m3, s) == Entry(m0, s) {
      assert Entry(m2, s) == Entry(m0, s);
    }
    var q := o0[f := Kernel][f := Held(Leaf(root, k))];
    assert MapOwner(o0[f := Kernel], root, k, f) == q;
    forall x: nat | x < |m0| && x in o0 && IsData(o0[x]) ensures x in o3 && o3[x] == o0[x] && m3[x] == m0[x] {
      assert x in q && q[x] == o0[x];
    }
    forall x | x in o0
      ensures o3[x] == o0[x] || (o0[x] == Free && o3[x].Held? && o3[x].s.root == root && (o3[x].s.Table? || Ranged(o3[x].s, root, k, k + 1)))
    {
      assert x in q;
    }
  }

  // ----- Growing a space page by page -----

  /** Pages lo..hi-1 were added to the space of root, and nothing else changed but free frames. */
  ghost predicate Grown(m0: seq<Page>, o0: map<nat, Role>, m1: seq<Page>, o1: map<nat, Role>, roots: set<nat>, root: nat, lo: nat, hi: nat) {
    && |m0| == |m1| && root in roots && root < |m0| && lo <= hi <= UTOP && (forall r :: r in roots ==> r < |m0|)
    && (forall s {:trigger Entry(m1, s)} :: InSpace(s, roots) && s.Leaf? && !Ranged(s, root, lo, hi) ==> Entry(m1, s) == Entry(m0, s))
    && OthersSame(m0, m1, roots, root) && DataKept(m0, o0, m1, o1, {}) && SpaceGrows(o0, o1, root, lo, hi)
    && AllMapped(m1, root, lo, hi)
  }

  lemma GrownSelf(mem: seq<Page>, owner: map<nat, Role>, roots: set<nat>, root: nat, lo: nat)
    requires root in roots && lo <= UTOP && forall r :: r in roots ==> r < |mem|
    ensures Grown(mem, owner, mem, owner, roots, root, lo, lo)
  {
  }

  lemma GrownStep(m0: seq<Page>, o0: map<nat, Role>, m1: seq<Page>, o1: map<nat, Role>, m2: seq<Page>, o2: map<nat, Role>,
                  roots: set<nat>, root: nat, lo: nat, k: nat, page: Page, flags: nat)
    requires Grown(m0, o0, m1, o1, roots, root, lo, k) && k < UTOP && |m1| == |m2|
    requires SameLeaves(m1, m2, roots, {Leaf(root, k)}) && OthersSame(m1, m2, roots, root)
    requires DataKept(m1, o1, m2, o2, {}) && SpaceGrows(o1, o2, root, k, k + 1) && PageIs(m2, root, k, page, flags)
    ensures Grown(m0, o0, m2, o2, roots, root, lo, k + 1)
  {
    forall s | InSpace(s, roots) && s.Leaf? && !Ranged(s, root, lo, k + 1) ensures Entry(m2, s) == Entry(m0, s) {
      assert s != Leaf(root, k) && Entry(m2, s) == Entry(m1, s);
    }
    forall s | InSpace(s, roots) && s.root != root ensures Entry(m2, s) == Entry(m0, s) {
      assert Entry(m2, s) == Entry(m1, s);
    }
    forall v: nat | lo <= v < k + 1 ensures IsValid(Entry(m2, Leaf(root, v))) {
      assert v != k ==> Entry(m2, Leaf(root, v)) == Entry(m1, Leaf(root, v));
    }
    GrowsTrans(o0, o1, o2, root, lo, k);
  }

  lemma GrowsTrans(o0: map<nat, Role>, o1: map<nat, Role>, o2: map<nat, Role>, root: nat, lo: nat, k: nat)
    requires SpaceGrows(o0, o1, root, lo, k) && SpaceGrows(o1, o2, root, k, k + 1) && lo <= k
    ensures SpaceGrows(o0, o2, root, lo, k + 1)
  {
    forall f | f in o0
      ensures o2[f] == o0[f] || (o0[f] == Free && o2[f].Held? && o2[f].s.root == root && (o2[f].s.Table? || Ranged(o2[f].s, root, lo, k + 1)))
    {
      assert f in o1 && (o2[f] == o1[f] || o1[f] == Free);
    }
  }

  /** A round that ran out of memory changed no entry and no role. */
  lemma GrownStill(m0: seq<Page>, o0: map<nat, Role>, m1: seq<Page>, o1: map<nat, Role>, m2: seq<Page>, roots: set<nat>, root: nat, lo: nat, k: nat)
    requires Grown(m0, o0, m1, o1, roots, root, lo, k) && |m1| == |m2|
    requires SameEntries(m1, m2, roots, {}) && DataKept(m1, o1, m2, o1, {})
    ensures Grown(m0, o0, m2, o1, roots, root, lo, k)
    ensures forall v: nat :: v < NPAGES ==> Entry(m2, Leaf(root, v)) == Entry(m1, Leaf(root, v))
  {
    forall s | InSpace(s, roots) ensures Entry(m2, s) == Entry(m1, s) {
    }
    forall v: nat | lo <= v < k ensures IsValid(Entry(m2, Leaf(root, v))) {
      assert Entry(m2, Leaf(root, v)) == Entry(m1, Leaf(root, v));
    }
  }

  /** Taking the added pages out again leaves the map as it was. */
  lemma GrownUndone(p: Pool, m0: seq<Page>, o0: map<nat, Role>, m1: seq<Page>, o1: map<nat, Role>, m2: seq<Page>, o2: map<nat, Role>,
                    roots: set<nat>, root: nat, lo: nat, k: nat)
    requires Owned(p, m0, roots, o0, {}) && Grown(m0, o0, m1, o1, roots, root, lo, k) && NoneMapped(m0, root, lo, UTOP)
    requires Unmapped(m1, m2, roots, root, lo, k) && LeavesFreed(o1, o2, root, lo, k) && DataStays(m1, m2, o2)
    ensures Grown(m0, o0, m2, o2, roots, root, lo, lo)
  {
    forall s | InSpace(s, roots) && s.Leaf? ensures Entry(m2, s) == Entry(m0, s) {
      if Ranged(s, root, lo, k) {
        assert s == Leaf(root, s.v) && SlotOk(m0, o0, s);
      } else {
        assert Entry(m2, s) == Entry(m1, s);
      }
    }
    forall s | InSpace(s, roots) && s.root != root ensures Entry(m2, s) == Entry(m0, s) {
      assert Entry(m2, s) == Entry(m1, s);
    }
    forall f | f in o0 && o0[f].Held? ensures !Ranged(o0[f].s, root, lo, k) {
      assert FrameOk(m0, roots, o0[f].s, {}, f);
      assert o0[f].s.Leaf? ==> o0[f].s == Leaf(o0[f].s.root, o0[f].s.v);
    }
    forall f: nat | f < |m0| && f in o0 && IsData(o0[f]) ensures f in o2 && o2[f] == o0[f] && m2[f] == m0[f] {
      assert o1[f] == o0[f];
    }
    forall f | f in o0
      ensures o2[f] == o0[f] || (o0[f] == Free && o2[f].Held? && o2[f].s.root == root && o2[f].s.Table?)
    {
      assert o2[f] == if o1[f].Held? && Ranged(o1[f].s, root, lo, k) then Free else o1[f];
    }
  }

  // ----- A space cannot have more pages than there are frames -----

  ghost function PoolFrames(lo: nat, hi: nat): (r: set<nat>)
    requires lo <= hi
    ensures |r| == hi - lo && forall f: nat :: f in r <==> lo <= f < hi
  {
    if lo == hi then {} else PoolFrames(lo, hi - 1) + {hi - 1}
  }

  ghost function MappedFrames(mem: seq<Page>, root: nat, n: nat): set<nat>
    requires root < |mem| && n <= NPAGES
  {
    if n == 0 then {} else MappedFrames(mem, root, n - 1) + {Frame(Entry(mem, Leaf(root, n - 1)))}
  }

  lemma {:induction false} MappedCount(p: Pool, mem: seq<Page>, roots: set<nat>, owner: map<nat, Role>, root: nat, n: nat)
    requires Owned(p, mem, roots, owner, {}) && root in roots && root < |mem| && n <= UTOP && AllMapped(mem, root, 0, n)
    ensures |MappedFrames(mem, root, n)| == n
    ensures forall f :: f in MappedFrames(mem, root, n) ==>
              f in owner && owner[f].Held? && owner[f].s.Leaf? && owner[f].s.root == root && owner[f].s.v < n
  {
    hide Owned, AllMapped, Entry, Frame, IsValid;
    if n == 0 {
    } else {
      MappedPrefix(mem, root, 0, n - 1, n);
      MappedCount(p, mem, roots, owner, root, n - 1);
      LeafHeld(p, mem, roots, owner, root, n, n - 1);
      assert Frame(Entry(mem, Leaf(root, n - 1))) !in MappedFrames(mem, root, n - 1);
    }
  }

  lemma LeafHeld(p: Pool, mem: seq<Page>, roots: set<nat>, owner: map<nat, Role>, root: nat, n: nat, v: nat)
    requires Owned(p, mem, roots, owner, {}) && root in roots && root < |mem| && v < n <= UTOP && AllMapped(mem, root, 0, n)
    ensures Frame(Entry(mem, Leaf(root, v))) in owner && owner[Frame(Entry(mem, Leaf(root, v)))] == Held(Leaf(root, v))
  {
    assert SlotOk(mem, owner, Leaf(root, v));
  }

  /** So growing a space meets the end of memory before it meets the trapframe page. */
  lemma PagesBounded(p: Pool, mem: seq<Page>, roots: set<nat>, owner: map<nat, Role>, root: nat, n: nat)
    requires Owned(p, mem, roots, owner, {}) && root in roots && root < |mem| && n <= UTOP && AllMapped(mem, root, 0, n)
    ensures n <= p.stop - p.first < UTOP
  {
    MappedCount(p, mem, roots, owner, root, n);
    var all := PoolFrames(p.first, p.stop);
    var some := MappedFrames(mem, root, n);
    assert some <= all;
    assert all == some + (all - some);
  }

  // ----- uvmalloc, uvmdealloc, growproc -----

  /** uvmdealloc. */
  method Uvmdealloc(m: Machine, root: nat, oldsz: nat, newsz: nat) returns (r: nat)
    requires m.Valid() && root in m.roots && root < |m.mem| && oldsz < LIMIT && newsz < LIMIT
    requires PagesUp(oldsz) <= UTOP && AllMapped(m.mem, root, if newsz < oldsz then PagesUp(newsz) else PagesUp(oldsz), PagesUp(oldsz))
    modifies m`mem, m`freelist, m`free, m`owner, m`gone
    ensures m.Valid() && |m.mem| == |old(m.mem)| && r == if newsz < oldsz then newsz else oldsz
    ensures Unmapped(old(m.mem), m.mem, m.roots, root, PagesUp(r), PagesUp(oldsz))
    ensures LeavesFreed(old(m.owner), m.owner, root, PagesUp(r), PagesUp(oldsz)) && DataStays(old(m.mem), m.mem, m.owner)
  {
    Bounds(m.p, m.mem, m.roots, m.owner, m.gone);
    hide Owned, FreeList, Unmapped, LeavesFreed, DataStays, AllMapped;
    UnmappedSelf(m.mem, m.roots, m.owner, root, PagesUp(oldsz));
    DataSelf(m.mem, m.owner);
    if newsz >= oldsz {
      return oldsz;
    }
    Rounding(newsz);
    Rounding(oldsz);
    if Pgroundup(newsz) < Pgroundup(oldsz) {
      var npages := (Pgroundup(oldsz) - Pgroundup(newsz)) / PGSIZE;
      var ok := m.Uvmunmap(root, Pgroundup(newsz), npages, true);
      assert ok;
    }
    r := newsz;
  }

  /** PGROUNDUP in 32 bits. */
  function Pgroundup(sz: nat): nat { (sz + PGSIZE - 1) % LIMIT / PGSIZE * PGSIZE }

  lemma Rounding(sz: nat)
    requires PagesUp(sz) <= UTOP
    ensures Pgroundup(sz) == PagesUp(sz) * PGSIZE && Pgroundup(sz) / PGSIZE == PagesUp(sz) && Pgroundup(sz) < LIMIT
    ensures PagesUp(PagesUp(sz) * PGSIZE) == PagesUp(sz) && PagesUp(sz) * PGSIZE % PGSIZE == 0
  {
  }

  /** PTE_R | PTE_U | xperm. */
  function UserPerm(xperm: nat): nat { PTE_R + PTE_U + xperm }

  /** The frames that mapping pages lo..hi-1 takes: one for each page, and one for each table that is
      not there yet. */
  ghost function Needed(mem: seq<Page>, root: nat, lo: nat, hi: nat): nat
    requires root < |mem| && lo <= hi <= NPAGES
  {
    if lo == hi then 0
    else Needed(mem, root, lo, hi - 1) + (if !IsValid(mem[root][(hi - 1) / ENTRIES]) && (hi - 1 == lo || (hi - 1) % ENTRIES == 0) then 2 else 1)
  }

  lemma {:induction false} NeededGrows(mem: seq<Page>, root: nat, lo: nat, k: nat, hi: nat)
    requires root < |mem| && lo <= k <= hi <= NPAGES
    ensures Needed(mem, root, lo, k) <= Needed(mem, root, lo, hi) <= 2 * (hi - lo)
    decreases hi - k
  {
    if k == hi {
      NeededBound(mem, root, lo, hi);
    } else {
      NeededGrows(mem, root, lo, k + 1, hi);
    }
  }

  lemma {:induction false} NeededBound(mem: seq<Page>, root: nat, lo: nat, hi: nat)
    requires root < |mem| && lo <= hi <= NPAGES
    ensures hi - lo <= Needed(mem, root, lo, hi) <= 2 * (hi - lo)
  {
    if lo == hi {
    } else {
      NeededBound(mem, root, lo, hi - 1);
    }
  }

  /** The tables of pages lo..k-1 are there now, beside those that were. */
  ghost predicate TablesTo(m0: seq<Page>, m1: seq<Page>, root: nat, lo: nat, k: nat) {
    && root < |m0| && root < |m1|
    && forall x: nat :: x < ENTRIES ==>
         (IsValid(m1[root][x]) <==> IsValid(m0[root][x]) || (lo < k && lo / ENTRIES <= x <= (k - 1) / ENTRIES))
  }

  /** What the next page costs. */
  lemma NextCost(m0: seq<Page>, m1: seq<Page>, root: nat, lo: nat, k: nat)
    requires TablesTo(m0, m1, root, lo, k) && lo <= k < NPAGES
    ensures Needed(m0, root, lo, k + 1) == Needed(m0, root, lo, k) + if IsValid(m1[root][k / ENTRIES]) then 1 else 2
  {
    if k > lo {
      SameTable(k);
    }
  }

  lemma SameTable(k: nat)
    requires k > 0
    ensures (k - 1) / ENTRIES == if k % ENTRIES == 0 then k / ENTRIES - 1 else k / ENTRIES
  {
  }

  lemma TablesStep(m0: seq<Page>, m1: seq<Page>, m2: seq<Page>, root: nat, lo: nat, k: nat)
    requires TablesTo(m0, m1, root, lo, k) && lo <= k < NPAGES && TableAdded(m1, m2, root, k / ENTRIES)
    ensures TablesTo(m0, m2, root, lo, k + 1)
  {
    if k > lo {
      SameTable(k);
    }
  }

  lemma NoTablesYet(mem: seq<Page>, root: nat, lo: nat)
    requires root < |mem| && lo <= NPAGES
    ensures TablesTo(mem, mem, root, lo, lo) && Needed(mem, root, lo, lo) == 0
  {
  }

  /** uvmalloc.  It never panics: memory runs out before the space can reach the trapframe page. */
  method Uvmalloc(m: Machine, root: nat, oldsz: nat, newsz: nat, xperm: nat) returns (r: nat, ghost ok: bool)
    requires m.Valid() && root in m.roots && root < |m.mem| && oldsz < LIMIT && newsz < LIMIT
    requires UserSpace(m.mem, root, PagesUp(oldsz)) && xperm in {0, PTE_W, PTE_X, PTE_W + PTE_X}
    modifies m`mem, m`freelist, m`free, m`owner, m`gone
    ensures m.Valid() && |m.mem| == |old(m.mem)|
    ensures r == if !ok then 0 else if newsz < oldsz then oldsz else newsz
    ensures var n := if ok then PagesUp(r) else PagesUp(oldsz);
            && Grown(old(m.mem), old(m.owner), m.mem, m.owner, m.roots, root, PagesUp(oldsz), n)
            && UserSpace(m.mem, root, n)
            && forall v: nat {:trigger Leaf(root, v)} :: PagesUp(oldsz) <= v < n ==> PageIs(m.mem, root, v, Filled(0), UserPerm(xperm) + PTE_V)
    ensures ok <==> newsz < oldsz || |old(m.free)| >= Needed(old(m.mem), root, PagesUp(oldsz), PagesUp(newsz))
  {
    hide Owned, FreeList, Grown, AllMapped, NoneMapped, PageIs, SpaceGrows, DataKept, SameLeaves, OthersSame, SameEntries, Entry, Pte, IsValid, Unmapped, LeavesFreed, DataStays, Needed, TablesTo, TableAdded;
    ghost var lo := PagesUp(oldsz);
    NoTablesYet(m.mem, root, lo);
    Bounds(m.p, m.mem, m.roots, m.owner, m.gone);
    PagesBounded(m.p, m.mem, m.roots, m.owner, root, lo);
    GrownSelf(m.mem, m.owner, m.roots, root, lo);
    Rounding(oldsz);
    if newsz < oldsz {
      return oldsz, true;
    }
    var perm := UserPerm(xperm);
    PermBits(xperm);
    var start := Pgroundup(oldsz);
    var a := start;
    ghost var k := lo;
    while a < newsz
      invariant lo <= k <= UTOP && a == k * PGSIZE && (k > lo ==> k <= PagesUp(newsz)) && m.Valid() && |m.mem| == |old(m.mem)|
      invariant Grown(old(m.mem), old(m.owner), m.mem, m.owner, m.roots, root, lo, k)
      invariant UserSpace(m.mem, root, k)
      invariant forall v: nat {:trigger PageIs(m.mem, root, v, Filled(0), perm + PTE_V)} :: lo <= v < k ==> PageIs(m.mem, root, v, Filled(0), perm + PTE_V)
      invariant |m.free| + Needed(old(m.mem), root, lo, k) == |old(m.free)| && TablesTo(old(m.mem), m.mem, root, lo, k)
    {
      ghost var m1, o1 := m.mem, m.owner;
      NextCost(old(m.mem), m1, root, lo, k);
      NeededGrows(old(m.mem), root, lo, k + 1, PagesUp(newsz));
      PagesBounded(m.p, m1, m.roots, o1, root, k);
      Room(m1, root, k);
      var ok1 := AddPage(m, root, a / PGSIZE, Filled(0), perm);
      if !ok1 {
        GrownStill(old(m.mem), old(m.owner), m1, o1, m.mem, m.roots, root, lo, k);
        ghost var m2 := m.mem;
        GrownMapped(old(m.mem), old(m.owner), m2, o1, m.roots, root, lo, k);
        var r1 := Uvmdealloc(m, root, a, start);
        GrownUndone(m.p, old(m.mem), old(m.owner), m2, o1, m.mem, m.owner, m.roots, root, lo, k);
        SpaceBack(old(m.mem), old(m.owner), m.mem, m.owner, m.roots, root, lo);
        return 0, false;
      }
      GrownStep(old(m.mem), old(m.owner), m1, o1, m.mem, m.owner, m.roots, root, lo, k, Filled(0), perm + PTE_V);
      OneMore(m.p, m1, o1, m.mem, m.owner, m.roots, root, lo, k, Filled(0), perm + PTE_V);
      TablesStep(old(m.mem), m1, m.mem, root, lo, k);
      a := a + PGSIZE;
      k := k + 1;
    }
    r, ok := newsz, true;
  }

  lemma PermBits(xperm: nat)
    requires xperm in {0, PTE_W, PTE_X, PTE_W + PTE_X}
    ensures UserPerm(xperm) < 1024 && IsLeaf(UserPerm(xperm)) && Flags(Pte(0, UserPerm(xperm))) == UserPerm(xperm) + PTE_V
  {
    PteFields(0, UserPerm(xperm));
  }

  lemma Room(mem: seq<Page>, root: nat, k: nat)
    requires root < |mem| && UserSpace(mem, root, k) && k < UTOP
    ensures !IsValid(Entry(mem, Leaf(root, k)))
  {
  }

  lemma GrownMapped(m0: seq<Page>, o0: map<nat, Role>, m1: seq<Page>, o1: map<nat, Role>, roots: set<nat>, root: nat, lo: nat, k: nat)
    requires Grown(m0, o0, m1, o1, roots, root, lo, k)
    ensures root < |m1| && k <= UTOP && AllMapped(m1, root, lo, k)
  {
  }

  lemma SpaceBack(m0: seq<Page>, o0: map<nat, Role>, m1: seq<Page>, o1: map<nat, Role>, roots: set<nat>, root: nat, n: nat)
    requires Grown(m0, o0, m1, o1, roots, root, n, n) && UserSpace(m0, root, n)
    ensures UserSpace(m1, root, n)
  {
    forall v: nat | v < UTOP ensures Entry(m1, Leaf(root, v)) == Entry(m0, Leaf(root, v)) {
    }
  }

  /** A page more, and the pages before it as they were. */
  lemma OneMore(p: Pool, m1: seq<Page>, o1: map<nat, Role>, m2: seq<Page>, o2: map<nat, Role>, roots: set<nat>,
                root: nat, lo: nat, k: nat, page: Page, flags: nat)
    requires Owned(p, m1, roots, o1, {}) && root in roots && root < |m1| && |m1| == |m2| && k < UTOP && UserSpace(m1, root, k)
    requires SameLeaves(m1, m2, roots, {Leaf(root, k)}) && DataKept(m1, o1, m2, o2, {}) && PageIs(m2, root, k, page, flags)
    ensures UserSpace(m2, root, k + 1)
    ensures forall v: nat, q: Page, g: nat :: v < k && PageIs(m1, root, v, q, g) ==> PageIs(m2, root, v, q, g)
  {
    forall v: nat | v < UTOP && v != k ensures Entry(m2, Leaf(root, v)) == Entry(m1, Leaf(root, v)) {
    }
    forall v: nat, q: Page, g: nat | v < k && PageIs(m1, root, v, q, g) ensures PageIs(m2, root, v, q, g) {
      assert SlotOk(m1, o1, Leaf(root, v));
      assert o1[Frame(Entry(m1, Leaf(root, v)))] == Held(Leaf(root, v));
    }
  }
}
