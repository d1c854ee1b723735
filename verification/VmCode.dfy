/** kalloc.c and vm.c over physical memory: a free list threaded through its own pages, and page
    tables whose every frame has one keeper. */
module VmCode {
  import opened VmModel

  datatype Outcome = Done | NoMemory | Panic

  class Machine {
    const p: Pool
    var mem: seq<Page>
    var freelist: nat
    /** The frames of the free list, in order. */
    ghost var free: seq<nat>
    ghost var owner: map<nat, Role>
    ghost var roots: set<nat>
    /** Entries that are being taken apart. */
    ghost var gone: set<Slot>

    ghost predicate Partial()
      reads this
    {
      Owned(p, mem, roots, owner, gone) && FreeList(mem, freelist, free, owner)
    }

    ghost predicate Valid()
      reads this
    {
      Partial() && gone == {}
    }

    lemma Facts()
      requires Valid()
      ensures Sane(p, mem, roots) && Owned(p, mem, roots, owner, {}) && forall f: nat :: f in owner <==> p.first <= f < p.stop
      ensures forall f :: f in roots <==> f in owner && owner[f] == Root
    {
      Bounds(p, mem, roots, owner, gone);
    }

    /** kinit: freerange over the page-aligned range from the end of the kernel to PHYSTOP. */
    constructor (end: nat, physstop: nat, memory: seq<Page>)
      requires KERNBASE < end <= physstop < LIMIT && physstop % PGSIZE == 0 && |memory| == physstop / PGSIZE
      ensures Valid() && roots == {} && p == Pool((end + PGSIZE - 1) / PGSIZE, physstop / PGSIZE)
      ensures forall f :: p.first <= f < p.stop ==> f in owner && owner[f] == Free
      ensures |mem| == |memory| && forall f :: 0 <= f < p.first ==> mem[f] == memory[f]
    {
      p := Pool((end + PGSIZE - 1) / PGSIZE, physstop / PGSIZE);
      mem, freelist, free, roots, gone := memory, 0, [], {}, {};
      owner := AllKernel((end + PGSIZE - 1) / PGSIZE, physstop / PGSIZE);
      new;
      hide Owned, FreeList;
      KernelsOnly(p, mem, owner);
      Freerange(end, physstop);
    }

    /** freerange over every page the kernel does not use. */
    method Freerange(start: nat, end: nat)
      requires Valid() && end < LIMIT && p.stop == end / PGSIZE && p.first == (start + PGSIZE - 1) / PGSIZE
      requires forall f :: f in owner ==> owner[f] == Kernel
      modifies this`mem, this`freelist, this`free, this`owner
      ensures Valid() && |mem| == |old(mem)|
      ensures forall f :: p.first <= f < p.stop ==> f in owner && owner[f] == Free
      ensures forall f :: 0 <= f < p.first && f < |mem| ==> mem[f] == old(mem)[f]
    {
      hide Owned, FreeList, Sane;
      Facts();
      var a := (start + PGSIZE - 1) / PGSIZE * PGSIZE;
      ghost var k := p.first;
      while a + PGSIZE <= end
        invariant Valid() && p.first <= k <= p.stop && a == k * PGSIZE
        invariant forall f: nat :: f in owner <==> p.first <= f < p.stop
        invariant forall f: nat :: f in owner ==> owner[f] == if f < k then Free else Kernel
        invariant |mem| == |old(mem)| && forall f :: 0 <= f < p.first && f < |mem| ==> mem[f] == old(mem)[f]
      {
        assert a / PGSIZE == k;
        var ok := Kfree(a);
        a := a + PGSIZE;
        k := k + 1;
      }
    }

    /** kfree; false is its panic. */
    method Kfree(pa: nat) returns (ok: bool)
      requires Partial() && pa < LIMIT
      requires pa / PGSIZE in owner ==> owner[pa / PGSIZE] == Kernel
      modifies this`mem, this`freelist, this`free, this`owner
      ensures Partial() && |mem| == |old(mem)|
      ensures ok <==> pa % PGSIZE == 0 && p.first * PGSIZE <= pa < p.stop * PGSIZE
      ensures !ok ==> mem == old(mem) && freelist == old(freelist) && free == old(free) && owner == old(owner)
      ensures ok ==> pa / PGSIZE in old(owner) && free == [pa / PGSIZE] + old(free) && owner == old(owner)[pa / PGSIZE := Free]
      ensures ok ==> forall f: nat :: f < |mem| && f != pa / PGSIZE ==> mem[f] == old(mem)[f]
      ensures SameEntries(old(mem), mem, roots, gone)
    {
      Bounds(p, mem, roots, owner, gone);
      hide Owned, FreeList, SameEntries;
      SameEntriesSelf(p, mem, roots, owner, gone);
      if pa % PGSIZE != 0 || pa < p.first * PGSIZE || pa >= p.stop * PGSIZE {
        return false;
      }
      ghost var m0, f := mem, pa / PGSIZE;
      var page: seq<nat> := Filled(0x01010101);
      page := page[0 := freelist];
      StoreElsewhere(p, mem, roots, owner, gone, f, page);
      ListPush(mem, freelist, free, owner, f, page);
      mem := mem[pa / PGSIZE := page];
      freelist := pa;
      free := [f] + free;
      OwnedSame(p, m0, mem, roots, owner, gone);
      OwnedRole(p, mem, roots, owner, gone, f, Free);
      owner := owner[f := Free];
      ok := true;
    }

    /** kalloc; 0 when the list is empty. */
    method Kalloc() returns (pa: nat)
      requires Partial()
      modifies this`mem, this`freelist, this`free, this`owner
      ensures Partial() && |mem| == |old(mem)|
      ensures pa == 0 <==> old(free) == []
      ensures pa == 0 ==> mem == old(mem) && freelist == old(freelist) && free == old(free) && owner == old(owner)
      ensures pa != 0 ==> pa % PGSIZE == 0 && p.first <= pa / PGSIZE < |mem| && pa < LIMIT
      ensures pa != 0 ==> pa / PGSIZE in old(owner) && old(owner)[pa / PGSIZE] == Free
      ensures pa != 0 ==> old(free) == [pa / PGSIZE] + free && owner == old(owner)[pa / PGSIZE := Kernel]
      ensures forall f: nat :: f < |mem| && (pa == 0 || f != pa / PGSIZE) ==> mem[f] == old(mem)[f]
      ensures SameEntries(old(mem), mem, roots, gone)
    {
      Bounds(p, mem, roots, owner, gone);
      Listed(mem, freelist, free, owner);
      hide Owned, FreeList, SameEntries;
      SameEntriesSelf(p, mem, roots, owner, gone);
      pa := freelist;
      if pa != 0 {
        ghost var m0, f := mem, pa / PGSIZE;
        ListPop(mem, freelist, free, owner, Filled(0x05050505));
        StoreElsewhere(p, mem, roots, owner, gone, f, Filled(0x05050505));
        freelist := mem[pa / PGSIZE][0];
        mem := mem[pa / PGSIZE := Filled(0x05050505)];
        OwnedSame(p, m0, mem, roots, owner, gone);
        OwnedRole(p, mem, roots, owner, gone, f, Kernel);
        free := free[1..];
        owner := owner[f := Kernel];
      }
    }

    /** kmemory: the number of free pages. */
    method Kmemory() returns (n: nat)
      requires Valid()
      ensures n == |free|
    {
      hide Owned;
      Bounds(p, mem, roots, owner, gone);
      ListEnd(mem, freelist, free, owner, 0);
      n := 0;
      var r := freelist;
      while r != 0
        invariant n <= |free| && r == Next(free, n) && (r == 0 <==> n == |free|)
        decreases |free| - n
      {
        assert LinkAt(mem, free, n);
        r := mem[r / PGSIZE][0];
        n := n + 1;
        ListEnd(mem, freelist, free, owner, n);
      }
    }

    /** memset of a page the kernel holds. */
    method Fill(pa: nat, page: Page)
      requires Partial() && pa < LIMIT && pa / PGSIZE in owner && owner[pa / PGSIZE] == Kernel
      modifies this`mem
      ensures Partial() && pa / PGSIZE < |old(mem)| && mem == old(mem)[pa / PGSIZE := page]
      ensures SameEntries(old(mem), mem, roots, gone)
    {
      Bounds(p, mem, roots, owner, gone);
      Listed(mem, freelist, free, owner);
      hide Owned, FreeList, SameEntries;
      ghost var m0 := mem;
      StoreElsewhere(p, mem, roots, owner, gone, pa / PGSIZE, page);
      mem := mem[pa / PGSIZE := page];
      OwnedSame(p, m0, mem, roots, owner, gone);
      ListStore(m0, mem, freelist, free, owner, owner);
    }

    /** kalloc, then memset or memmove of the whole page. */
    method KallocFill(page: Page) returns (pa: nat)
      requires Partial()
      modifies this`mem, this`freelist, this`free, this`owner
      ensures Partial() && |mem| == |old(mem)|
      ensures pa == 0 <==> old(free) == []
      ensures pa == 0 ==> mem == old(mem) && freelist == old(freelist) && free == old(free) && owner == old(owner)
      ensures pa != 0 ==> pa % PGSIZE == 0 && p.first <= pa / PGSIZE < |mem| && pa < LIMIT
      ensures pa != 0 ==> pa / PGSIZE in old(owner) && old(owner)[pa / PGSIZE] == Free && mem[pa / PGSIZE] == page
      ensures pa != 0 ==> old(free) == [pa / PGSIZE] + free && owner == old(owner)[pa / PGSIZE := Kernel]
      ensures forall f: nat :: f < |mem| && (pa == 0 || f != pa / PGSIZE) ==> mem[f] == old(mem)[f]
      ensures SameEntries(old(mem), mem, roots, gone)
    {
      hide Owned, FreeList, SameEntries;
      pa := Kalloc();
      if pa != 0 {
        Bounds(p, mem, roots, owner, gone);
        ghost var m1 := mem;
        Fill(pa, page);
        SameEntriesTrans(old(mem), m1, mem, roots, gone);
      }
    }

    /** The branch of walk that allocates the lower table. */
    method NewTable(root: nat, i: nat) returns (ok: bool)
      requires Valid() && root in roots && i < ENTRIES && root < |mem| && !IsValid(mem[root][i])
      modifies this`mem, this`freelist, this`free, this`owner
      ensures Valid() && |mem| == |old(mem)| && (ok <==> old(free) != [])
      ensures !ok ==> mem == old(mem) && freelist == old(freelist) && free == old(free) && owner == old(owner)
      ensures ok ==> root < |mem| && IsValid(mem[root][i]) && |free| == |old(free)| - 1 && TableAdded(old(mem), mem, root, i)
      ensures SameLeaves(old(mem), mem, roots, {}) && OthersSame(old(mem), mem, roots, root)
      ensures DataKept(old(mem), old(owner), mem, owner, {}) && TablesGrow(old(owner), owner, root)
    {
      Bounds(p, mem, roots, owner, gone);
      hide Owned, FreeList, SameEntries, OthersSame, DataKept, SameLeaves, TablesGrow, TableAdded, Entry, Pte, IsValid, Frame;
      NothingChanged(p, mem, roots, owner, gone, root);
      var pa := KallocFill(Filled(0));
      if pa == 0 {
        return false;
      }
      Listed(mem, freelist, free, owner);
      ghost var m1, o1, f := mem, owner, pa / PGSIZE;
      var table: seq<nat> := mem[root];
      table := table[i := Pte(pa / PGSIZE, 0)];
      mem := mem[root := table];
      owner := owner[f := Held(Table(root, i))];
      TableMade(p, old(mem), m1, mem, roots, old(owner), o1, owner, freelist, free, root, i, f);
      ok := true;
    }

    /** walk: the frame and index of the entry for va.  The loop over levels runs once. */
    method Walk(root: nat, va: nat, alloc: bool) returns (ok: bool, t: nat, j: nat)
      requires Valid() && root in roots && root < |mem| && va < LIMIT
      modifies this`mem, this`freelist, this`free, this`owner
      ensures Valid() && |mem| == |old(mem)|
      ensures ok <==> IsValid(old(mem)[root][va / PGSIZE / ENTRIES]) || (alloc && old(free) != [])
      ensures ok ==> IsValid(mem[root][va / PGSIZE / ENTRIES]) && t == Frame(mem[root][va / PGSIZE / ENTRIES])
      ensures |free| + 1 >= |old(free)|
      ensures ok ==> |free| == |old(free)| - (if IsValid(old(mem)[root][va / PGSIZE / ENTRIES]) then 0 else 1)
      ensures ok ==> TableAdded(old(mem), mem, root, va / PGSIZE / ENTRIES)
      ensures ok ==> t < |mem| && j == va / PGSIZE % ENTRIES && mem[t][j] == Entry(mem, Leaf(root, va / PGSIZE))
      ensures !ok || IsValid(old(mem)[root][va / PGSIZE / ENTRIES]) ==>
                mem == old(mem) && freelist == old(freelist) && free == old(free) && owner == old(owner)
      ensures SameLeaves(old(mem), mem, roots, {}) && OthersSame(old(mem), mem, roots, root)
      ensures DataKept(old(mem), old(owner), mem, owner, {}) && TablesGrow(old(owner), owner, root)
    {
      Bounds(p, mem, roots, owner, gone);
      hide Owned, FreeList, OthersSame, DataKept, SameLeaves, TablesGrow;
      NothingChanged(p, mem, roots, owner, gone, root);
      ok, t, j := true, 0, 0;
      if !IsValid(mem[root][va / 0x400000 % ENTRIES]) {
        if alloc {
          ok := NewTable(root, va / 0x400000 % ENTRIES);
        } else {
          ok := false;
        }
        if !ok { return; }
      }
      t := Frame(mem[root][va / 0x400000 % ENTRIES]);
      j := va / PGSIZE % ENTRIES;
      StoreLeaf(p, mem, roots, owner, {}, root, va / PGSIZE, 0);
    }

    /** walkaddr: the physical page of a user page; 0 when it is not mapped for the user. */
    method Walkaddr(root: nat, va: nat) returns (pa: nat)
      requires Valid() && root in roots && root < |mem| && va < LIMIT
      modifies this`mem, this`freelist, this`free, this`owner
      ensures Valid() && mem == old(mem) && freelist == old(freelist) && free == old(free) && owner == old(owner)
      ensures var e := Entry(mem, Leaf(root, va / PGSIZE));
              pa == if IsValid(e) && IsUser(e) then Frame(e) * PGSIZE else 0
    {
      hide Owned, FreeList;
      pa := 0;
      var ok, t, j := Walk(root, va, false);
      if !ok {
        return;
      }
      if !IsValid(mem[t][j]) {
        return;
      }
      if !IsUser(mem[t][j]) {
        return;
      }
      pa := Frame(mem[t][j]) * PGSIZE;
    }

    /** One round of the loop of mappages, at the page-aligned address a. */
    method MapPage(root: nat, a: nat, pa: nat, perm: nat) returns (r: Outcome)
      requires Valid() && root in roots && root < |mem| && a < LIMIT && pa < LIMIT && perm < 1024 && IsLeaf(perm)
      requires Counts(Leaf(root, a / PGSIZE)) ==> pa / PGSIZE in owner && owner[pa / PGSIZE] == Kernel
      modifies this`mem, this`freelist, this`free, this`owner
      ensures Valid() && |mem| == |old(mem)|
      ensures r == Panic <==> IsValid(Entry(old(mem), Leaf(root, a / PGSIZE)))
      ensures r == NoMemory <==> !IsValid(old(mem)[root][a / PGSIZE / ENTRIES]) && old(free) == []
      ensures r != Done ==> mem == old(mem) && freelist == old(freelist) && free == old(free) && owner == old(owner)
      ensures |free| + 1 >= |old(free)|
      ensures r == Done ==> |free| == |old(free)| - (if IsValid(old(mem)[root][a / PGSIZE / ENTRIES]) then 0 else 1)
      ensures r == Done ==> TableAdded(old(mem), mem, root, a / PGSIZE / ENTRIES)
      ensures r == Done ==> Entry(mem, Leaf(root, a / PGSIZE)) == Pte(pa / PGSIZE, perm)
      ensures r == Done ==> SameLeaves(old(mem), mem, roots, {Leaf(root, a / PGSIZE)})
      ensures OthersSame(old(mem), mem, roots, root)
      ensures r == Done ==> DataKept(old(mem), MapOwner(old(owner), root, a / PGSIZE, pa / PGSIZE), mem, owner, {})
      ensures r == Done ==> TablesGrow(MapOwner(old(owner), root, a / PGSIZE, pa / PGSIZE), owner, root)
    {
      hide Owned, FreeList, OthersSame, DataKept, SameLeaves, TablesGrow, TableAdded, Entry, Pte, IsValid, Frame;
      Facts();
      NothingChanged(p, mem, roots, owner, gone, root);
      UnmappedTable(mem, root, a / PGSIZE);
      var ok, t, j := Walk(root, a, true);
      if !ok {
        return NoMemory;
      }
      LeafSame(old(mem), mem, roots, {}, Leaf(root, a / PGSIZE));
      if IsValid(mem[t][j]) {
        PresentTable(p, old(mem), roots, old(owner), root, a / PGSIZE);
        return Panic;
      }
      ghost var m1, o1 := mem, owner;
      LooseStays(old(owner), o1, root, pa / PGSIZE);
      assert old(owner).Keys == o1.Keys by {
        Bounds(p, old(mem), roots, old(owner), {});
        Bounds(p, m1, roots, o1, {});
      }
      var table: seq<nat> := mem[t];
      table := table[j := Pte(pa / PGSIZE, perm)];
      mem := mem[t := table];
      owner := MapOwner(owner, root, a / PGSIZE, pa / PGSIZE);
      PageMapped(p, old(mem), m1, mem, roots, old(owner), o1, freelist, free, root, a / PGSIZE, pa / PGSIZE, perm);
      r := Done;
    }

    /** mappages: page k of the region is mapped to frame k after pa.  It stops where memory runs out
        (the pages before stay mapped), and panics on an empty region or at a page already mapped. */
    method Mappages(root: nat, va: nat, size: nat, pa: nat, perm: nat) returns (r: Outcome, ghost done: nat)
      requires Valid() && root in roots && root < |mem| && va < LIMIT && size < LIMIT && pa < LIMIT && perm < 1024 && IsLeaf(perm)
      requires size > 0 ==> forall k: nat {:trigger PageNo(pa, k)} :: k < PageCount(va, size) && Counts(Leaf(root, PageNo(va, k))) ==>
                 PageNo(pa, k) in owner && owner[PageNo(pa, k)] == Kernel
      modifies this`mem, this`freelist, this`free, this`owner
      ensures Valid() && |mem| == |old(mem)|
      ensures size == 0 ==> r == Panic && done == 0
      ensures size > 0 && r == Done ==> done == PageCount(va, size)
      ensures size > 0 && r != Done ==> done < PageCount(va, size)
      ensures r == NoMemory ==> free == []
      ensures |free| + done >= |old(free)|
      ensures done == 1 ==> |free| == |old(free)| - (if IsValid(old(mem)[root][PageNo(va, 0) / ENTRIES]) then 0 else 1)
      ensures done == 1 ==> TableAdded(old(mem), mem, root, PageNo(va, 0) / ENTRIES)
      ensures size > 0 ==> (r == NoMemory && done == 0 <==> !IsValid(old(mem)[root][PageNo(va, 0) / ENTRIES]) && old(free) == [])
      ensures r == NoMemory && done == 0 ==>
                mem == old(mem) && freelist == old(freelist) && free == old(free) && owner == old(owner)
      ensures size > 0 && r != Done ==> (r == Panic <==> IsValid(Entry(old(mem), Leaf(root, PageNo(va, done)))))
      ensures forall k: nat {:trigger PageNo(va, k)} :: k < done ==> !IsValid(Entry(old(mem), Leaf(root, PageNo(va, k))))
      ensures forall v: nat {:trigger Entry(mem, Leaf(root, v))} :: v < NPAGES ==>
                Entry(mem, Leaf(root, v)) ==
                  if IndexOf(va, v) < done then Pte(PageNo(pa, IndexOf(va, v)), perm) else Entry(old(mem), Leaf(root, v))
      ensures OthersSame(old(mem), mem, roots, root)
      ensures DataKept(old(mem), MapOwners(old(owner), root, va, pa, done), mem, owner, {})
      ensures TablesGrow(MapOwners(old(owner), root, va, pa, done), owner, root)
    {
      hide Owned, FreeList, OthersSame, DataKept, SameLeaves, TablesGrow, TableAdded, Entry, Pte, IsValid, Frame, PageNo, IndexOf, Counts;
      NothingChanged(p, mem, roots, owner, gone, root);
      done := 0;
      if size == 0 {
        return Panic, done;
      }
      FirstPage(va);
      FirstPage(pa);
      var a := va / PGSIZE * PGSIZE;
      var last := (va + size - 1) % LIMIT / PGSIZE * PGSIZE;
      var b := pa;
      while true
        invariant Valid() && root in roots && |mem| == |old(mem)|
        invariant done < PageCount(va, size) && a < LIMIT && a / PGSIZE == PageNo(va, done) && a % PGSIZE == 0
        invariant b < LIMIT && b / PGSIZE == PageNo(pa, done)
        invariant forall k: nat {:trigger PageNo(va, k)} :: k < done ==> !IsValid(Entry(old(mem), Leaf(root, PageNo(va, k))))
        invariant forall v: nat {:trigger Entry(mem, Leaf(root, v))} :: v < NPAGES ==>
                    Entry(mem, Leaf(root, v)) ==
                      if IndexOf(va, v) < done then Pte(PageNo(pa, IndexOf(va, v)), perm) else Entry(old(mem), Leaf(root, v))
        invariant OthersSame(old(mem), mem, roots, root)
        invariant DataKept(old(mem), MapOwners(old(owner), root, va, pa, done), mem, owner, {})
        invariant TablesGrow(MapOwners(old(owner), root, va, pa, done), owner, root)
        invariant done == 0 ==> mem == old(mem) && freelist == old(freelist) && free == old(free) && owner == old(owner)
        invariant |free| + done >= |old(free)|
        invariant done == 1 ==> |free| == |old(free)| - (if IsValid(old(mem)[root][PageNo(va, 0) / ENTRIES]) then 0 else 1)
        invariant done == 1 ==> TableAdded(old(mem), mem, root, PageNo(va, 0) / ENTRIES)
        invariant done > 0 ==> IsValid(old(mem)[root][PageNo(va, 0) / ENTRIES]) || old(free) != []
        decreases PageCount(va, size) - done
      {
        ghost var m1, o1 := mem, owner;
        IndexInverse(va, done, PageNo(va, done));
        FrameStillLoose(old(owner), o1, root, va, pa, done);
        r := MapPage(root, a, b, perm);
        if r != Done {
          return;
        }
        PageStep(old(mem), m1, mem, roots, old(owner), o1, owner, root, va, pa, perm, done);
        LastPage(va, size, a, done);
        NextPage(va, a, done);
        NextPage(pa, b, done);
        done := done + 1;
        if a == last {
          return;
        }
        a := (a + PGSIZE) % LIMIT;
        b := (b + PGSIZE) % LIMIT;
      }
    }

    /** One round of the loop of uvmunmap, for page number v; false is a panic. */
    method UnmapPage(root: nat, v: nat, dofree: bool) returns (ok: bool)
      requires Valid() && root in roots && root < |mem| && v < NPAGES && (dofree <==> Counts(Leaf(root, v)))
      modifies this`mem, this`freelist, this`free, this`owner, this`gone
      ensures Valid() && |mem| == |old(mem)|
      ensures ok <==> IsValid(Entry(old(mem), Leaf(root, v)))
      ensures !ok ==> mem == old(mem) && freelist == old(freelist) && free == old(free) && owner == old(owner)
      ensures ok ==> Unmapped(old(mem), mem, roots, root, v, v + 1) && LeavesFreed(old(owner), owner, root, v, v + 1)
      ensures DataStays(old(mem), mem, owner)
    {
      Bounds(p, mem, roots, owner, gone);
      hide Owned, FreeList, OthersSame, DataKept, SameLeaves, TablesGrow, Entry, IsValid, IsLeaf, Frame, Unmapped, LeavesFreed, DataStays;
      DataSelf(mem, owner);
      ghost var s := Leaf(root, v);
      ok := false;
      UnmappedTable(mem, root, v);
      var found, t, j := Walk(root, v * PGSIZE, false);
      if !found {
        return;
      }
      if !IsValid(mem[t][j]) {
        return;
      }
      LeafNotTable(p, mem, roots, owner, s);
      if Flags(mem[t][j]) == PTE_V {
        return;
      }
      EraseLeaf(root, v, t, j, dofree);
      ok := true;
    }

    /** kfree of the page an entry still names. */
    method GiveBack(pa: nat, ghost s: Slot)
      requires Valid() && InSpace(s, roots) && s.root < |mem| && IsValid(Entry(mem, s)) && Counts(s)
      requires pa == Frame(Entry(mem, s)) * PGSIZE
      requires s.Table? ==> forall v: nat {:trigger Leaf(s.root, v)} :: v < NPAGES && v / ENTRIES == s.i ==>
                 !IsValid(Entry(mem, Leaf(s.root, v)))
      modifies this`mem, this`freelist, this`free, this`owner, this`gone
      ensures Partial() && gone == {s} && |mem| == |old(mem)| && SameEntries(old(mem), mem, roots, {s})
      ensures pa / PGSIZE in old(owner) && old(owner)[pa / PGSIZE] == Held(s) && owner == old(owner)[pa / PGSIZE := Free]
      ensures forall f: nat :: f < |mem| && f != pa / PGSIZE ==> mem[f] == old(mem)[f]
    {
      Bounds(p, mem, roots, owner, gone);
      Release(p, mem, freelist, free, roots, owner, s);
      hide Owned, FreeList, Entry, IsValid, SameEntries, Counts;
      ghost var f := Frame(Entry(mem, s));
      assert pa / PGSIZE == f;
      gone := {s};
      owner := owner[f := Kernel];
      var freed := Kfree(pa);
      assert freed;
    }

    /** The page's frame to the free list if asked, then *pte = 0. */
    method EraseLeaf(root: nat, v: nat, t: nat, j: nat, dofree: bool)
      requires Valid() && root in roots && root < |mem| && v < NPAGES && (dofree <==> Counts(Leaf(root, v)))
      requires IsValid(mem[root][v / ENTRIES]) && t == Frame(mem[root][v / ENTRIES]) && t < |mem| && j == v % ENTRIES
      requires IsValid(Entry(mem, Leaf(root, v))) && mem[t][j] == Entry(mem, Leaf(root, v))
      modifies this`mem, this`freelist, this`free, this`owner, this`gone
      ensures Valid() && |mem| == |old(mem)|
      ensures Unmapped(old(mem), mem, roots, root, v, v + 1) && LeavesFreed(old(owner), owner, root, v, v + 1)
      ensures DataStays(old(mem), mem, owner)
    {
      Bounds(p, mem, roots, owner, gone);
      hide Owned, FreeList, Entry, IsValid, Frame, Unmapped, LeavesFreed, DataStays, SameEntries, Counts;
      SameEntriesSelf(p, mem, roots, owner, gone);
      ghost var f := Frame(mem[t][j]);
      if dofree {
        GiveBack(Frame(mem[t][j]) * PGSIZE, Leaf(root, v));
      }
      Clear(p, old(mem), mem, freelist, free, roots, old(owner), owner, gone, root, v, t, j, f);
      gone := {};
      var table: seq<nat> := mem[t];
      table := table[j := 0];
      mem := mem[t := table];
    }

    /** uvmunmap; false is a panic. */
    method Uvmunmap(root: nat, va: nat, npages: nat, dofree: bool) returns (ok: bool)
      requires Valid() && root in roots && root < |mem| && va < LIMIT && va / PGSIZE + npages <= NPAGES
      requires if dofree then va / PGSIZE + npages <= TRAPFRAME / PGSIZE else TRAPFRAME / PGSIZE <= va / PGSIZE
      modifies this`mem, this`freelist, this`free, this`owner, this`gone
      ensures Valid() && |mem| == |old(mem)|
      ensures ok <==> va % PGSIZE == 0 && AllMapped(old(mem), root, va / PGSIZE, va / PGSIZE + npages)
      ensures ok ==> Unmapped(old(mem), mem, roots, root, va / PGSIZE, va / PGSIZE + npages)
      ensures ok ==> LeavesFreed(old(owner), owner, root, va / PGSIZE, va / PGSIZE + npages)
      ensures DataStays(old(mem), mem, owner)
    {
      Bounds(p, mem, roots, owner, gone);
      hide Owned, FreeList, Entry, IsValid, Unmapped, LeavesFreed, DataStays, AllMapped;
      DataSelf(mem, owner);
      if va % PGSIZE != 0 {
        return false;
      }
      ghost var lo := va / PGSIZE;
      UnmappedSelf(mem, roots, owner, root, lo);
      var a := va / PGSIZE;
      while a < va / PGSIZE + npages
        invariant lo <= a <= lo + npages && Valid() && |mem| == |old(mem)|
        invariant AllMapped(old(mem), root, lo, a)
        invariant Unmapped(old(mem), mem, roots, root, lo, a) && LeavesFreed(old(owner), owner, root, lo, a)
        invariant DataStays(old(mem), mem, owner)
      {
        ghost var m1, o1 := mem, owner;
        ok := UnmapPage(root, a, dofree);
        UnmapStep(old(mem), m1, mem, roots, old(owner), o1, owner, root, lo, a, ok);
        if !ok {
          MappedPrefix(old(mem), root, lo, a + 1, lo + npages);
          return;
        }
        a := a + 1;
      }
      ok := true;
    }
  }

  lemma FirstPage(va: nat)
    requires va < LIMIT
    ensures va / PGSIZE == PageNo(va, 0) && va / PGSIZE * PGSIZE / PGSIZE == PageNo(va, 0)
    ensures va / PGSIZE * PGSIZE % PGSIZE == 0 && va / PGSIZE * PGSIZE < LIMIT
    ensures forall v :: IndexOf(va, v) >= 0
  {
  }

  /** The test a == last finds the last page of the region and no earlier one. */
  lemma LastPage(va: nat, size: nat, a: nat, k: nat)
    requires size > 0 && va < LIMIT && k < PageCount(va, size) && a / PGSIZE == PageNo(va, k) && a % PGSIZE == 0
    ensures a == (va + size - 1) % LIMIT / PGSIZE * PGSIZE <==> k + 1 == PageCount(va, size)
  {
    hide PageNo, IndexOf;
    var l := (va + size - 1) % LIMIT / PGSIZE;
    IndexInverse(va, k, l);
    assert a == l * PGSIZE <==> a / PGSIZE == l;
  }

  /** The frame for page k of the region is still in the kernel's hands. */
  lemma FrameStillLoose(o0: map<nat, Role>, o1: map<nat, Role>, root: nat, va: nat, pa: nat, k: nat)
    requires k < NPAGES && TablesGrow(MapOwners(o0, root, va, pa, k), o1, root)
    ensures PageNo(pa, k) in o0 && o0[PageNo(pa, k)] == Kernel ==> PageNo(pa, k) in o1 && o1[PageNo(pa, k)] == Kernel
  {
    forall j: nat | j < k ensures PageNo(pa, j) != PageNo(pa, k) {
      Distinct(pa / PGSIZE, j, k);
    }
    MapOwnersAt(o0, root, va, pa, k, PageNo(pa, k));
  }

  lemma Distinct(a: nat, j: nat, k: nat)
    requires j < k < NPAGES
    ensures (a + j) % NPAGES != (a + k) % NPAGES
  {
  }

  /** What one more page does to the map and to the frames. */
  lemma PageStep(m0: seq<Page>, m1: seq<Page>, m2: seq<Page>, roots: set<nat>, o0: map<nat, Role>, o1: map<nat, Role>,
                 o2: map<nat, Role>, r: nat, va: nat, pa: nat, perm: nat, k: nat)
    requires |m0| == |m1| == |m2| && r in roots && r < |m0| && k < NPAGES && perm < 1024 && va < LIMIT
    requires forall v: nat {:trigger Entry(m1, Leaf(r, v))} :: v < NPAGES ==>
               Entry(m1, Leaf(r, v)) == if IndexOf(va, v) < k then Pte(PageNo(pa, IndexOf(va, v)), perm) else Entry(m0, Leaf(r, v))
    requires Entry(m2, Leaf(r, PageNo(va, k))) == Pte(PageNo(pa, k), perm)
    requires SameLeaves(m1, m2, roots, {Leaf(r, PageNo(va, k))}) && OthersSame(m0, m1, roots, r) && OthersSame(m1, m2, roots, r)
    requires DataKept(m0, MapOwners(o0, r, va, pa, k), m1, o1, {}) && TablesGrow(MapOwners(o0, r, va, pa, k), o1, r)
    requires var v, f := PageNo(va, k), PageNo(pa, k);
             && DataKept(m1, MapOwner(o1, r, v, f), m2, o2, {}) && TablesGrow(MapOwner(o1, r, v, f), o2, r)
             && (Counts(Leaf(r, v)) ==> f in o1 && o1[f] == Kernel && f in o0 && o0[f] == Kernel)
    ensures forall v: nat {:trigger Entry(m2, Leaf(r, v))} :: v < NPAGES ==>
              Entry(m2, Leaf(r, v)) == if IndexOf(va, v) < k + 1 then Pte(PageNo(pa, IndexOf(va, v)), perm) else Entry(m0, Leaf(r, v))
    ensures OthersSame(m0, m2, roots, r)
    ensures DataKept(m0, MapOwners(o0, r, va, pa, k + 1), m2, o2, {}) && TablesGrow(MapOwners(o0, r, va, pa, k + 1), o2, r)
  {
    hide Entry, Pte, PageNo, IndexOf;
    forall v: nat | v < NPAGES
      ensures Entry(m2, Leaf(r, v)) == if IndexOf(va, v) < k + 1 then Pte(PageNo(pa, IndexOf(va, v)), perm) else Entry(m0, Leaf(r, v))
    {
      IndexInverse(va, k, v);
      assert v != PageNo(va, k) ==> Entry(m2, Leaf(r, v)) == Entry(m1, Leaf(r, v));
    }
    forall s | InSpace(s, roots) && s.root != r ensures Entry(m2, s) == Entry(m0, s) {
      assert Entry(m2, s) == Entry(m1, s);
    }
    GrowTrans(m0, MapOwners(o0, r, va, pa, k), m1, o1, m2, o2, r, PageNo(va, k), PageNo(pa, k));
  }

  lemma GrowTrans(m0: seq<Page>, o0: map<nat, Role>, m1: seq<Page>, o1: map<nat, Role>, m2: seq<Page>, o2: map<nat, Role>,
                  r: nat, v: nat, f: nat)
    requires DataKept(m0, o0, m1, o1, {}) && TablesGrow(o0, o1, r)
    requires DataKept(m1, MapOwner(o1, r, v, f), m2, o2, {}) && TablesGrow(MapOwner(o1, r, v, f), o2, r)
    requires Counts(Leaf(r, v)) ==> f in o1 && o1[f] == Kernel
    requires Counts(Leaf(r, v)) ==> f in o0 && o0[f] == Kernel
    ensures DataKept(m0, MapOwner(o0, r, v, f), m2, o2, {}) && TablesGrow(MapOwner(o0, r, v, f), o2, r)
  {
    var q0, q1 := MapOwner(o0, r, v, f), MapOwner(o1, r, v, f);
    assert q0.Keys == o0.Keys && q1.Keys == o1.Keys;
    forall x | x in q0
      ensures o2[x] == q0[x] || (q0[x] == Free && o2[x].Held? && o2[x].s.Table? && o2[x].s.root == r)
    {
      assert x in o0 && (q1[x] == q0[x] || (q0[x] == o0[x] && q1[x] == o1[x]));
    }
  }

  /** Pages lo..hi-1 are all mapped. */
  ghost predicate AllMapped(mem: seq<Page>, root: nat, lo: nat, hi: nat)
    requires root < |mem| && hi <= NPAGES
  {
    forall v: nat {:trigger Leaf(root, v)} :: lo <= v < hi ==> IsValid(Entry(mem, Leaf(root, v)))
  }

  lemma MappedPrefix(mem: seq<Page>, root: nat, lo: nat, a: nat, hi: nat)
    requires root < |mem| && a <= hi <= NPAGES
    ensures AllMapped(mem, root, lo, hi) ==> AllMapped(mem, root, lo, a)
  {
  }

  lemma DataSelf(mem: seq<Page>, owner: map<nat, Role>)
    ensures DataStays(mem, mem, owner)
  {
  }

  lemma UnmappedSelf(mem: seq<Page>, roots: set<nat>, owner: map<nat, Role>, root: nat, lo: nat)
    requires forall r :: r in roots ==> r < |mem|
    ensures Unmapped(mem, mem, roots, root, lo, lo) && LeavesFreed(owner, owner, root, lo, lo)
    ensures root < |mem| && lo <= NPAGES ==> AllMapped(mem, root, lo, lo)
  {
  }

  /** PTE_FLAGS of a leaf is never PTE_V alone. */
  lemma LeafNotTable(p: Pool, mem: seq<Page>, roots: set<nat>, owner: map<nat, Role>, s: Slot)
    requires Owned(p, mem, roots, owner, {}) && InSpace(s, roots) && s.Leaf? && s.root < |mem|
    ensures IsValid(Entry(mem, s)) ==> Flags(Entry(mem, s)) != PTE_V
  {
    assert SlotOk(mem, owner, s);
    BareFlags(Entry(mem, s));
  }

  lemma BareFlags(pte: nat)
    ensures Flags(pte) == PTE_V ==> !IsLeaf(pte)
  {
    LeafBits(pte / 1024, pte % 1024);
  }

  lemma Release(p: Pool, mem: seq<Page>, head: nat, free: seq<nat>, roots: set<nat>, owner: map<nat, Role>, s: Slot)
    requires Owned(p, mem, roots, owner, {}) && FreeList(mem, head, free, owner)
    requires InSpace(s, roots) && s.root < |mem| && IsValid(Entry(mem, s)) && Counts(s)
    requires s.Table? ==> forall v: nat {:trigger Leaf(s.root, v)} :: v < NPAGES && v / ENTRIES == s.i ==>
               !IsValid(Entry(mem, Leaf(s.root, v)))
    ensures var f := Frame(Entry(mem, s));
            && f in owner && owner[f] == Held(s)
            && Owned(p, mem, roots, owner[f := Kernel], {s}) && FreeList(mem, head, free, owner[f := Kernel])
  {
    OwnedRelease(p, mem, roots, owner, s);
    ListStore(mem, mem, head, free, owner, owner[Frame(Entry(mem, s)) := Kernel]);
  }

  /** Storing 0 in the entry for page v, its frame f given back first when gone == {Leaf(r, v)}. */
  lemma Clear(p: Pool, m0: seq<Page>, m1: seq<Page>, head: nat, free: seq<nat>, roots: set<nat>, o0: map<nat, Role>, o1: map<nat, Role>,
              gone: set<Slot>, r: nat, v: nat, t: nat, j: nat, f: nat)
    requires Owned(p, m0, roots, o0, {}) && Owned(p, m1, roots, o1, gone) && FreeList(m1, head, free, o1)
    requires r in roots && r < |m0| && v < NPAGES && IsValid(m0[r][v / ENTRIES]) && t == Frame(m0[r][v / ENTRIES]) && j == v % ENTRIES
    requires |m0| == |m1| && SameEntries(m0, m1, roots, gone) && f == Frame(Entry(m0, Leaf(r, v)))
    requires if Counts(Leaf(r, v)) then gone == {Leaf(r, v)} && f in o0 && o0[f] == Held(Leaf(r, v)) && o1 == o0[f := Free]
             else gone == {} && o1 == o0 && m1 == m0
    requires forall x: nat :: x < |m0| && x != f ==> m1[x] == m0[x]
    ensures t < |m1| && j < ENTRIES
    ensures var m2: seq<Page> := m1[t := m1[t][j := 0]];
            && Owned(p, m2, roots, o1, {}) && FreeList(m2, head, free, o1)
            && Unmapped(m0, m2, roots, r, v, v + 1) && LeavesFreed(o0, o1, r, v, v + 1) && DataStays(m0, m2, o1)
  {
    hide Owned, FreeList;
    Bounds(p, m1, roots, o1, gone);
    Listed(m1, head, free, o1);
    assert Entry(m1, Table(r, v / ENTRIES)) == Entry(m0, Table(r, v / ENTRIES));
    StoreLeaf(p, m1, roots, o1, gone, r, v, 0);
    var m2: seq<Page> := m1[t := m1[t][j := 0]];
    ListStore(m1, m2, head, free, o1, o1);
    ClearEntries(m0, m1, m2, roots, gone, r, v);
    OneFrame(p, m0, roots, o0, Leaf(r, v));
    if !Counts(Leaf(r, v)) {
      OwnedBorrowed(p, m1, roots, o1, Leaf(r, v));
    }
    OwnedCleared(p, m1, m2, roots, o1, Leaf(r, v));
  }

  lemma ClearEntries(m0: seq<Page>, m1: seq<Page>, m2: seq<Page>, roots: set<nat>, gone: set<Slot>, r: nat, v: nat)
    requires |m0| == |m1| == |m2| && r in roots && v < NPAGES && SameEntries(m0, m1, roots, gone) && gone <= {Leaf(r, v)}
    requires forall s {:trigger Entry(m2, s)} :: InSpace(s, roots) ==> Entry(m2, s) == if s == Leaf(r, v) then 0 else Entry(m1, s)
    ensures Unmapped(m0, m2, roots, r, v, v + 1)
  {
    forall s | InSpace(s, roots) ensures Entry(m2, s) == if Ranged(s, r, v, v + 1) then 0 else Entry(m0, s) {
      assert Ranged(s, r, v, v + 1) <==> s == Leaf(r, v);
      assert s != Leaf(r, v) ==> Entry(m1, s) == Entry(m0, s);
    }
  }

  lemma UnmapStep(m0: seq<Page>, m1: seq<Page>, m2: seq<Page>, roots: set<nat>, o0: map<nat, Role>, o1: map<nat, Role>, o2: map<nat, Role>,
                  root: nat, lo: nat, a: nat, ok: bool)
    requires root in roots && root < |m0| && lo <= a < NPAGES && |m0| == |m1| == |m2|
    requires Unmapped(m0, m1, roots, root, lo, a) && LeavesFreed(o0, o1, root, lo, a) && DataStays(m0, m1, o1)
    requires if ok then Unmapped(m1, m2, roots, root, a, a + 1) && LeavesFreed(o1, o2, root, a, a + 1) && DataStays(m1, m2, o2)
             else m2 == m1 && o2 == o1
    requires AllMapped(m0, root, lo, a) && (ok <==> IsValid(Entry(m1, Leaf(root, a))))
    ensures AllMapped(m0, root, lo, a + 1) <==> ok
    ensures ok ==> Unmapped(m0, m2, roots, root, lo, a + 1) && LeavesFreed(o0, o2, root, lo, a + 1)
    ensures DataStays(m0, m2, o2)
  {
    hide Entry, Unmapped;
    UnmapMore(m0, m1, m2, roots, o0, o1, o2, root, lo, a, ok);
  }

  lemma UnmapMore(m0: seq<Page>, m1: seq<Page>, m2: seq<Page>, roots: set<nat>, o0: map<nat, Role>, o1: map<nat, Role>, o2: map<nat, Role>,
                  root: nat, lo: nat, a: nat, ok: bool)
    requires root in roots && root < |m0| && lo <= a < NPAGES && |m0| == |m1| == |m2|
    requires Unmapped(m0, m1, roots, root, lo, a) && LeavesFreed(o0, o1, root, lo, a)
    requires ok ==> Unmapped(m1, m2, roots, root, a, a + 1) && LeavesFreed(o1, o2, root, a, a + 1)
    ensures Entry(m1, Leaf(root, a)) == Entry(m0, Leaf(root, a))
    ensures ok ==> Unmapped(m0, m2, roots, root, lo, a + 1) && LeavesFreed(o0, o2, root, lo, a + 1)
  {
    hide Entry;
    assert Entry(m1, Leaf(root, a)) == Entry(m0, Leaf(root, a));
    if ok {
      forall s | InSpace(s, roots) ensures Entry(m2, s) == if Ranged(s, root, lo, a + 1) then 0 else Entry(m0, s) {
        assert Ranged(s, root, lo, a + 1) <==> Ranged(s, root, lo, a) || Ranged(s, root, a, a + 1);
        assert Entry(m2, s) == if Ranged(s, root, a, a + 1) then 0 else Entry(m1, s);
      }
      forall f | f in o0 ensures o2[f] == if o0[f].Held? && Ranged(o0[f].s, root, lo, a + 1) then Free else o0[f] {
        assert o2[f] == if o1[f].Held? && Ranged(o1[f].s, root, a, a + 1) then Free else o1[f];
      }
    }
  }

  // ----- The pages mappages goes through; addresses wrap at 2^32 -----

  /** The page number k pages after address a. */
  function PageNo(a: nat, k: nat): (r: nat)
    ensures r < NPAGES
  {
    (a / PGSIZE + k) % NPAGES
  }

  /** The k for which page v is PageNo(a, k). */
  function IndexOf(a: nat, v: nat): (r: nat)
    ensures r < NPAGES
  {
    (v + NPAGES - a / PGSIZE % NPAGES) % NPAGES
  }

  function PageCount(va: nat, size: nat): (r: nat)
    requires size > 0
    ensures 1 <= r <= NPAGES
  {
    IndexOf(va, (va + size - 1) % LIMIT / PGSIZE) + 1
  }

  lemma IndexInverse(a: nat, k: nat, v: nat)
    requires k < NPAGES && v < NPAGES && a < LIMIT
    ensures IndexOf(a, v) == k <==> PageNo(a, k) == v
  {
  }

  /** The next page, in 32 bits. */
  lemma NextPage(a0: nat, a: nat, k: nat)
    requires a0 < LIMIT && a < LIMIT && a / PGSIZE == PageNo(a0, k)
    ensures (a + PGSIZE) % LIMIT / PGSIZE == PageNo(a0, k + 1)
    ensures (a + PGSIZE) % LIMIT % PGSIZE == a % PGSIZE
  {
    var q := a / PGSIZE;
    assert a + PGSIZE < LIMIT ==> (a + PGSIZE) % LIMIT == a + PGSIZE;
    assert a + PGSIZE >= LIMIT ==> (a + PGSIZE) % LIMIT == a + PGSIZE - LIMIT;
    Successor(a0 / PGSIZE + k);
  }

  lemma Successor(x: nat)
    ensures (x + 1) % NPAGES == if x % NPAGES == NPAGES - 1 then 0 else x % NPAGES + 1
  {
  }

  /** A region that does not wrap has the pages it touches. */
  lemma CountPlain(va: nat, size: nat)
    requires size > 0 && va + size <= LIMIT
    ensures PageCount(va, size) == (va + size - 1) / PGSIZE - va / PGSIZE + 1
    ensures forall k: nat :: k < PageCount(va, size) ==> PageNo(va, k) == va / PGSIZE + k
  {
  }

  /** Who keeps the frames once the first k pages are mapped. */
  ghost function MapOwners(owner: map<nat, Role>, root: nat, va: nat, pa: nat, k: nat): map<nat, Role> {
    if k == 0 then owner else MapOwner(MapOwners(owner, root, va, pa, k - 1), root, PageNo(va, k - 1), PageNo(pa, k - 1))
  }

  lemma {:induction false} MapOwnersAt(owner: map<nat, Role>, root: nat, va: nat, pa: nat, k: nat, f: nat)
    requires k <= NPAGES
    requires forall j: nat {:trigger PageNo(pa, j)} :: j < k ==> PageNo(pa, j) != f
    ensures f in MapOwners(owner, root, va, pa, k) <==> f in owner
    ensures f in owner ==> MapOwners(owner, root, va, pa, k)[f] == owner[f]
  {
    if k == 0 {
    } else {
      MapOwnersAt(owner, root, va, pa, k - 1, f);
    }
  }

  /** Who keeps frame f once page v is mapped to it. */
  ghost function MapOwner(owner: map<nat, Role>, root: nat, v: nat, f: nat): map<nat, Role> {
    if Counts(Leaf(root, v)) then owner[f := Held(Leaf(root, v))] else owner
  }

  lemma UnmappedTable(mem: seq<Page>, root: nat, v: nat)
    requires root < |mem| && v < NPAGES
    ensures !IsValid(mem[root][v / ENTRIES]) ==> !IsValid(Entry(mem, Leaf(root, v)))
  {
  }

  lemma PresentTable(p: Pool, mem: seq<Page>, roots: set<nat>, owner: map<nat, Role>, root: nat, v: nat)
    requires Owned(p, mem, roots, owner, {}) && root in roots && root < |mem| && v < NPAGES && IsValid(Entry(mem, Leaf(root, v)))
    ensures IsValid(mem[root][v / ENTRIES])
  {
  }

  lemma LeafSame(m0: seq<Page>, m1: seq<Page>, roots: set<nat>, except: set<Slot>, s: Slot)
    requires SameLeaves(m0, m1, roots, except) && InSpace(s, roots) && s.Leaf? && s !in except
    ensures s.root < |m0| && Entry(m1, s) == Entry(m0, s)
  {
  }

  lemma LooseStays(o0: map<nat, Role>, o1: map<nat, Role>, root: nat, f: nat)
    requires TablesGrow(o0, o1, root)
    ensures f in o0 && o0[f] == Kernel ==> f in o1 && o1[f] == Kernel
  {
  }

  /** The store that maps page v to frame f, after walk. */
  lemma PageMapped(p: Pool, m0: seq<Page>, m1: seq<Page>, m2: seq<Page>, roots: set<nat>, o0: map<nat, Role>, o1: map<nat, Role>,
                   head: nat, free: seq<nat>, r: nat, v: nat, f: nat, perm: nat)
    requires Owned(p, m1, roots, o1, {}) && FreeList(m1, head, free, o1)
    requires |m0| == |m1| && r in roots && v < NPAGES && r < |m1| && IsValid(m1[r][v / ENTRIES]) && o0.Keys == o1.Keys
    requires f < NPAGES && perm < 1024 && IsLeaf(perm) && !IsValid(Entry(m1, Leaf(r, v)))
    requires Counts(Leaf(r, v)) ==> f in o0 && o0[f] == Kernel && f in o1 && o1[f] == Kernel
    requires var t := Frame(m1[r][v / ENTRIES]);
             t < |m1| && m2 == m1[t := m1[t][v % ENTRIES := Pte(f, perm)]]
    requires SameLeaves(m0, m1, roots, {}) && OthersSame(m0, m1, roots, r) && DataKept(m0, o0, m1, o1, {}) && TablesGrow(o0, o1, r)
    requires TableAdded(m0, m1, r, v / ENTRIES)
    ensures TableAdded(m0, m2, r, v / ENTRIES)
    ensures var o2 := MapOwner(o1, r, v, f);
            && Owned(p, m2, roots, o2, {}) && FreeList(m2, head, free, o2) && Entry(m2, Leaf(r, v)) == Pte(f, perm)
            && SameLeaves(m0, m2, roots, {Leaf(r, v)}) && OthersSame(m0, m2, roots, r)
            && DataKept(m0, MapOwner(o0, r, v, f), m2, o2, {}) && TablesGrow(MapOwner(o0, r, v, f), o2, r)
  {
    hide Owned, FreeList, Pte;
    PteFields(f, perm);
    Bounds(p, m1, roots, o1, {});
    Listed(m1, head, free, o1);
    StoreLeaf(p, m1, roots, o1, {}, r, v, Pte(f, perm));
    OwnedMap(p, m1, m2, roots, o1, r, v, f, Pte(f, perm));
    ListStore(m1, m2, head, free, o1, MapOwner(o1, r, v, f));
    forall s | InSpace(s, roots) && s.Leaf? && s != Leaf(r, v) ensures Entry(m2, s) == Entry(m0, s) {
      assert Entry(m2, s) == Entry(m1, s);
    }
    forall s | InSpace(s, roots) && s.root != r ensures Entry(m2, s) == Entry(m0, s) {
      assert Entry(m2, s) == Entry(m1, s);
    }
  }

  lemma NothingChanged(p: Pool, mem: seq<Page>, roots: set<nat>, owner: map<nat, Role>, gone: set<Slot>, root: nat)
    requires Owned(p, mem, roots, owner, gone)
    ensures SameLeaves(mem, mem, roots, {}) && OthersSame(mem, mem, roots, root)
    ensures DataKept(mem, owner, mem, owner, {}) && TablesGrow(owner, owner, root)
  {
  }

  /** A frame from the free list, zeroed, became the table behind Table(r, i). */
  lemma TableMade(p: Pool, m0: seq<Page>, m1: seq<Page>, m2: seq<Page>, roots: set<nat>, o0: map<nat, Role>, o1: map<nat, Role>,
                  o2: map<nat, Role>, head: nat, free: seq<nat>, r: nat, i: nat, f: nat)
    requires Owned(p, m1, roots, o1, {}) && FreeList(m1, head, free, o1)
    requires |m0| == |m1| && r in roots && r in o0 && o0[r] == Root && i < ENTRIES && r < |m1| && !IsValid(m0[r][i])
    requires f in o0 && o0[f] == Free && o1 == o0[f := Kernel] && o2 == o1[f := Held(Table(r, i))]
    requires f < |m1| && m1[f] == Filled(0) && forall x: nat :: x < |m0| && x != f ==> m1[x] == m0[x]
    requires m2 == m1[r := m1[r][i := Pte(f, 0)]]
    requires SameEntries(m0, m1, roots, {})
    ensures Owned(p, m2, roots, o2, {}) && FreeList(m2, head, free, o2) && IsValid(m2[r][i])
    ensures SameLeaves(m0, m2, roots, {}) && OthersSame(m0, m2, roots, r)
    ensures DataKept(m0, o0, m2, o2, {}) && TablesGrow(o0, o2, r) && TableAdded(m0, m2, r, i)
  {
    hide Owned, FreeList;
    Bounds(p, m1, roots, o1, {});
    OwnedTable(p, m1, m2, roots, o1, r, i, f);
    Listed(m1, head, free, o1);
    ListStore(m1, m2, head, free, o1, o2);
    forall s | InSpace(s, roots) && s.Leaf? ensures Entry(m2, s) == Entry(m0, s) {
      assert Entry(m2, s) == Entry(m1, s);
    }
    forall s | InSpace(s, roots) && s.root != r ensures Entry(m2, s) == Entry(m0, s) {
      assert Entry(m2, s) == Entry(m1, s);
    }
  }

  lemma Bounds(p: Pool, mem: seq<Page>, roots: set<nat>, owner: map<nat, Role>, gone: set<Slot>)
    requires Owned(p, mem, roots, owner, gone)
    ensures Sane(p, mem, roots) && forall f: nat :: f in owner <==> p.first <= f < p.stop
    ensures forall f :: f in roots <==> f in owner && owner[f] == Root
  {
  }

  lemma Listed(mem: seq<Page>, head: nat, free: seq<nat>, owner: map<nat, Role>)
    requires FreeList(mem, head, free, owner) && 0 !in owner
    ensures head == 0 <==> free == []
    ensures forall f: nat :: f in free <==> f in owner && owner[f] == Free
    ensures forall f: nat :: f in owner ==> f != 0
  {
    assert free != [] ==> free[0] in free;
  }

  lemma ListEnd(mem: seq<Page>, head: nat, free: seq<nat>, owner: map<nat, Role>, n: nat)
    requires FreeList(mem, head, free, owner) && 0 !in owner && n <= |free|
    ensures Next(free, n) == 0 <==> n == |free|
  {
    assert n < |free| ==> free[n] in free;
  }

  ghost function AllKernel(lo: nat, hi: nat): (r: map<nat, Role>)
    ensures forall f: nat :: f in r <==> lo <= f < hi
    ensures forall f :: f in r ==> r[f] == Kernel
    decreases hi - lo
  {
    if lo >= hi then map[] else AllKernel(lo, hi - 1)[hi - 1 := Kernel]
  }

  lemma SameEntriesSelf(p: Pool, mem: seq<Page>, roots: set<nat>, owner: map<nat, Role>, gone: set<Slot>)
    requires Owned(p, mem, roots, owner, gone)
    ensures SameEntries(mem, mem, roots, gone)
  {
  }

  lemma KernelsOnly(p: Pool, mem: seq<Page>, owner: map<nat, Role>)
    requires Sane(p, mem, {}) && forall f: nat :: f in owner <==> p.first <= f < p.stop
    requires forall f :: f in owner ==> owner[f] == Kernel
    ensures Owned(p, mem, {}, owner, {}) && FreeList(mem, 0, [], owner)
  {
  }
}
