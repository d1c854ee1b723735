/** The life of an address space: uvmcreate, proc_pagetable, uvmcopy and fork, freewalk and uvmfree. */
module SpaceLife {
  import opened VmModel
  import opened VmCode
  import opened AddressSpaces

  // ----- freewalk and uvmfree -----

  predicate LowTable(s: Slot, root: nat, lo: nat, hi: nat) {
    s.Table? && s.root == root && lo <= s.i < hi
  }

  /** Entries lo..hi-1 of the root are 0 and the tables behind them are on the free list. */
  ghost predicate TablesCleared(m0: seq<Page>, o0: map<nat, Role>, m1: seq<Page>, o1: map<nat, Role>, roots: set<nat>, root: nat, lo: nat, hi: nat) {
    && |m0| == |m1| && (forall r :: r in roots ==> r < |m0|)
    && (forall s {:trigger Entry(m1, s)} :: InSpace(s, roots) ==> Entry(m1, s) == if LowTable(s, root, lo, hi) then 0 else Entry(m0, s))
    && o0.Keys == o1.Keys
    && (forall f {:trigger o1[f]} {:trigger o0[f]} :: f in o0 ==>
          o1[f] == if o0[f].Held? && LowTable(o0[f].s, root, lo, hi) then Free else o0[f])
    && DataStays(m0, m1, o1)
  }

  /** freewalk of the table behind entry i of the root, whose entry is then cleared; false is the
      panic at a leaf.  Every valid entry of a lower table is a leaf, so there is no further recursion. */
  method FreeTable(m: Machine, root: nat, i: nat) returns (ok: bool)
    requires m.Valid() && root in m.roots && root < |m.mem| && i < ENTRIES && IsValid(m.mem[root][i])
    modifies m`mem, m`freelist, m`free, m`owner, m`gone
    ensures m.Valid() && |m.mem| == |old(m.mem)|
    ensures ok <==> NoneMapped(old(m.mem), root, i * ENTRIES, (i + 1) * ENTRIES)
    ensures !ok ==> m.mem == old(m.mem) && m.owner == old(m.owner)
    ensures ok ==> TablesCleared(old(m.mem), old(m.owner), m.mem, m.owner, m.roots, root, i, i + 1)
  {
    Bounds(m.p, m.mem, m.roots, m.owner, m.gone);
    hide Owned, FreeList, NoneMapped, TablesCleared, IsLeaf, SameEntries;
    TableBehind(m.p, m.mem, m.roots, m.owner, root, i);
    NoneYet(m.mem, root, i * ENTRIES);
    var t := Frame(m.mem[root][i]);
    var j := 0;
    while j < ENTRIES
      invariant m.Valid() && m.mem == old(m.mem) && m.owner == old(m.owner) && m.freelist == old(m.freelist) && m.free == old(m.free)
      invariant j <= ENTRIES && NoneMapped(m.mem, root, i * ENTRIES, i * ENTRIES + j)
    {
      NoneNext(m.mem, root, i, j, t);
      if IsValid(m.mem[t][j]) {
        return false;
      }
      j := j + 1;
    }
    NoneBelow(m.mem, root, i);
    m.GiveBack(t * PGSIZE, Table(root, i));
    TableErased(m.p, old(m.mem), m.mem, m.freelist, m.free, m.roots, old(m.owner), m.owner, root, i, t);
    m.gone := {};
    var table: seq<nat> := m.mem[root];
    table := table[i := 0];
    m.mem := m.mem[root := table];
    ok := true;
  }

  lemma TableBehind(p: Pool, mem: seq<Page>, roots: set<nat>, owner: map<nat, Role>, root: nat, i: nat)
    requires Owned(p, mem, roots, owner, {}) && root in roots && root < |mem| && i < ENTRIES
    ensures IsValid(mem[root][i]) ==> Frame(mem[root][i]) < |mem| && !IsLeaf(mem[root][i])
    ensures IsValid(mem[root][i]) ==> InSpace(Table(root, i), roots) && Entry(mem, Table(root, i)) == mem[root][i]
    ensures !IsValid(mem[root][i]) ==> mem[root][i] == 0
  {
    assert Entry(mem, Table(root, i)) == mem[root][i];
    assert SlotOk(mem, owner, Table(root, i));
    BareFlags(mem[root][i]);
  }

  lemma NoneYet(mem: seq<Page>, root: nat, lo: nat)
    requires root < |mem| && lo <= NPAGES
    ensures NoneMapped(mem, root, lo, lo)
  {
  }

  lemma NoneNext(mem: seq<Page>, root: nat, i: nat, j: nat, t: nat)
    requires root < |mem| && i < ENTRIES && j < ENTRIES && IsValid(mem[root][i]) && t == Frame(mem[root][i]) && t < |mem|
    requires NoneMapped(mem, root, i * ENTRIES, i * ENTRIES + j)
    ensures NoneMapped(mem, root, i * ENTRIES, i * ENTRIES + j + 1) <==> !IsValid(mem[t][j])
    ensures IsValid(mem[t][j]) ==> !NoneMapped(mem, root, i * ENTRIES, (i + 1) * ENTRIES)
  {
    var v := i * ENTRIES + j;
    assert v / ENTRIES == i && v % ENTRIES == j;
    assert Entry(mem, Leaf(root, v)) == mem[t][j];
  }

  lemma NoneBelow(mem: seq<Page>, root: nat, i: nat)
    requires root < |mem| && i < ENTRIES && NoneMapped(mem, root, i * ENTRIES, i * ENTRIES + ENTRIES)
    ensures NoneMapped(mem, root, i * ENTRIES, (i + 1) * ENTRIES)
    ensures forall v: nat {:trigger Leaf(root, v)} :: v < NPAGES && v / ENTRIES == i ==> !IsValid(Entry(mem, Leaf(root, v)))
  {
    forall v: nat | v < NPAGES && v / ENTRIES == i ensures !IsValid(Entry(mem, Leaf(root, v))) {
      assert i * ENTRIES <= v < i * ENTRIES + ENTRIES;
    }
  }

  /** The entry of the freed table is cleared. */
  lemma TableErased(p: Pool, m0: seq<Page>, m1: seq<Page>, head: nat, free: seq<nat>, roots: set<nat>, o0: map<nat, Role>, o1: map<nat, Role>,
                    root: nat, i: nat, t: nat)
    requires Owned(p, m0, roots, o0, {}) && Owned(p, m1, roots, o1, {Table(root, i)}) && FreeList(m1, head, free, o1)
    requires root in roots && root < |m0| && |m0| == |m1| && i < ENTRIES && IsValid(m0[root][i]) && t == Frame(m0[root][i])
    requires t in o0 && o0[t] == Held(Table(root, i)) && o1 == o0[t := Free]
    requires SameEntries(m0, m1, roots, {Table(root, i)}) && forall x: nat :: x < |m0| && x != t ==> m1[x] == m0[x]
    requires forall v: nat {:trigger Leaf(root, v)} :: v < NPAGES && v / ENTRIES == i ==> !IsValid(Entry(m0, Leaf(root, v)))
    ensures var m2: seq<Page> := m1[root := m1[root][i := 0]];
            Owned(p, m2, roots, o1, {}) && FreeList(m2, head, free, o1) && TablesCleared(m0, o0, m2, o1, roots, root, i, i + 1)
  {
    var m2: seq<Page> := m1[root := m1[root][i := 0]];
    var s0 := Table(root, i);
    Bounds(p, m0, roots, o0, {});
    Bounds(p, m1, roots, o1, {s0});
    OneFrame(p, m0, roots, o0, s0);
    Listed(m1, head, free, o1);
    hide FreeList;
    ListStore(m1, m2, head, free, o1, o1);
    forall s | InSpace(s, roots) ensures Entry(m2, s) == if LowTable(s, root, i, i + 1) then 0 else Entry(m0, s) {
      if s.Leaf? && Above(s) == s0 {
        assert s == Leaf(root, s.v) && SlotOk(m0, o0, s);
      } else if s != s0 {
        StillThere(p, m0, m1, roots, o0, root, i, t, s);
      }
    }
    assert SameEntries(m1, m2, roots, {s0});
    OwnedCleared(p, m1, m2, roots, o1, s0);
  }

  /** Entries that do not go through the freed table read the same before and after. */
  lemma StillThere(p: Pool, m0: seq<Page>, m1: seq<Page>, roots: set<nat>, o0: map<nat, Role>, root: nat, i: nat, t: nat, s: Slot)
    requires Owned(p, m0, roots, o0, {}) && root in roots && root < |m0| && |m0| == |m1| && i < ENTRIES
    requires t in o0 && o0[t] == Held(Table(root, i)) && InSpace(s, roots) && s != Table(root, i) && Above(s) != Table(root, i)
    requires SameEntries(m0, m1, roots, {Table(root, i)}) && forall x: nat :: x < |m0| && x != t ==> m1[x] == m0[x]
    ensures var m2: seq<Page> := m1[root := m1[root][i := 0]]; s.root < |m0| && Entry(m2, s) == Entry(m0, s)
  {
    var m2: seq<Page> := m1[root := m1[root][i := 0]];
    assert Entry(m1, s) == Entry(m0, s);
    assert SlotOk(m0, o0, Above(s));
    assert s.root != t && m2[s.root] == if s.root == root then m1[root][i := 0] else m1[s.root];
    if s.Leaf? {
      var e := m0[s.root][s.v / ENTRIES];
      assert e == Entry(m0, Above(s));
      assert IsValid(e) ==> Frame(e) != root && Frame(e) != t;
    }
  }

  /** What a space owns. */
  predicate BelongsTo(r: Role, f: nat, root: nat) {
    (r.Root? && f == root) || (r.Held? && r.s.root == root)
  }

  /** Every frame of the space is free, no other frame changed hands, and the other spaces and all
      data outside it are untouched. */
  ghost predicate SpaceFreed(m0: seq<Page>, o0: map<nat, Role>, m1: seq<Page>, o1: map<nat, Role>, roots: set<nat>, root: nat) {
    && |m0| == |m1| && (forall r :: r in roots ==> r < |m0|)
    && (forall s {:trigger Entry(m1, s)} :: InSpace(s, roots - {root}) ==> Entry(m1, s) == Entry(m0, s))
    && o0.Keys == o1.Keys
    && (forall f {:trigger o1[f]} {:trigger o0[f]} :: f in o0 ==> o1[f] == if BelongsTo(o0[f], f, root) then Free else o0[f])
    && DataStays(m0, m1, o1)
  }

  /** freewalk of a root; false is the panic, exactly when a page is still mapped. */
  method Freewalk(m: Machine, root: nat) returns (ok: bool)
    requires m.Valid() && root in m.roots && root < |m.mem|
    modifies m`mem, m`freelist, m`free, m`owner, m`gone, m`roots
    ensures m.Valid() && |m.mem| == |old(m.mem)|
    ensures ok <==> NoneMapped(old(m.mem), root, 0, NPAGES)
    ensures ok ==> m.roots == old(m.roots) - {root} && SpaceFreed(old(m.mem), old(m.owner), m.mem, m.owner, old(m.roots), root)
  {
    Bounds(m.p, m.mem, m.roots, m.owner, m.gone);
    hide Owned, FreeList, NoneMapped, TablesCleared, SpaceFreed, SameEntries;
    ok := ClearTables(m, root);
    if !ok {
      return;
    }
    Bounds(m.p, m.mem, m.roots, m.owner, m.gone);
    Emptied(m.p, old(m.mem), old(m.owner), m.mem, m.owner, m.freelist, m.free, m.roots, root);
    ghost var m1, o1 := m.mem, m.owner;
    DropRoot(m, root);
    RootGone(m.p, old(m.mem), old(m.owner), m1, o1, m.mem, m.owner, old(m.roots), root);
  }

  /** kfree of a root that has no entries left. */
  method DropRoot(m: Machine, root: nat)
    requires m.Valid() && root in m.roots && root in m.owner && m.owner[root] == Root
    requires Owned(m.p, m.mem, m.roots - {root}, m.owner[root := Kernel], {})
    requires FreeList(m.mem, m.freelist, m.free, m.owner[root := Kernel])
    modifies m`mem, m`freelist, m`free, m`owner, m`roots
    ensures m.Valid() && |m.mem| == |old(m.mem)| && m.roots == old(m.roots) - {root} && m.owner == old(m.owner)[root := Free]
    ensures SameEntries(old(m.mem), m.mem, m.roots, {}) && forall f: nat :: f < |m.mem| && f != root ==> m.mem[f] == old(m.mem)[f]
  {
    Bounds(m.p, m.mem, m.roots, m.owner, m.gone);
    hide Owned, FreeList, SameEntries;
    m.roots := m.roots - {root};
    m.owner := m.owner[root := Kernel];
    assert root * PGSIZE / PGSIZE == root && root * PGSIZE % PGSIZE == 0;
    var ok := m.Kfree(root * PGSIZE);
    assert ok;
  }

  /** The loop of freewalk. */
  method ClearTables(m: Machine, root: nat) returns (ok: bool)
    requires m.Valid() && root in m.roots && root < |m.mem|
    modifies m`mem, m`freelist, m`free, m`owner, m`gone
    ensures m.Valid() && |m.mem| == |old(m.mem)|
    ensures ok <==> NoneMapped(old(m.mem), root, 0, NPAGES)
    ensures ok ==> TablesCleared(old(m.mem), old(m.owner), m.mem, m.owner, m.roots, root, 0, ENTRIES)
  {
    Bounds(m.p, m.mem, m.roots, m.owner, m.gone);
    hide Owned, FreeList, NoneMapped, TablesCleared, IsLeaf, Entry;
    NothingCleared(m.mem, m.owner, m.roots, root);
    NoneYet(m.mem, root, 0);
    var i := 0;
    while i < ENTRIES
      invariant m.Valid() && |m.mem| == |old(m.mem)|
      invariant i <= ENTRIES && NoneMapped(old(m.mem), root, 0, i * ENTRIES)
      invariant TablesCleared(old(m.mem), old(m.owner), m.mem, m.owner, m.roots, root, 0, i)
    {
      ghost var m1, o1 := m.mem, m.owner;
      TableBehind(m.p, m1, m.roots, o1, root, i);
      NotYet(old(m.mem), old(m.owner), m1, o1, m.roots, root, i);
      if IsValid(m.mem[root][i]) && !IsLeaf(m.mem[root][i]) {
        ok := FreeTable(m, root, i);
        if !ok {
          MoreMapped(old(m.mem), root, i);
          return;
        }
      } else {
        NoTable(m.p, m1, m.roots, o1, root, i);
      }
      ClearedStep(old(m.mem), old(m.owner), m1, o1, m.mem, m.owner, m.roots, root, i);
      i := i + 1;
    }
    ok := true;
  }

  lemma NothingCleared(mem: seq<Page>, owner: map<nat, Role>, roots: set<nat>, root: nat)
    requires forall r :: r in roots ==> r < |mem|
    ensures TablesCleared(mem, owner, mem, owner, roots, root, 0, 0)
  {
  }

  /** Pages behind entry i are mapped as they were at the start. */
  lemma NotYet(m0: seq<Page>, o0: map<nat, Role>, m1: seq<Page>, o1: map<nat, Role>, roots: set<nat>, root: nat, i: nat)
    requires TablesCleared(m0, o0, m1, o1, roots, root, 0, i) && root in roots && root < |m0| && i < ENTRIES
    ensures NoneMapped(m0, root, i * ENTRIES, (i + 1) * ENTRIES) <==> NoneMapped(m1, root, i * ENTRIES, (i + 1) * ENTRIES)
    ensures NoneMapped(m0, root, 0, i * ENTRIES) && NoneMapped(m0, root, i * ENTRIES, (i + 1) * ENTRIES) ==>
              NoneMapped(m0, root, 0, (i + 1) * ENTRIES)
  {
    forall v: nat | v < NPAGES ensures Entry(m1, Leaf(root, v)) == Entry(m0, Leaf(root, v)) {
    }
  }

  lemma MoreMapped(mem: seq<Page>, root: nat, i: nat)
    requires root < |mem| && i < ENTRIES && !NoneMapped(mem, root, i * ENTRIES, (i + 1) * ENTRIES)
    ensures !NoneMapped(mem, root, 0, NPAGES)
  {
    var v :| i * ENTRIES <= v < (i + 1) * ENTRIES && IsValid(Entry(mem, Leaf(root, v)));
    assert 0 <= v < NPAGES;
  }

  lemma NoTable(p: Pool, mem: seq<Page>, roots: set<nat>, owner: map<nat, Role>, root: nat, i: nat)
    requires Owned(p, mem, roots, owner, {}) && root in roots && root < |mem| && i < ENTRIES && !IsValid(mem[root][i])
    ensures NoneMapped(mem, root, i * ENTRIES, (i + 1) * ENTRIES)
    ensures TablesCleared(mem, owner, mem, owner, roots, root, i, i + 1)
  {
    var s := Table(root, i);
    assert SlotOk(mem, owner, s) && Entry(mem, s) == 0;
    forall f | f in owner && owner[f].Held? ensures !LowTable(owner[f].s, root, i, i + 1) {
      var x := owner[f].s;
      assert FrameOk(mem, roots, x, {}, f);
      assert x.Table? ==> x == Table(x.root, x.i);
    }
    forall x | InSpace(x, roots) ensures Entry(mem, x) == if LowTable(x, root, i, i + 1) then 0 else Entry(mem, x) {
      assert LowTable(x, root, i, i + 1) ==> x == s;
    }
  }

  lemma ClearedStep(m0: seq<Page>, o0: map<nat, Role>, m1: seq<Page>, o1: map<nat, Role>, m2: seq<Page>, o2: map<nat, Role>,
                    roots: set<nat>, root: nat, i: nat)
    requires TablesCleared(m0, o0, m1, o1, roots, root, 0, i) && TablesCleared(m1, o1, m2, o2, roots, root, i, i + 1)
    ensures TablesCleared(m0, o0, m2, o2, roots, root, 0, i + 1)
  {
    forall s | InSpace(s, roots) ensures Entry(m2, s) == if LowTable(s, root, 0, i + 1) then 0 else Entry(m0, s) {
      assert Entry(m2, s) == if LowTable(s, root, i, i + 1) then 0 else Entry(m1, s);
    }
    forall f | f in o0 ensures o2[f] == if o0[f].Held? && LowTable(o0[f].s, root, 0, i + 1) then Free else o0[f] {
      assert o2[f] == if o1[f].Held? && LowTable(o1[f].s, root, i, i + 1) then Free else o1[f];
    }
  }

  /** A root with no entry left may leave the set of roots. */
  lemma Emptied(p: Pool, m0: seq<Page>, o0: map<nat, Role>, m1: seq<Page>, o1: map<nat, Role>, head: nat, free: seq<nat>, roots: set<nat>, root: nat)
    requires Owned(p, m1, roots, o1, {}) && FreeList(m1, head, free, o1) && root in roots && root < |m0|
    requires TablesCleared(m0, o0, m1, o1, roots, root, 0, ENTRIES) && NoneMapped(m0, root, 0, NPAGES)
    ensures root in o1 && o1[root] == Root
    ensures Owned(p, m1, roots - {root}, o1[root := Kernel], {}) && FreeList(m1, head, free, o1[root := Kernel])
    ensures forall f :: f in o1 && o1[f].Held? ==> o1[f].s.root != root
  {
    var r2, o2 := roots - {root}, o1[root := Kernel];
    forall f | f in o1 && o1[f].Held? ensures o1[f].s.root != root && FrameOk(m1, r2, o1[f].s, {}, f) {
      var s := o1[f].s;
      assert FrameOk(m1, roots, s, {}, f);
      assert s.Leaf? ==> s == Leaf(s.root, s.v);
    }
    forall s | InSpace(s, r2) ensures SlotOk(m1, o2, s) {
      assert InSpace(s, roots) && SlotOk(m1, o1, s);
    }
    ListStore(m1, m1, head, free, o1, o2);
  }

  lemma RootGone(p: Pool, m0: seq<Page>, o0: map<nat, Role>, m1: seq<Page>, o1: map<nat, Role>, m2: seq<Page>, o2: map<nat, Role>,
                 roots: set<nat>, root: nat)
    requires TablesCleared(m0, o0, m1, o1, roots, root, 0, ENTRIES) && root in roots && |m1| == |m2|
    requires root in o1 && o1[root] == Root && o2 == o1[root := Free] && forall f :: f in o1 && o1[f].Held? ==> o1[f].s.root != root
    requires SameEntries(m1, m2, roots - {root}, {}) && forall f: nat :: f < |m1| && f != root ==> m2[f] == m1[f]
    ensures SpaceFreed(m0, o0, m2, o2, roots, root)
  {
    forall s | InSpace(s, roots - {root}) ensures Entry(m2, s) == Entry(m0, s) {
      assert InSpace(s, roots) && Entry(m2, s) == Entry(m1, s);
    }
    forall f | f in o0 ensures o2[f] == if BelongsTo(o0[f], f, root) then Free else o0[f] {
      assert o1[f] == if o0[f].Held? && LowTable(o0[f].s, root, 0, ENTRIES) then Free else o0[f];
      assert o1[f].Held? ==> o1[f].s.root != root;
    }
  }
}
