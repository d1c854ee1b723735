/** copyout, copyin and copyinstr of vm.c: bytes of a user address space, page by page. */
module UserCopy {
  import opened VmModel
  import opened VmCode
  import opened AddressSpaces
  import opened ProcessMemory

  type byte = x: int | 0 <= x < 256

  // ----- Bytes of a page -----

  /** Byte k of a little-endian word. */
  function WordByte(w: nat, k: nat): byte
    requires k < 4
  {
    if k == 0 then w % 256 else if k == 1 then w / 0x100 % 256 else if k == 2 then w / 0x1_0000 % 256 else w / 0x100_0000 % 256
  }

  function Join(a: byte, b: byte, c: byte, d: byte): nat { a + 0x100 * b + 0x1_0000 * c + 0x100_0000 * d }

  lemma JoinByte(a: byte, b: byte, c: byte, d: byte)
    ensures var w := Join(a, b, c, d); WordByte(w, 0) == a && WordByte(w, 1) == b && WordByte(w, 2) == c && WordByte(w, 3) == d
  {
  }

  function PageByte(page: Page, o: nat): byte
    requires o < PGSIZE
  {
    WordByte(page[o / 4], o % 4)
  }

  function Pick(page: Page, o: nat, src: seq<byte>, k: nat): byte
    requires k < PGSIZE
  {
    if o <= k < o + |src| then src[k - o] else PageByte(page, k)
  }

  /** memmove of src to offset o of the page. */
  function Patched(page: Page, o: nat, src: seq<byte>): Page {
    seq(1024, i requires 0 <= i < 1024 =>
      Join(Pick(page, o, src, 4 * i), Pick(page, o, src, 4 * i + 1), Pick(page, o, src, 4 * i + 2), Pick(page, o, src, 4 * i + 3)))
  }

  lemma PatchedByte(page: Page, o: nat, src: seq<byte>, k: nat)
    requires k < PGSIZE
    ensures PageByte(Patched(page, o, src), k) == if o <= k < o + |src| then src[k - o] else PageByte(page, k)
  {
    var i := k / 4;
    JoinByte(Pick(page, o, src, 4 * i), Pick(page, o, src, 4 * i + 1), Pick(page, o, src, 4 * i + 2), Pick(page, o, src, 4 * i + 3));
    assert k == 4 * i + k % 4;
  }

  // ----- Bytes of an address space -----

  /** The user may use this address. */
  predicate Mapped(mem: seq<Page>, root: nat, va: nat)
    requires root < |mem|
  {
    va < LIMIT && IsValid(Entry(mem, Leaf(root, va / PGSIZE))) && IsUser(Entry(mem, Leaf(root, va / PGSIZE)))
  }

  ghost predicate RangeMapped(mem: seq<Page>, root: nat, lo: nat, hi: nat)
    requires root < |mem|
  {
    forall va: nat :: lo <= va < hi ==> Mapped(mem, root, va)
  }

  function UserByte(mem: seq<Page>, root: nat, va: nat): byte
    requires root < |mem| && va < LIMIT
  {
    var f := Frame(Entry(mem, Leaf(root, va / PGSIZE)));
    if f < |mem| then PageByte(mem[f], va % PGSIZE) else 0
  }

  /** The trapframe and trampoline pages are not the user's. */
  ghost predicate UserBelow(mem: seq<Page>, root: nat)
    requires root < |mem|
  {
    forall va: nat :: Mapped(mem, root, va) ==> va / PGSIZE < UTOP
  }

  /** A process has its space from proc_pagetable, which maps those two pages without PTE_U. */
  lemma ProcessBelow(mem: seq<Page>, root: nat, n: nat, trampoline: nat, trapframe: nat)
    requires root < |mem| && ProcSpace(mem, root, n) && trampoline < NPAGES && trapframe < NPAGES
    requires Entry(mem, Leaf(root, TRAMPOLINE / PGSIZE)) == Pte(trampoline, PTE_R + PTE_X)
    requires Entry(mem, Leaf(root, TRAPFRAME / PGSIZE)) == Pte(trapframe, PTE_R + PTE_W)
    ensures UserBelow(mem, root)
  {
    PteFields(trampoline, PTE_R + PTE_X);
    PteFields(trapframe, PTE_R + PTE_W);
  }

  /** A user page's frame is its own. */
  lemma UserFrame(p: Pool, mem: seq<Page>, roots: set<nat>, owner: map<nat, Role>, root: nat, va: nat)
    requires Owned(p, mem, roots, owner, {}) && root in roots && root < |mem| && UserBelow(mem, root) && Mapped(mem, root, va)
    ensures var f := Frame(Entry(mem, Leaf(root, va / PGSIZE)));
            f < |mem| && 0 < f && f in owner && owner[f] == Held(Leaf(root, va / PGSIZE))
  {
    assert SlotOk(mem, owner, Leaf(root, va / PGSIZE));
  }

  /** Nothing but bytes lo..hi-1 of the space changed, and those are data. */
  ghost predicate Stored(m0: seq<Page>, m1: seq<Page>, roots: set<nat>, owner: map<nat, Role>, root: nat, lo: nat, data: seq<byte>)
    requires root < |m0|
  {
    && |m1| == |m0| && SameEntries(m0, m1, roots, {})
    && (forall f: nat :: f < |m0| && !(f in owner && owner[f].Held? && owner[f].s.Leaf? && owner[f].s.root == root) ==> m1[f] == m0[f])
    && (forall va: nat {:trigger UserByte(m1, root, va)} :: Mapped(m0, root, va) ==>
          UserByte(m1, root, va) == if lo <= va < lo + |data| then data[va - lo] else UserByte(m0, root, va))
  }

  lemma StoredMaps(m0: seq<Page>, m1: seq<Page>, roots: set<nat>, owner: map<nat, Role>, root: nat, lo: nat, data: seq<byte>, va: nat)
    requires root < |m0| && root in roots && Stored(m0, m1, roots, owner, root, lo, data)
    ensures Mapped(m1, root, va) <==> Mapped(m0, root, va)
    ensures va < LIMIT ==> Entry(m1, Leaf(root, va / PGSIZE)) == Entry(m0, Leaf(root, va / PGSIZE))
  {
    if va < LIMIT {
      EntriesSame(m0, m1, roots, Leaf(root, va / PGSIZE));
    }
  }

  lemma StoredNone(p: Pool, mem: seq<Page>, roots: set<nat>, owner: map<nat, Role>, root: nat, lo: nat)
    requires Owned(p, mem, roots, owner, {}) && root < |mem|
    ensures Stored(mem, mem, roots, owner, root, lo, [])
  {
    SameEntriesSelf(p, mem, roots, owner, {});
  }

  lemma StoredMore(m0: seq<Page>, m1: seq<Page>, m2: seq<Page>, roots: set<nat>, owner: map<nat, Role>, root: nat, lo: nat,
                   data: seq<byte>, piece: seq<byte>)
    requires root < |m0| && root < |m1| && root in roots
    requires Stored(m0, m1, roots, owner, root, lo, data) && Stored(m1, m2, roots, owner, root, lo + |data|, piece)
    ensures Stored(m0, m2, roots, owner, root, lo, data + piece)
  {
    SameEntriesTrans(m0, m1, m2, roots, {});
    forall va: nat | Mapped(m0, root, va)
      ensures UserByte(m2, root, va) == if lo <= va < lo + |data + piece| then (data + piece)[va - lo] else UserByte(m0, root, va)
    {
      StoredMaps(m0, m1, roots, owner, root, lo, data, va);
    }
  }

  /** memmove into the page at pa, where a user address lies. */
  method StorePiece(m: Machine, root: nat, va: nat, pa: nat, piece: seq<byte>)
    requires m.Valid() && root in m.roots && root < |m.mem| && UserBelow(m.mem, root) && Mapped(m.mem, root, va)
    requires va % PGSIZE + |piece| <= PGSIZE && pa == PhysicalPage(m.mem, root, va)
    modifies m`mem
    ensures m.Valid() && Stored(old(m.mem), m.mem, m.roots, m.owner, root, va, piece)
  {
    ghost var m0 := m.mem;
    var f := pa / PGSIZE;
    UserFrame(m.p, m.mem, m.roots, m.owner, root, va);
    PieceStored(m.p, m0, m.freelist, m.free, m.roots, m.owner, root, va, piece);
    hide Owned, FreeList, Stored, UserBelow;
    m.mem := m.mem[f := Patched(m.mem[f], va % PGSIZE, piece)];
  }

  lemma PieceStored(p: Pool, m0: seq<Page>, head: nat, free: seq<nat>, roots: set<nat>, owner: map<nat, Role>, root: nat, va: nat, piece: seq<byte>)
    requires Owned(p, m0, roots, owner, {}) && FreeList(m0, head, free, owner)
    requires root in roots && root < |m0| && UserBelow(m0, root) && Mapped(m0, root, va) && va % PGSIZE + |piece| <= PGSIZE
    ensures var f := Frame(Entry(m0, Leaf(root, va / PGSIZE)));
            && f < |m0|
            && var m1: seq<Page> := m0[f := Patched(m0[f], va % PGSIZE, piece)];
               Owned(p, m1, roots, owner, {}) && FreeList(m1, head, free, owner) && Stored(m0, m1, roots, owner, root, va, piece)
  {
    UserFrame(p, m0, roots, owner, root, va);
    var f := Frame(Entry(m0, Leaf(root, va / PGSIZE)));
    var m1: seq<Page> := m0[f := Patched(m0[f], va % PGSIZE, piece)];
    Listed2(p, m0, head, free, roots, owner);
    StoreElsewhere(p, m0, roots, owner, {}, f, Patched(m0[f], va % PGSIZE, piece));
    OwnedSame(p, m0, m1, roots, owner, {});
    ListStore(m0, m1, head, free, owner, owner);
    forall a: nat | Mapped(m0, root, a)
      ensures UserByte(m1, root, a) == if va <= a < va + |piece| then piece[a - va] else UserByte(m0, root, a)
    {
      EntriesSame(m0, m1, roots, Leaf(root, a / PGSIZE));
      UserFrame(p, m0, roots, owner, root, a);
      PatchedByte(m0[f], va % PGSIZE, piece, a % PGSIZE);
      SamePage(va, |piece|, a);
    }
  }

  lemma Listed2(p: Pool, mem: seq<Page>, head: nat, free: seq<nat>, roots: set<nat>, owner: map<nat, Role>)
    requires Owned(p, mem, roots, owner, {}) && FreeList(mem, head, free, owner)
    ensures forall f: nat :: f in free ==> f in owner && owner[f] == Free
  {
    Bounds(p, mem, roots, owner, {});
    Listed(mem, head, free, owner);
  }

  /** Addresses of a piece that stays in one page. */
  lemma SamePage(va: nat, n: nat, a: nat)
    requires va % PGSIZE + n <= PGSIZE
    ensures va <= a < va + n <==> a / PGSIZE == va / PGSIZE && va % PGSIZE <= a % PGSIZE < va % PGSIZE + n
    ensures a / PGSIZE == va / PGSIZE ==> a % PGSIZE - va % PGSIZE == a - va
  {
  }

  // ----- The loops -----

  /** va0 + PGSIZE in 32 bits. */
  function FollowingPage(a: nat): (r: nat)
    ensures r < LIMIT
  {
    (a / PGSIZE * PGSIZE + PGSIZE) % LIMIT
  }

  predicate Aligned(a: nat) { a % PGSIZE == 0 }

  function Min(a: nat, b: nat): nat { if a < b then a else b }

  /** What is left of the page from address a on, or n if that is less. */
  function Chunk(a: nat, n: nat): (r: nat)
    ensures n > 0 ==> 0 < r <= n && a % PGSIZE + r <= PGSIZE
    ensures r < n ==> (a + r) % PGSIZE == 0
    ensures forall b: nat :: a <= b < a + r ==> b / PGSIZE == a / PGSIZE
  {
    Min(PGSIZE - a % PGSIZE, n)
  }

  lemma OutBegins(m: Machine, root: nat, lo: nat, src: seq<byte>)
    requires m.Valid() && root in m.roots && root < |m.mem| && UserBelow(m.mem, root) && lo < LIMIT
    ensures OutAt(m, root, m.mem, m.owner, m.free, lo, src, 0, lo)
  {
    CopiedNone(m.p, m.mem, m.roots, m.owner, root, lo, src);
  }

  lemma OutEnds(m: Machine, root: nat, m0: seq<Page>, owner0: map<nat, Role>, free0: seq<nat>, lo: nat, src: seq<byte>, at: nat, dstva: nat)
    requires OutAt(m, root, m0, owner0, free0, lo, src, at, dstva)
    ensures m.Valid() && m.owner == owner0 && m.free == free0 && at <= |src|
    ensures Copied(m0, m.mem, m.roots, m.owner, root, lo, src, at)
    ensures at < |src| ==> dstva == lo + at && (at == 0 || Aligned(dstva))
  {
  }

  /** copyout.  It stores the bytes up to the first page that is not mapped for the user. */
  method Copyout(m: Machine, root: nat, dstva0: nat, src: seq<byte>) returns (ret: int, ghost done: nat)
    requires m.Valid() && root in m.roots && root < |m.mem| && UserBelow(m.mem, root) && dstva0 < LIMIT && |src| < LIMIT
    modifies m`mem, m`freelist, m`free, m`owner
    ensures m.Valid() && m.owner == old(m.owner) && m.free == old(m.free)
    ensures done <= |src| && ret == (if done == |src| then 0 else -1)
    ensures Copied(old(m.mem), m.mem, m.roots, m.owner, root, dstva0, src, done)
    ensures done < |src| ==> !Mapped(old(m.mem), root, dstva0 + done) && (done == 0 || Aligned(dstva0 + done))
  {
    hide OutAt, FollowingPage, Copied, UserBelow, Aligned, Mapped, Machine.Valid;
    ghost var m0: seq<Page>, owner0: map<nat, Role>, free0: seq<nat> := m.mem, m.owner, m.free;
    var dstva: nat, len: nat, at: nat := dstva0, |src|, 0;
    OutBegins(m, root, dstva0, src);
    while len > 0
      invariant at + len == |src| && OutAt(m, root, m0, owner0, free0, dstva0, src, at, dstva)
    {
      var ok, n := OutStep(m, root, dstva, src, at, dstva0, m0, owner0, free0);
      if !ok {
        OutEnds(m, root, m0, owner0, free0, dstva0, src, at, dstva);
        return -1, at;
      }
      len := len - n;
      at := at + n;
      dstva := FollowingPage(dstva);
    }
    OutEnds(m, root, m0, owner0, free0, dstva0, src, at, dstva);
    return 0, at;
  }

  /** copyout under way: the first `at` bytes are stored, and dstva is where the next one goes. */
  ghost predicate OutAt(m: Machine, root: nat, m0: seq<Page>, owner0: map<nat, Role>, free0: seq<nat>, lo: nat, src: seq<byte>,
                        at: nat, dstva: nat)
    reads m
  {
    && m.Valid() && m.owner == owner0 && m.free == free0
    && root in m.roots && root < |m.mem| && root < |m0| && UserBelow(m.mem, root)
    && at <= |src| && Copied(m0, m.mem, m.roots, m.owner, root, lo, src, at)
    && (at < |src| ==> dstva == lo + at && dstva < LIMIT && (at == 0 || Aligned(dstva)))
  }

  /** One round, seen from the start. */
  method OutStep(m: Machine, root: nat, dstva: nat, src: seq<byte>, at: nat, ghost lo: nat, ghost m0: seq<Page>,
                 ghost owner0: map<nat, Role>, ghost free0: seq<nat>)
    returns (ok: bool, n: nat)
    requires OutAt(m, root, m0, owner0, free0, lo, src, at, dstva) && at < |src|
    modifies m`mem, m`freelist, m`free, m`owner
    ensures !ok ==> OutAt(m, root, m0, owner0, free0, lo, src, at, dstva) && !Mapped(m0, root, dstva)
    ensures ok ==> 0 < n <= |src| - at && OutAt(m, root, m0, owner0, free0, lo, src, at + n, FollowingPage(dstva))
  {
    hide Owned, Copied, Stored, UserBelow, Mapped, RangeMapped, Aligned, OneRound, Machine.Valid;
    ghost var m1 := m.mem;
    CopiedMaps(m0, m1, m.roots, m.owner, root, lo, src, at, dstva);
    ok, n := OutRound(m, root, dstva, src[at..]);
    if ok {
      CopiedStep(m0, m1, m.mem, m.roots, m.owner, root, lo, src, at, n);
      NextAddress(dstva, n, |src| - at);
    }
  }

  /** The first `at` bytes are stored. */
  ghost predicate Copied(m0: seq<Page>, m1: seq<Page>, roots: set<nat>, owner: map<nat, Role>, root: nat, lo: nat, src: seq<byte>, at: nat)
    requires root < |m0|
  {
    at <= |src| && Stored(m0, m1, roots, owner, root, lo, src[..at]) && RangeMapped(m0, root, lo, lo + at)
  }

  lemma CopiedNone(p: Pool, mem: seq<Page>, roots: set<nat>, owner: map<nat, Role>, root: nat, lo: nat, src: seq<byte>)
    requires Owned(p, mem, roots, owner, {}) && root < |mem|
    ensures Copied(mem, mem, roots, owner, root, lo, src, 0)
  {
    StoredNone(p, mem, roots, owner, root, lo);
    assert src[..0] == [];
  }

  lemma CopiedMaps(m0: seq<Page>, m1: seq<Page>, roots: set<nat>, owner: map<nat, Role>, root: nat, lo: nat, src: seq<byte>, at: nat, va: nat)
    requires root < |m0| && root in roots && Copied(m0, m1, roots, owner, root, lo, src, at)
    ensures root < |m1| && (Mapped(m1, root, va) <==> Mapped(m0, root, va))
  {
    StoredMaps(m0, m1, roots, owner, root, lo, src[..at], va);
  }

  lemma CopiedStep(m0: seq<Page>, m1: seq<Page>, m2: seq<Page>, roots: set<nat>, owner: map<nat, Role>, root: nat, lo: nat,
                   src: seq<byte>, at: nat, n: nat)
    requires root < |m0| && root < |m1| && root in roots && Copied(m0, m1, roots, owner, root, lo, src, at)
    requires at + n <= |src| && Stored(m1, m2, roots, owner, root, lo + at, src[at..][..n]) && RangeMapped(m1, root, lo + at, lo + at + n)
    ensures Copied(m0, m2, roots, owner, root, lo, src, at + n)
  {
    StoredMore(m0, m1, m2, roots, owner, root, lo, src[..at], src[at..][..n]);
    assert src[..at] + src[at..][..n] == src[..at + n];
    RangeMore(m0, m1, roots, owner, root, lo, src[..at], n);
  }

  lemma RangeMore(m0: seq<Page>, m1: seq<Page>, roots: set<nat>, owner: map<nat, Role>, root: nat, lo: nat, data: seq<byte>, n: nat)
    requires root < |m0| && root < |m1| && root in roots && Stored(m0, m1, roots, owner, root, lo, data)
    requires RangeMapped(m0, root, lo, lo + |data|) && RangeMapped(m1, root, lo + |data|, lo + |data| + n)
    ensures RangeMapped(m0, root, lo, lo + |data| + n)
  {
    forall va: nat | lo <= va < lo + |data| + n ensures Mapped(m0, root, va) {
      if va >= lo + |data| {
        StoredMaps(m0, m1, roots, owner, root, lo, data, va);
      }
    }
  }

  /** walkaddr of the page of a user address. */
  method PageOf(m: Machine, root: nat, va: nat) returns (pa: nat)
    requires m.Valid() && root in m.roots && root < |m.mem| && UserBelow(m.mem, root) && va < LIMIT
    modifies m`mem, m`freelist, m`free, m`owner
    ensures m.Valid() && m.mem == old(m.mem) && m.owner == old(m.owner) && m.free == old(m.free)
    ensures pa == 0 <==> !Mapped(m.mem, root, va)
    ensures pa != 0 ==> pa == PhysicalPage(m.mem, root, va) && va / PGSIZE < UTOP
  {
    MappedAddress(m.p, m.mem, m.roots, m.owner, root, va);
    hide Owned, FreeList, UserBelow;
    pa := m.Walkaddr(root, va / PGSIZE * PGSIZE);
  }

  function PhysicalPage(mem: seq<Page>, root: nat, va: nat): nat
    requires root < |mem| && va < LIMIT
  {
    Frame(Entry(mem, Leaf(root, va / PGSIZE))) * PGSIZE
  }

  /** The n bytes from address a that one round copies, of len. */
  predicate OneRound(a: nat, n: nat, len: nat) {
    0 < n <= len && a % PGSIZE + n <= PGSIZE && (n < len ==> (a + n) % PGSIZE == 0) && a / PGSIZE < UTOP
  }

  lemma ChunkRound(a: nat, len: nat)
    requires len > 0 && a / PGSIZE < UTOP
    ensures OneRound(a, Chunk(a, len), len) && Chunk(a, len) <= len && a % PGSIZE + Chunk(a, len) <= PGSIZE
  {
  }

  /** One round of copyout, with `src` left to copy. */
  method OutRound(m: Machine, root: nat, dstva: nat, src: seq<byte>) returns (ok: bool, n: nat)
    requires m.Valid() && root in m.roots && root < |m.mem| && UserBelow(m.mem, root) && dstva < LIMIT && |src| > 0
    modifies m`mem, m`freelist, m`free, m`owner
    ensures m.Valid() && m.owner == old(m.owner) && m.free == old(m.free) && root < |m.mem| && UserBelow(m.mem, root)
    ensures ok <==> Mapped(old(m.mem), root, dstva)
    ensures !ok ==> m.mem == old(m.mem)
    ensures ok ==> OneRound(dstva, n, |src|) && n <= |src|
    ensures ok ==> RangeMapped(old(m.mem), root, dstva, dstva + n)
    ensures ok ==> Stored(old(m.mem), m.mem, m.roots, m.owner, root, dstva, src[..n])
  {
    hide Machine.Valid, Stored, UserBelow, Mapped, RangeMapped, PhysicalPage, OneRound, Chunk;
    ok, n := true, 0;
    var pa0 := PageOf(m, root, dstva);
    if pa0 == 0 {
      return false, 0;
    }
    ChunkRound(dstva, |src|);
    ChunkMapped(m.mem, root, dstva, |src|);
    n := Chunk(dstva, |src|);
    ghost var m1 := m.mem;
    StorePiece(m, root, dstva, pa0, src[..n]);
    StoredSize(m1, m.mem, m.roots, m.owner, root, dstva, src[..n]);
    BelowStill(m1, m.mem, m.roots, m.owner, root, dstva, src[..n]);
  }

  lemma StoredSize(m0: seq<Page>, m1: seq<Page>, roots: set<nat>, owner: map<nat, Role>, root: nat, lo: nat, data: seq<byte>)
    requires root < |m0| && Stored(m0, m1, roots, owner, root, lo, data)
    ensures |m1| == |m0|
  {
  }

  /** walkaddr's answer tells whether the user may use the address. */
  lemma MappedAddress(p: Pool, mem: seq<Page>, roots: set<nat>, owner: map<nat, Role>, root: nat, va: nat)
    requires Owned(p, mem, roots, owner, {}) && root in roots && root < |mem| && UserBelow(mem, root) && va < LIMIT
    ensures va / PGSIZE * PGSIZE / PGSIZE == va / PGSIZE && va / PGSIZE * PGSIZE < LIMIT
    ensures Mapped(mem, root, va) ==> va / PGSIZE < UTOP && Frame(Entry(mem, Leaf(root, va / PGSIZE))) != 0
  {
    if Mapped(mem, root, va) {
      UserFrame(p, mem, roots, owner, root, va);
    }
  }

  lemma ChunkMapped(mem: seq<Page>, root: nat, a: nat, n: nat)
    requires root < |mem| && Mapped(mem, root, a) && a / PGSIZE < UTOP && n > 0
    ensures RangeMapped(mem, root, a, a + Chunk(a, n))
  {
  }

  lemma BelowStill(m0: seq<Page>, m1: seq<Page>, roots: set<nat>, owner: map<nat, Role>, root: nat, lo: nat, data: seq<byte>)
    requires root < |m0| && root < |m1| && root in roots && UserBelow(m0, root) && Stored(m0, m1, roots, owner, root, lo, data)
    ensures UserBelow(m1, root)
  {
    forall va: nat | Mapped(m1, root, va) ensures va / PGSIZE < UTOP {
      StoredMaps(m0, m1, roots, owner, root, lo, data, va);
    }
  }

  /** Where the address goes next: a user page is not the last, so it does not wrap while bytes are left. */
  lemma NextAddress(a: nat, n: nat, len: nat)
    requires a < LIMIT && OneRound(a, n, len)
    ensures 0 < n <= len
    ensures len > n ==> FollowingPage(a) == a + n && Aligned(a + n)
  {
  }

  // ----- copyin and copyinstr -----

  ghost function UserBytes(mem: seq<Page>, root: nat, lo: nat, n: nat): (r: seq<byte>)
    requires root < |mem| && lo + n <= LIMIT
    ensures |r| == n && forall k :: 0 <= k < n ==> r[k] == UserByte(mem, root, lo + k)
  {
    seq<byte>(n, k requires 0 <= k < n => UserByte(mem, root, lo + k))
  }

  /** memmove from the page at pa. */
  method LoadPiece(m: Machine, root: nat, va: nat, pa: nat, n: nat) returns (piece: seq<byte>)
    requires m.Valid() && root in m.roots && root < |m.mem| && UserBelow(m.mem, root) && Mapped(m.mem, root, va)
    requires va % PGSIZE + n <= PGSIZE && pa == PhysicalPage(m.mem, root, va)
    ensures va + n <= LIMIT && piece == UserBytes(m.mem, root, va, n)
  {
    UserFrame(m.p, m.mem, m.roots, m.owner, root, va);
    hide Owned, FreeList, UserBelow, WordByte;
    var f := pa / PGSIZE;
    piece := [];
    while |piece| < n
      invariant |piece| <= n && forall k :: 0 <= k < |piece| ==> piece[k] == UserByte(m.mem, root, va + k)
    {
      SamePage(va, n, va + |piece|);
      piece := piece + [PageByte(m.mem[f], va % PGSIZE + |piece|)];
    }
  }

  lemma BytesMore(mem: seq<Page>, root: nat, lo: nat, a: seq<byte>, b: seq<byte>)
    requires root < |mem| && lo + |a| + |b| <= LIMIT
    requires a == UserBytes(mem, root, lo, |a|) && b == UserBytes(mem, root, lo + |a|, |b|)
    ensures a + b == UserBytes(mem, root, lo, |a| + |b|)
  {
    forall k: nat | k < |a| + |b| ensures (a + b)[k] == UserByte(mem, root, lo + k) {
    }
  }

  /** One round of copyin, of at most len bytes. */
  method InRound(m: Machine, root: nat, srcva: nat, len: nat) returns (ok: bool, piece: seq<byte>)
    requires m.Valid() && root in m.roots && root < |m.mem| && UserBelow(m.mem, root) && srcva < LIMIT && len > 0
    modifies m`mem, m`freelist, m`free, m`owner
    ensures m.Valid() && m.mem == old(m.mem) && m.owner == old(m.owner) && m.free == old(m.free)
    ensures ok <==> Mapped(m.mem, root, srcva)
    ensures ok ==> OneRound(srcva, |piece|, len) && RangeMapped(m.mem, root, srcva, srcva + |piece|)
    ensures ok ==> srcva + |piece| <= LIMIT && piece == UserBytes(m.mem, root, srcva, |piece|)
  {
    hide Machine.Valid, UserBelow, Mapped, RangeMapped, PhysicalPage, OneRound, Chunk;
    ok, piece := true, [];
    var pa0 := PageOf(m, root, srcva);
    if pa0 == 0 {
      return false, [];
    }
    ChunkRound(srcva, len);
    ChunkMapped(m.mem, root, srcva, len);
    piece := LoadPiece(m, root, srcva, pa0, Chunk(srcva, len));
  }

  /** The bytes from lo on, as far as dst goes; all of them may be used. */
  ghost predicate Loaded(mem: seq<Page>, root: nat, lo: nat, dst: seq<byte>)
    requires root < |mem|
  {
    lo + |dst| <= LIMIT && dst == UserBytes(mem, root, lo, |dst|) && RangeMapped(mem, root, lo, lo + |dst|)
  }

  lemma LoadedMore(mem: seq<Page>, root: nat, lo: nat, dst: seq<byte>, piece: seq<byte>)
    requires root < |mem| && Loaded(mem, root, lo, dst) && Loaded(mem, root, lo + |dst|, piece)
    ensures Loaded(mem, root, lo, dst + piece)
  {
    BytesMore(mem, root, lo, dst, piece);
  }

  lemma LoadedPrefix(mem: seq<Page>, root: nat, lo: nat, dst: seq<byte>, n: nat)
    requires root < |mem| && Loaded(mem, root, lo, dst) && n <= |dst|
    ensures Loaded(mem, root, lo, dst[..n])
  {
  }

  /** copyin.  It delivers the bytes up to the first page that is not mapped for the user. */
  method Copyin(m: Machine, root: nat, srcva0: nat, len0: nat) returns (ret: int, dst: seq<byte>)
    requires m.Valid() && root in m.roots && root < |m.mem| && UserBelow(m.mem, root) && srcva0 < LIMIT && len0 < LIMIT
    modifies m`mem, m`freelist, m`free, m`owner
    ensures m.Valid() && m.mem == old(m.mem) && m.owner == old(m.owner) && m.free == old(m.free)
    ensures |dst| <= len0 && ret == (if |dst| == len0 then 0 else -1)
    ensures Loaded(m.mem, root, srcva0, dst)
    ensures |dst| < len0 ==> !Mapped(m.mem, root, srcva0 + |dst|) && (dst == [] || Aligned(srcva0 + |dst|))
  {
    dst := [];
    var srcva: nat, len: nat := srcva0, len0;
    hide Loaded, UserBelow, Mapped, RangeMapped, Aligned, FollowingPage, OneRound, Machine.Valid;
    assert Loaded(m.mem, root, srcva0, dst) by { NothingLoaded(m.mem, root, srcva0); }
    while len > 0
      invariant m.Valid() && m.mem == old(m.mem) && m.owner == old(m.owner) && m.free == old(m.free)
      invariant |dst| + len == len0 && (len > 0 ==> srcva == srcva0 + |dst|) && srcva < LIMIT
      invariant dst != [] && len > 0 ==> Aligned(srcva)
      invariant Loaded(m.mem, root, srcva0, dst)
    {
      var ok, piece := InRound(m, root, srcva, len);
      if !ok {
        return -1, dst;
      }
      assert Loaded(m.mem, root, srcva, piece) by { PieceLoaded(m.mem, root, srcva, piece); }
      LoadedMore(m.mem, root, srcva0, dst, piece);
      NextAddress(srcva, |piece|, len);
      dst := dst + piece;
      len := len - |piece|;
      srcva := FollowingPage(srcva);
    }
    ret := 0;
  }

  lemma NothingLoaded(mem: seq<Page>, root: nat, lo: nat)
    requires root < |mem| && lo < LIMIT
    ensures Loaded(mem, root, lo, [])
  {
  }

  lemma PieceLoaded(mem: seq<Page>, root: nat, lo: nat, piece: seq<byte>)
    requires root < |mem| && lo + |piece| <= LIMIT && piece == UserBytes(mem, root, lo, |piece|) && RangeMapped(mem, root, lo, lo + |piece|)
    ensures Loaded(mem, root, lo, piece)
  {
  }

  lemma NoNulYet()
    ensures NoNul([])
  {
  }

  /** copyinstr: the string at the address with its terminator, if it ends within max bytes of user
      memory; otherwise what was read before. */
  method Copyinstr(m: Machine, root: nat, srcva0: nat, max0: nat) returns (ret: int, dst: seq<byte>)
    requires m.Valid() && root in m.roots && root < |m.mem| && UserBelow(m.mem, root) && srcva0 < LIMIT && max0 < LIMIT
    modifies m`mem, m`freelist, m`free, m`owner
    ensures m.Valid() && m.mem == old(m.mem) && m.owner == old(m.owner) && m.free == old(m.free)
    ensures |dst| <= max0 && Loaded(m.mem, root, srcva0, dst) && (ret == 0 || ret == -1)
    ensures ret == 0 ==> Terminated(dst)
    ensures ret == -1 ==> (|dst| == max0 || !Mapped(m.mem, root, srcva0 + |dst|)) && NoNul(dst)
  {
    hide NoNul, Terminated, Loaded, UserBelow, Mapped, RangeMapped, Aligned, FollowingPage, OneRound, Machine.Valid;
    dst := [];
    var srcva: nat, max: nat, gotNull := srcva0, max0, false;
    NoNulYet();
    assert Loaded(m.mem, root, srcva0, dst) by { NothingLoaded(m.mem, root, srcva0); }
    while !gotNull && max > 0
      invariant m.Valid() && m.mem == old(m.mem) && m.owner == old(m.owner) && m.free == old(m.free)
      invariant |dst| <= max0 && srcva < LIMIT && (!gotNull ==> |dst| + max == max0 && (max > 0 ==> srcva == srcva0 + |dst|))
      invariant Loaded(m.mem, root, srcva0, dst)
      invariant if gotNull then Terminated(dst) else NoNul(dst)
      decreases !gotNull, max
    {
      var ok, piece := InRound(m, root, srcva, max);
      if !ok {
        return -1, dst;
      }
      assert Loaded(m.mem, root, srcva, piece) by { PieceLoaded(m.mem, root, srcva, piece); }
      NextAddress(srcva, |piece|, max);
      var n;
      n, gotNull := UpToNul(piece);
      LoadedPrefix(m.mem, root, srcva, piece, n);
      LoadedMore(m.mem, root, srcva0, dst, piece[..n]);
      StringMore(dst, piece[..n]);
      dst := dst + piece[..n];
      max := max - n;
      srcva := FollowingPage(srcva);
    }
    ret := if gotNull then 0 else -1;
  }

  predicate NoNul(s: seq<byte>) { forall k :: 0 <= k < |s| ==> s[k] != 0 }

  /** A string with its terminator. */
  predicate Terminated(s: seq<byte>) { s != [] && s[|s| - 1] == 0 && NoNul(s[..|s| - 1]) }

  lemma StringMore(s: seq<byte>, t: seq<byte>)
    ensures NoNul(s) && NoNul(t) ==> NoNul(s + t)
    ensures NoNul(s) && Terminated(t) ==> Terminated(s + t)
  {
    if t != [] {
      assert (s + t)[..|s + t| - 1] == s + t[..|t| - 1];
    }
  }

  /** The inner loop of copyinstr: the bytes up to the first NUL, that included. */
  method UpToNul(piece: seq<byte>) returns (n: nat, found: bool)
    requires piece != []
    ensures 0 < n <= |piece|
    ensures if found then Terminated(piece[..n]) else n == |piece| && NoNul(piece[..n])
  {
    n, found := 0, false;
    while n < |piece|
      invariant n <= |piece| && NoNul(piece[..n])
    {
      if piece[n] == 0 {
        assert piece[..n + 1][..n] == piece[..n];
        return n + 1, true;
      }
      n := n + 1;
    }
  }

  /** What copyout stored, copyin reads. */
  method OutThenIn(m: Machine, root: nat, va: nat, src: seq<byte>) returns (ret: int, dst: seq<byte>)
    requires m.Valid() && root in m.roots && root < |m.mem| && UserBelow(m.mem, root) && va < LIMIT && |src| < LIMIT
    modifies m`mem, m`freelist, m`free, m`owner
    ensures m.Valid() && (ret == 0 ==> dst == src)
    ensures ret == 0 <==> RangeMapped(old(m.mem), root, va, va + |src|)
  {
    ghost var m0 := m.mem;
    var r, done := Copyout(m, root, va, src);
    if r < 0 {
      assert !Mapped(m0, root, va + done);
      return -1, [];
    }
    CopiedBack(m0, m.mem, m.roots, m.owner, root, va, src);
    hide Machine.Valid, Copied;
    ret, dst := Copyin(m, root, va, |src|);
  }

  lemma CopiedBack(m0: seq<Page>, m1: seq<Page>, roots: set<nat>, owner: map<nat, Role>, root: nat, lo: nat, src: seq<byte>)
    requires root < |m0| && root in roots && Copied(m0, m1, roots, owner, root, lo, src, |src|) && UserBelow(m0, root)
    ensures root < |m1| && UserBelow(m1, root) && RangeMapped(m0, root, lo, lo + |src|) && RangeMapped(m1, root, lo, lo + |src|)
    ensures forall k: nat :: k < |src| && lo + k < LIMIT ==> UserByte(m1, root, lo + k) == src[k]
  {
    assert src[..|src|] == src;
    BelowStill(m0, m1, roots, owner, root, lo, src);
    forall va: nat | lo <= va < lo + |src| ensures Mapped(m1, root, va) {
      StoredMaps(m0, m1, roots, owner, root, lo, src, va);
    }
  }
}
