/** log.c over the buffer cache, sector write by sector write.  Every change of the ghost protocol
    state goes through `Do`, so each step of this code is a step of LogProtocol. */
module LogCode {
  import opened LogProtocol
  import opened BufferCache

  /** The cache agrees with the protocol's: same blocks, same contents except for the buffers in
      `dirty`, which a lock holder is changing; pinned blocks are referenced beside any lock holder. */
  ghost predicate Couples(dev: nat, total: nat, bufs: seq<Buf>, slots: map<Key, nat>, st: State, dirty: set<nat>) {
    && (forall k :: k in slots ==> k.0 == dev && k.1 < total && slots[k] < |bufs| && bufs[slots[k]].valid)
    && (forall b: nat :: b in st.cache <==> (dev, b) in slots)
    && (forall b: nat :: b in st.cache && b !in dirty ==> bufs[slots[(dev, b)]].data == st.cache[b])
    && (forall b: nat :: b in Pinned(st) ==> PinnedIn(bufs, slots, (dev, b)))
    && (forall b :: b in dirty ==> (dev, b) in slots && bufs[slots[(dev, b)]].locked)
  }

  ghost predicate PinnedIn(bufs: seq<Buf>, slots: map<Key, nat>, k: Key) {
    k in slots && slots[k] < |bufs| && bufs[slots[k]].refcnt > if bufs[slots[k]].locked then 1 else 0
  }

  /** Buffer i holds block b, is locked, and others' references to it number `others`. */
  ghost predicate Holds(bufs: seq<Buf>, slots: map<Key, nat>, dev: nat, b: nat, i: nat) {
    (dev, b) in slots && slots[(dev, b)] == i && i < |bufs| && bufs[i].locked && bufs[i].valid
    && bufs[i].dev == dev && bufs[i].blockno == b && bufs[i].refcnt > 0
  }

  ghost predicate Unlocked(bufs: seq<Buf>, slots: map<Key, nat>, dev: nat, b: nat)
  {
    (dev, b) in slots && slots[(dev, b)] < |bufs| ==> !bufs[slots[(dev, b)]].locked
  }

  /** What bread leaves of the cache when it recycles buffer i for block b. */
  ghost function CacheAfterMiss(dev: nat, e: Buf, b: nat, st: State): map<nat, Block>
    requires b < |st.disk|
  {
    (if e.dev == dev then st.cache - {e.blockno} else st.cache)[b := st.disk[b]]
  }

  /** Recycling an unreferenced buffer drops no block that is pinned, being changed, or held. */
  lemma RecycleSafe(dev: nat, total: nat, n: nat, x: seq<Buf>, slots: map<Key, nat>, st: State, dirty: set<nat>, i: nat)
    requires Couples(dev, total, x, slots, st, dirty) && n < |x| && Indexed(x, n, slots) && i < n && x[i].refcnt == 0
    ensures forall k :: k in slots && slots[k] == i ==> k == KeyOf(x[i])
    ensures forall k :: k in slots && x[slots[k]].refcnt > 0 ==> k != KeyOf(x[i])
    ensures forall q: nat :: q in Pinned(st) || q in dirty ==> (dev, q) in slots && (dev, q) != KeyOf(x[i])
    ensures x[i].dev != dev ==> forall k :: k in slots ==> k != KeyOf(x[i])
  {
    forall q: nat | q in Pinned(st) || q in dirty
      ensures (dev, q) in slots && (dev, q) != KeyOf(x[i])
    {
      assert PinnedIn(x, slots, (dev, q)) || x[slots[(dev, q)]].locked;
      assert x[slots[(dev, q)]].refcnt > 0;
    }
  }

  lemma CoupleMiss(dev: nat, total: nat, n: nat, x: seq<Buf>, y: seq<Buf>, slots: map<Key, nat>, slots': map<Key, nat>,
                   st: State, m: map<nat, Block>, dirty: set<nat>, i: nat, b: nat)
    requires Couples(dev, total, x, slots, st, dirty)
    requires n < |x| == |y| && Indexed(x, n, slots) && i < n && b < total && (dev, b) !in slots
    requires x[i].refcnt == 0 && forall j :: 0 <= j < |x| && j != i ==> x[j] == y[j]
    requires forall k :: k in slots' <==> k == (dev, b) || (k in slots && k != KeyOf(x[i]))
    requires forall k :: k in slots' ==> slots'[k] == if k == (dev, b) then i else slots[k]
    requires forall q: nat :: q in m <==> q == b || (q in st.cache && (dev, q) != KeyOf(x[i]))
    requires forall q: nat :: q in m && q != b ==> m[q] == st.cache[q]
    requires y[i].valid && y[i].locked && y[i].data == m[b]
    ensures Couples(dev, total, y, slots', st.(cache := m), dirty)
  {
    RecycleSafe(dev, total, n, x, slots, st, dirty, i);
    MissPins(dev, total, x, y, slots, slots', st, dirty, i);
  }

  lemma MissPins(dev: nat, total: nat, x: seq<Buf>, y: seq<Buf>, slots: map<Key, nat>, slots': map<Key, nat>,
                 st: State, dirty: set<nat>, i: nat)
    requires Couples(dev, total, x, slots, st, dirty) && |x| == |y|
    requires forall k :: k in slots && slots[k] != i ==> k in slots' && slots'[k] == slots[k]
    requires i < |x| && x[i].refcnt == 0 && forall j :: 0 <= j < |x| && j != i ==> x[j] == y[j]
    ensures forall q: nat :: q in Pinned(st) ==> PinnedIn(y, slots', (dev, q))
  {
    forall q: nat | q in Pinned(st) ensures PinnedIn(y, slots', (dev, q)) {
      assert PinnedIn(x, slots, (dev, q));
    }
  }

  lemma MissEnabled(c: Config, dev: nat, n: nat, x: seq<Buf>, slots: map<Key, nat>, st: State,
                    dirty: set<nat>, i: nat, b: nat)
    requires Inv(c, st) && Couples(dev, c.total, x, slots, st, dirty)
    requires n < |x| && Indexed(x, n, slots) && i < n && b < c.total && (dev, b) !in slots && x[i].refcnt == 0
    ensures Enabled(c, st, MoveCache(CacheAfterMiss(dev, x[i], b, st)))
  {
    var m := CacheAfterMiss(dev, x[i], b, st);
    RecycleSafe(dev, c.total, n, x, slots, st, dirty, i);
    assert b !in Pinned(st);
    forall q: nat | q in m ensures Readable(st, q, m[q]) {
    }
  }

  lemma MissStep(c: Config, dev: nat, n: nat, x: seq<Buf>, y: seq<Buf>, slots: map<Key, nat>, st: State,
                 dirty: set<nat>, i: nat, b: nat)
    requires Inv(c, st) && Couples(dev, c.total, x, slots, st, dirty)
    requires n < |x| == |y| && Indexed(x, n, slots) && i < n && b < c.total && (dev, b) !in slots && x[i].refcnt == 0
    requires forall j :: 0 <= j < |x| && j != i ==> x[j] == y[j]
    requires y[i].valid && y[i].locked && y[i].data == st.disk[b]
    ensures var m := CacheAfterMiss(dev, x[i], b, st); var slots' := (slots - {KeyOf(x[i])})[(dev, b) := i];
            && Enabled(c, st, MoveCache(m)) && Couples(dev, c.total, y, slots', st.(cache := m), dirty)
            && forall k :: k in slots && x[slots[k]].refcnt > 0 ==> k in slots' && slots'[k] == slots[k]
  {
    RecycleSafe(dev, c.total, n, x, slots, st, dirty, i);
    MissEnabled(c, dev, n, x, slots, st, dirty, i, b);
    CoupleMiss(dev, c.total, n, x, y, slots, (slots - {KeyOf(x[i])})[(dev, b) := i], st, CacheAfterMiss(dev, x[i], b, st),
               dirty, i, b);
  }

  lemma CoupleHit(c: Config, dev: nat, n: nat, x: seq<Buf>, y: seq<Buf>, slots: map<Key, nat>, st: State,
                  dirty: set<nat>, i: nat)
    requires Couples(dev, c.total, x, slots, st, dirty)
    requires n < |x| == |y| && Indexed(x, n, slots) && i < n
    requires !x[i].locked && y[i] == x[i].(refcnt := x[i].refcnt + 1, locked := true)
    requires forall j :: 0 <= j < |x| && j != i ==> x[j] == y[j]
    ensures Couples(dev, c.total, y, slots, st, dirty)
  {
    forall q: nat | q in Pinned(st) ensures PinnedIn(y, slots, (dev, q)) {
      assert PinnedIn(x, slots, (dev, q));
    }
  }

  /** Buffer i, holding block b, was filled and written through. */
  lemma CouplePut(dev: nat, total: nat, n: nat, x: seq<Buf>, y: seq<Buf>, slots: map<Key, nat>, st: State, st2: State,
                  i: nat, b: nat, data: Block)
    requires n < |x| && Indexed(x, n, slots) && Couples(dev, total, x, slots, st, {})
    requires Holds(x, slots, dev, b, i) && i < n && y == x[i := x[i].(data := data)]
    requires st2.cache == st.cache[b := data]
    requires forall q: nat :: q in Pinned(st2) ==> q in Pinned(st)
    ensures Couples(dev, total, y, slots, st2, {})
  {
    forall k | k in slots && k != (dev, b) ensures slots[k] != i {
      assert KeyOf(x[slots[k]]) == k;
    }
    forall q: nat | q in Pinned(st2) ensures PinnedIn(y, slots, (dev, q)) {
      assert PinnedIn(x, slots, (dev, q));
    }
  }

  /** brelse of a locked buffer, or bunpin of one the protocol no longer counts as pinned. */
  lemma CoupleDrop(dev: nat, total: nat, x: seq<Buf>, y: seq<Buf>, slots: map<Key, nat>, st: State, dirty: set<nat>,
                   i: nat, b: nat)
    requires Couples(dev, total, x, slots, st, dirty)
    requires |x| == |y| && i < |x| && b !in dirty
    requires forall k :: k in slots && slots[k] == i ==> k == (dev, b)
    requires forall j :: 0 <= j < |x| && j != i ==> SameData(y[j], x[j])
    requires SameData(y[i], x[i].(locked := y[i].locked, refcnt := y[i].refcnt))
    requires b in Pinned(st) ==> y[i].refcnt > if y[i].locked then 1 else 0
    ensures Couples(dev, total, y, slots, st, dirty)
  {
    forall q: nat | q in Pinned(st) ensures PinnedIn(y, slots, (dev, q)) {
      assert PinnedIn(x, slots, (dev, q));
    }
    forall q | q in dirty ensures y[slots[(dev, q)]].locked {
      assert slots[(dev, q)] != i;
    }
  }

  ghost predicate NoLocks(bufs: seq<Buf>) {
    forall i :: 0 <= i < |bufs| ==> !bufs[i].locked
  }

  /** No buffer gained a reference. */
  ghost predicate RefsDown(x: seq<Buf>, y: seq<Buf>) {
    |x| == |y| && forall i {:trigger x[i]} {:trigger y[i]} :: 0 <= i < |x| ==> y[i].refcnt <= x[i].refcnt
  }

  /** Two buffers may be recycled. */
  ghost predicate TwoFree(bufs: seq<Buf>) {
    exists i, j :: 0 <= i < j < |bufs| && bufs[i].refcnt == 0 && bufs[j].refcnt == 0
  }

  /** From index `from` on, every image of the medium recovers to view v. */
  ghost predicate AllRecover(c: Config, images: seq<Disk>, from: nat, v: Disk) {
    forall k :: from <= k < |images| ==> RecoversTo(c, images[k], v)
  }

  lemma OpenMeansIdle(c: Config, s: State)
    requires Inv(c, s) && s.open != []
    ensures s.phase == Idle
  {
  }

  lemma InCache(dev: nat, total: nat, bufs: seq<Buf>, slots: map<Key, nat>, st: State, dirty: set<nat>, b: nat)
    requires Couples(dev, total, bufs, slots, st, dirty)
    ensures (dev, b) in slots <==> b in st.cache
    ensures b in st.cache && b !in dirty ==> slots[(dev, b)] < |bufs| && bufs[slots[(dev, b)]].data == st.cache[b]
  {
  }

  lemma EndOpEffect(c: Config, s: State, who: nat)
    requires s.phase == Idle && who < |s.open|
    ensures Enabled(c, s, EndOp(who))
    ensures var n := Next(c, s, EndOp(who));
            && |n.open| == |s.open| - 1
            && n == s.(open := n.open, phase := if |s.open| == 1 && s.lh != [] then Logging(0) else Idle)
  {
  }

  lemma LogWriteEffect(c: Config, s: State, who: nat, b: nat, data: Block)
    requires s.phase == Idle && who < |s.open| && !LogFull(c, |s.lh|) && IsHome(c, b) && |data| == c.words && b in s.cache
    ensures Enabled(c, s, Action.LogWrite(who, b, data))
    ensures var n := Next(c, s, Action.LogWrite(who, b, data));
            && n.disk == s.disk && n.phase == Idle && |n.open| == |s.open| && n.cache == s.cache[b := data]
            && n.lh == s.lh + (if b in s.lh then [] else [b])
            && n.live == SetSector(s.live, b, data) && n.committed == s.committed
            && n.pending == s.pending + [Update(s.open[who].id, b, data)]
  {
  }

  lemma CoupleLogged(dev: nat, total: nat, n: nat, x: seq<Buf>, y: seq<Buf>, slots: map<Key, nat>, st: State, st2: State,
                     i: nat, b: nat, dirty: set<nat>)
    requires n < |x| && Indexed(x, n, slots) && Couples(dev, total, x, slots, st, dirty)
    requires Holds(x, slots, dev, b, i) && i < n
    requires y == x[i := x[i].(refcnt := x[i].refcnt + if b in st.lh then 0 else 1)]
    requires st.phase == st2.phase == Idle && st2.cache == st.cache[b := x[i].data]
    requires st2.lh == st.lh + if b in st.lh then [] else [b]
    ensures Couples(dev, total, y, slots, st2, dirty - {b})
  {
    forall q: nat | q in Pinned(st2) ensures PinnedIn(y, slots, (dev, q)) {
      assert q in st.lh ==> PinnedIn(x, slots, (dev, q));
      assert q != b ==> KeyOf(x[slots[(dev, q)]]) == (dev, q);
    }
    forall q: nat | q in st2.cache && q !in dirty - {b} ensures y[slots[(dev, q)]].data == st2.cache[q] {
      assert q != b ==> KeyOf(x[slots[(dev, q)]]) == (dev, q);
    }
  }

  lemma HeadCount(c: Config, d: Disk)
    requires ValidHead(c, d)
    ensures var hb := d[c.start]; |hb| > 0 && hb[0] < |hb| && hb[0] <= c.logSize && Head(c, d) == HeadOf(hb)
  {
  }

  lemma BootClean(c: Config, s: State)
    requires Inv(c, s) && s.phase == Booting
    ensures s.live == s.committed && s.open == []
  {
  }

  lemma EmptyLogAgrees(c: Config, d: Disk, v: Disk)
    requires RecoversTo(c, d, v) && Head(c, d) == []
    ensures AgreeHome(c, d, v)
  {
  }

  lemma PinnedSlot(dev: nat, total: nat, bufs: seq<Buf>, slots: map<Key, nat>, st: State, dirty: set<nat>, b: nat)
    requires Couples(dev, total, bufs, slots, st, dirty)
    ensures b in Pinned(st) ==> PinnedIn(bufs, slots, (dev, b))
  {
  }

  lemma OneLeft(x: seq<Buf>, y: seq<Buf>, i: nat)
    requires |x| == |y| && forall j :: 0 <= j < |x| && j != i ==> x[j] == y[j]
    ensures TwoFree(x) ==> exists j :: 0 <= j < |y| && y[j].refcnt == 0
  {
  }

  /** Every reference is a pin of the log or a holder's. */
  ghost predicate RefsOnly(n: nat, bufs: seq<Buf>, slots: map<Key, nat>, dev: nat, pinned: set<nat>, held: set<nat>) {
    n <= |bufs| && forall i: nat :: i < n && bufs[i].refcnt > 0 ==> i in held || i in Slots(slots, dev, pinned)
  }

  ghost function Slots(slots: map<Key, nat>, dev: nat, blocks: set<nat>): set<nat> {
    set b | b in blocks && (dev, b) in slots :: slots[(dev, b)]
  }

  lemma {:induction false} SlotsSize(slots: map<Key, nat>, dev: nat, blocks: set<nat>)
    ensures |Slots(slots, dev, blocks)| <= |blocks|
    decreases |blocks|
  {
    if blocks == {} {
      assert Slots(slots, dev, blocks) == {};
    } else {
      var b :| b in blocks;
      SlotsSize(slots, dev, blocks - {b});
      var fewer := Slots(slots, dev, blocks - {b});
      if (dev, b) in slots {
        assert Slots(slots, dev, blocks) == fewer + {slots[(dev, b)]};
      } else {
        assert Slots(slots, dev, blocks) == fewer;
      }
    }
  }

  ghost function FreeBufs(n: nat, bufs: seq<Buf>): set<nat>
    requires n <= |bufs|
  {
    set i: nat | i < n && bufs[i].refcnt == 0
  }

  lemma FreeLeft(n: nat, bufs: seq<Buf>, slots: map<Key, nat>, dev: nat, pinned: set<nat>, held: set<nat>)
    requires RefsOnly(n, bufs, slots, dev, pinned, held)
    ensures |FreeBufs(n, bufs)| + |pinned| + |held| >= n
  {
    var pins, free := Slots(slots, dev, pinned), FreeBufs(n, bufs);
    SlotsSize(slots, dev, pinned);
    var all := Below(n);
    assert all <= free + (pins + held);
    SubsetSize(all, free + (pins + held));
  }

  ghost function Below(n: nat): (r: set<nat>)
    ensures |r| == n && forall x: nat :: x in r <==> x < n
  {
    if n == 0 then {} else Below(n - 1) + {n - 1}
  }

  lemma SubsetSize(a: set<nat>, b: set<nat>)
    requires a <= b
    ensures |a| <= |b|
  {
    assert b == a + (b - a);
  }

  /** The shipped cache has as many buffers as MAXOPBLOCKS: bget finds one as long as the pinned blocks
      and the buffers that anybody holds, readers too, are fewer.  The operations log at most ten. */
  lemma ShippedBuffers(bufs: seq<Buf>, slots: map<Key, nat>, dev: nat, pinned: set<nat>, held: set<nat>)
    requires RefsOnly(SHIPPED.maxOpBlocks, bufs, slots, dev, pinned, held)
    requires |pinned| + |held| < SHIPPED.maxOpBlocks
    ensures exists i :: 0 <= i < SHIPPED.maxOpBlocks && bufs[i].refcnt == 0
  {
    FreeLeft(SHIPPED.maxOpBlocks, bufs, slots, dev, pinned, held);
    var i :| i in FreeBufs(SHIPPED.maxOpBlocks, bufs);
  }

  lemma NothingLogged(c: Config, s: State)
    requires Inv(c, s) && s.phase == Idle && s.lh == []
    ensures s.pending == [] && s.live == s.committed
  {
  }

  lemma NotPinnedAfter(c: Config, s: State, t: nat)
    requires ValidList(c, s.lh) && t < |s.lh| && s.phase == Installing(t + 1)
    ensures s.lh[t] !in Pinned(s)
  {
  }

  lemma PinnedNow(s: State, t: nat)
    requires t < |s.lh| && (s.phase == Logging(t) || s.phase == Installing(t))
    ensures s.lh[t] in Pinned(s)
  {
    if s.phase.Installing? { assert s.lh[t..][0] == s.lh[t]; }
  }

  /** The three block copies, seen as one write through a buffer. */
  lemma CopyEffect(c: Config, s: State, t: nat, a: Action)
    requires ValidConfig(c) && ValidList(c, s.lh) && t < |s.lh| && |s.disk| == c.total && s.lh[t] in s.cache
    requires match a case WriteLog => s.phase == Logging(t) case InstallOne => s.phase == Installing(t)
                    case RecoverOne => s.phase == Recovering(t) case _ => false
    ensures Enabled(c, s, a)
    ensures var n := Next(c, s, a);
            var b := if a.WriteLog? then c.start + t + 1 else s.lh[t];
            var data := if a.WriteLog? then s.cache[s.lh[t]] else s.disk[c.start + t + 1];
            && n.disk == s.disk[b := data] && n.cache == s.cache[b := data]
            && n == s.(disk := n.disk, cache := n.cache, phase := n.phase)
            && n.phase == (if a.WriteLog? then Logging(t + 1) else if a.InstallOne? then Installing(t + 1) else Recovering(t + 1))
            && forall q: nat :: q in Pinned(n) ==> q in Pinned(s)
  {
    if a.InstallOne? { SuffixShrinks(s.lh, t); }
  }

  /** The in-memory side of a header write. */
  ghost function HeadEffect(s: State, a: Action): State {
    if a.WriteHead? then
      s.(phase := Installing(0), head := s.lh, committed := s.live, pending := [], txns := s.txns + [s.pending])
    else
      s.(phase := Idle, lh := [], head := [])
  }

  predicate HeadReady(s: State, a: Action) {
    match a
    case WriteHead => s.phase == Logging(|s.lh|)
    case EraseHead => s.phase == Installing(|s.lh|)
    case ClearHead => s.phase == Recovering(|s.lh|)
    case _ => false
  }

  /** Buffers of the log area always match the medium. */
  lemma LogCached(c: Config, s: State, b: nat)
    requires Inv(c, s) && b in s.cache && c.start <= b < c.start + c.size
    ensures s.cache[b] == s.disk[b]
  {
  }

  lemma HeadStep(c: Config, s: State, a: Action)
    requires ValidConfig(c) && ValidDisk(c, s.disk) && |s.lh| <= c.logSize
    requires HeadReady(s, a)
    ensures Enabled(c, s, a)
    ensures var n := Next(c, s, a); var data := WithHead(s.disk[c.start], if a.WriteHead? then s.lh else []);
            && n == HeadEffect(s, a).(disk := n.disk, cache := n.cache)
            && n.disk == s.disk[c.start := data] && n.cache == s.cache[c.start := data]
            && forall q: nat :: q in Pinned(n) ==> q in Pinned(s)
  {
  }

  class Log {
    const c: Config
    const dev: nat
    const bc: BCache
    const sd: SdCard
    const block: array<nat>
    var n: nat
    var outstanding: nat
    var committing: bool
    ghost var st: State

    /** Everything but the header list and the counters. */
    ghost predicate Core(dirty: set<nat>)
      reads this, bc, bc.buf, sd, block
    {
      && dev != 0 && block.Length == c.logSize && n <= c.logSize
      && bc.Valid() && bc.buf as object != block as object
      && Inv(c, st) && sd.sectors == st.disk
      && Couples(dev, c.total, bc.buf[..], bc.slots, st, dirty)
    }

    ghost predicate Valid(dirty: set<nat>)
      reads this, bc, bc.buf, sd, block
    {
      && Core(dirty)
      && st.lh == block[..n] && outstanding == |st.open|
      && (committing <==> st.phase.Logging? || st.phase.Installing?)
    }

    /** initlog, up to the call of recover_from_log. */
    constructor (c: Config, dev: nat, bc: BCache, sd: SdCard, ghost boot: State)
      requires dev != 0 && bc.Valid() && Inv(c, boot) && boot.phase == Booting
      requires sd.sectors == boot.disk && Couples(dev, c.total, bc.buf[..], bc.slots, boot, {})
      ensures Valid({}) && st == boot && fresh(block) && this.c == c && this.dev == dev && this.bc == bc && this.sd == sd
    {
      this.c, this.dev, this.bc, this.sd := c, dev, bc, sd;
      block := new nat[c.logSize];
      n, outstanding, committing := 0, 0, false;
      st := boot;
    }

    /** Each protocol step. */
    ghost method Do(a: Action)
      requires Inv(c, st) && Enabled(c, st, a)
      modifies this`st
      ensures st == Next(c, old(st), a) && Inv(c, st)
    {
      StepInv(c, st, a);
      st := Next(c, st, a);
    }

    /** bread of one block of the log's device, as seen by the protocol. */
    method Fetch(b: nat, ghost dirty: set<nat>) returns (r: Option<nat>)
      requires Core(dirty) && b < c.total && Unlocked(bc.buf[..], bc.slots, dev, b) && b !in dirty
      modifies this`st, bc`slots, bc.buf
      ensures Core(dirty) && st == old(st).(cache := st.cache)
      ensures r.None? <==> (dev, b) !in old(bc.slots) && !old(bc.HasFree())
      ensures r.None? ==> bc.buf[..] == old(bc.buf[..]) && bc.slots == old(bc.slots)
      ensures r.Some? ==> r.value < bc.n && Holds(bc.buf[..], bc.slots, dev, b, r.value)
      ensures r.Some? ==> b in st.cache && bc.buf[r.value].data == st.cache[b]
      ensures r.Some? ==> bc.buf[r.value].refcnt == old(bc.buf[r.value].refcnt) + 1
      ensures r.Some? ==> forall j :: 0 <= j <= bc.n && j != r.value ==> bc.buf[j] == old(bc.buf[j])
      ensures forall k :: k in old(bc.slots) && old(bc.buf[bc.slots[k]].refcnt) > 0 ==> k in bc.slots && bc.slots[k] == old(bc.slots[k])
    {
      ghost var x, slots0 := bc.buf[..], bc.slots;
      r := bc.Bread(sd, dev, b);
      if r.Some? {
        if (dev, b) !in slots0 {
          MissStep(c, dev, bc.n, x, bc.buf[..], slots0, st, dirty, r.value, b);
          Do(MoveCache(CacheAfterMiss(dev, x[r.value], b, st)));
        } else {
          CoupleHit(c, dev, bc.n, x, bc.buf[..], slots0, st, dirty, r.value);
        }
      }
    }

    /** Drops a locked buffer that no one is changing. */
    method Release(i: nat, b: nat, ghost dirty: set<nat>)
      requires Core(dirty) && i < bc.n && Holds(bc.buf[..], bc.slots, dev, b, i) && b !in dirty
      modifies bc`order, bc.buf
      ensures Core(dirty)
      ensures forall j :: 0 <= j <= bc.n && j != i ==> SameData(bc.buf[j], old(bc.buf[j]))
      ensures SameData(bc.buf[i], old(bc.buf[i]).(locked := false, refcnt := old(bc.buf[i].refcnt) - 1))
    {
      hide Inv;
      ghost var x := bc.buf[..];
      assert b in Pinned(st) ==> PinnedIn(x, bc.slots, (dev, b));
      bc.Brelse(i);
      CoupleDrop(dev, c.total, x, bc.buf[..], bc.slots, st, dirty, i, b);
    }

    /** memmove into a held buffer, then bwrite: the sector write that is protocol step a. */
    method WriteThrough(i: nat, b: nat, data: Block, ghost a: Action)
      requires Core({}) && i < bc.n && Holds(bc.buf[..], bc.slots, dev, b, i) && b < c.total
      requires Enabled(c, st, a)
      requires var t := Next(c, st, a); t.disk == st.disk[b := data] && t.cache == st.cache[b := data]
      requires forall q: nat :: q in Pinned(Next(c, st, a)) ==> q in Pinned(st)
      modifies this`st, bc.buf, sd
      ensures Core({}) && st == Next(c, old(st), a) && sd.images == old(sd.images) + [st.disk]
      ensures bc.buf[..] == old(bc.buf[..])[i := old(bc.buf[i]).(data := data)]
    {
      ghost var x, s := bc.buf[..], st;
      bc.Fill(i, data);
      bc.Bwrite(sd, i);
      Do(a);
      assert bc.buf[..] == x[i := x[i].(data := data)];
      CouplePut(dev, c.total, bc.n, x, bc.buf[..], bc.slots, s, st, i, b, data);
    }

    /** bread of two blocks. */
    method FetchTwo(a: nat, b: nat) returns (ok: bool, i: nat, j: nat)
      requires Core({}) && NoLocks(bc.buf[..]) && a < c.total && b < c.total && a != b
      modifies this`st, bc`slots, bc.buf
      ensures st == old(st).(cache := st.cache)
      ensures ok ==> Core({}) && i < bc.n && j < bc.n && i != j
      ensures ok ==> Holds(bc.buf[..], bc.slots, dev, a, i) && Holds(bc.buf[..], bc.slots, dev, b, j)
      ensures ok ==> a in st.cache && b in st.cache && bc.buf[i].data == st.cache[a] && bc.buf[j].data == st.cache[b]
      ensures ok ==> bc.buf[i].refcnt == old(bc.buf[i].refcnt) + 1 && bc.buf[j].refcnt == old(bc.buf[j].refcnt) + 1
      ensures ok ==> forall k :: 0 <= k <= bc.n && k != i && k != j ==> bc.buf[k] == old(bc.buf[k])
      ensures ok && b in Pinned(st) ==> bc.buf[j].refcnt > 1
      ensures b in Pinned(old(st)) && old(bc.HasFree()) ==> ok
      ensures TwoFree(old(bc.buf[..bc.n])) ==> ok
    {
      hide Inv, Couples, Ring, Covers, Pinned;
      ghost var x := bc.buf[..];
      i, j := 0, 0;
      PinnedSlot(dev, c.total, x, bc.slots, st, {}, b);
      var r := Fetch(a, {});
      if r.None? { return false, i, j; }
      i := r.value;
      PinnedSlot(dev, c.total, bc.buf[..], bc.slots, st, {}, b);
      assert (dev, b) in bc.slots ==> KeyOf(bc.buf[bc.slots[(dev, b)]]) == (dev, b);
      OneLeft(x[..bc.n], bc.buf[..bc.n], i);
      r := Fetch(b, {});
      if r.None? { return false, i, j; }
      j := r.value;
      PinnedSlot(dev, c.total, bc.buf[..], bc.slots, st, {}, b);
      InCache(dev, c.total, bc.buf[..], bc.slots, st, {}, a);
      ok := true;
    }

    /** brelse of both. */
    method ReleaseTwo(i: nat, a: nat, j: nat, b: nat)
      requires Core({}) && i < bc.n && j < bc.n && i != j
      requires Holds(bc.buf[..], bc.slots, dev, a, i) && Holds(bc.buf[..], bc.slots, dev, b, j)
      modifies bc`order, bc.buf
      ensures Core({})
      ensures forall k :: 0 <= k <= bc.n && k != i && k != j ==> SameData(bc.buf[k], old(bc.buf[k]))
      ensures forall k :: k == i || k == j ==> !bc.buf[k].locked && bc.buf[k].refcnt == old(bc.buf[k].refcnt) - 1
    {
      hide Inv, Pinned;
      Release(i, a, {});
      Release(j, b, {});
    }

    /** One round of write_log: log block tail gets the cached contents of lh.block[tail]. */
    method CopyToLog(tail: nat) returns (ok: bool)
      requires Core({}) && NoLocks(bc.buf[..]) && st.phase == Logging(tail) && tail < n && st.lh == block[..n]
      modifies this`st, bc, bc.buf, sd
      ensures ok ==> Core({}) && NoLocks(bc.buf[..]) && RefsDown(old(bc.buf[..]), bc.buf[..])
      ensures ok ==> st == old(st).(disk := st.disk, cache := st.cache, phase := Logging(tail + 1))
      ensures ok ==> sd.images == old(sd.images) + [st.disk]
      ensures !ok ==> sd.images == old(sd.images) && !old(bc.HasFree())
    {
      hide Inv, Couples, Next, Pinned, Enabled, Ring, Covers, Indexed;
      InvBasics(c, st);
      assert st.lh[tail] == block[tail] && IsHome(c, block[tail]);
      PinnedNow(st, tail);
      var i, j;
      ok, i, j := FetchTwo(c.start + tail + 1, block[tail]);
      if ok {
        InvBasics(c, st);
        CopyEffect(c, st, tail, WriteLog);
        WriteThrough(i, c.start + tail + 1, bc.buf[j].data, WriteLog);
        ReleaseTwo(i, c.start + tail + 1, j, block[tail]);
      }
    }

    method WriteLogBlocks() returns (ok: bool)
      requires Core({}) && NoLocks(bc.buf[..]) && st.phase == Logging(0) && st.lh == block[..n]
      modifies this`st, bc, bc.buf, sd
      ensures ok ==> Core({}) && NoLocks(bc.buf[..]) && RefsDown(old(bc.buf[..]), bc.buf[..])
      ensures ok ==> st == old(st).(disk := st.disk, cache := st.cache, phase := Logging(n))
      ensures old(sd.images) <= sd.images && AllRecover(c, sd.images, |old(sd.images)|, old(st.committed))
      ensures ok ==> |sd.images| == |old(sd.images)| + n
      ensures |sd.images| <= |old(sd.images)| + n
      ensures !ok ==> !old(bc.HasFree())
    {
      hide Inv, Couples, Next, Enabled, Pinned, RecoversTo;
      var tail := 0;
      while tail < n
        invariant tail <= n && Core({}) && NoLocks(bc.buf[..]) && RefsDown(old(bc.buf[..]), bc.buf[..])
        invariant st == old(st).(disk := st.disk, cache := st.cache, phase := Logging(tail))
        invariant old(sd.images) <= sd.images && |sd.images| == |old(sd.images)| + tail
        invariant AllRecover(c, sd.images, |old(sd.images)|, old(st.committed))
      {
        ok := CopyToLog(tail);
        if !ok { return; }
        InvRecovers(c, st);
        tail := tail + 1;
      }
      ok := true;
    }

    /** The loop of write_head: count and block numbers over the words the buffer held. */
    method FillHeader(hb0: Block) returns (hb: Block)
      requires 1 + n <= |hb0| && n <= block.Length
      ensures hb == WithHead(hb0, block[..n])
    {
      hb := hb0[0 := n];
      for i := 0 to n
        invariant |hb| == |hb0| && hb == [n] + block[..i] + hb0[1 + i..]
      {
        hb := hb[1 + i := block[i]];
      }
    }

    /** write_head: the header block gets the in-memory count and list. */
    method WriteHeadBlock(ghost a: Action) returns (ok: bool)
      requires Core({}) && NoLocks(bc.buf[..]) && HeadReady(st, a)
      requires block[..n] == if a.WriteHead? then st.lh else []
      modifies this`st, bc, bc.buf, sd
      ensures ok ==> Core({}) && NoLocks(bc.buf[..]) && RefsDown(old(bc.buf[..]), bc.buf[..])
      ensures ok ==> st == HeadEffect(old(st), a).(disk := st.disk, cache := st.cache)
      ensures ok ==> sd.images == old(sd.images) + [st.disk]
      ensures !ok ==> sd.images == old(sd.images) && !old(bc.HasFree())
    {
      hide Inv, Couples, Next, Pinned, Enabled, Ring, Covers, Indexed, WithHead;
      InvBasics(c, st);
      var r := Fetch(c.start, {});
      if r.None? { return false; }
      InvBasics(c, st);
      LogCached(c, st, c.start);
      HeadStep(c, st, a);
      var hb := FillHeader(bc.buf[r.value].data);
      WriteThrough(r.value, c.start, hb, a);
      Release(r.value, c.start, {});
      ok := true;
    }

    /** One round of install_trans: the home block gets the log block; after a commit, not during
        recovery, its pin is dropped. */
    method CopyHome(tail: nat, recovering: bool) returns (ok: bool)
      requires Core({}) && NoLocks(bc.buf[..]) && tail < n && st.lh == block[..n]
      requires st.phase == if recovering then Recovering(tail) else Installing(tail)
      modifies this`st, bc, bc.buf, sd
      ensures ok ==> Core({}) && NoLocks(bc.buf[..]) && RefsDown(old(bc.buf[..]), bc.buf[..])
      ensures ok ==> st == old(st).(disk := st.disk, cache := st.cache,
                                    phase := if recovering then Recovering(tail + 1) else Installing(tail + 1))
      ensures ok ==> sd.images == old(sd.images) + [st.disk]
      ensures !ok ==> sd.images == old(sd.images)
      ensures !recovering && old(bc.HasFree()) ==> ok
      ensures TwoFree(old(bc.buf[..bc.n])) ==> ok
    {
      hide Inv, Couples, Next, Enabled, Pinned, Ring, Covers, Indexed;
      InvBasics(c, st);
      assert st.lh[tail] == block[tail] && IsHome(c, block[tail]);
      if !recovering { PinnedNow(st, tail); }
      var i, j;
      ok, i, j := FetchTwo(c.start + tail + 1, block[tail]);
      if ok {
        InvBasics(c, st);
        if !recovering { PinnedNow(st, tail); }
        LogCached(c, st, c.start + tail + 1);
        ghost var a := if recovering then RecoverOne else InstallOne;
        CopyEffect(c, st, tail, a);
        WriteThrough(j, block[tail], bc.buf[i].data, a);
        if !recovering {
          NotPinnedAfter(c, st, tail);
          Unpin(j, block[tail]);
        }
        ReleaseTwo(i, c.start + tail + 1, j, block[tail]);
      }
    }

    method Unpin(j: nat, b: nat)
      requires Core({}) && j < bc.n && Holds(bc.buf[..], bc.slots, dev, b, j) && bc.buf[j].refcnt > 1
      requires b !in Pinned(st)
      modifies bc.buf
      ensures Core({})
      ensures bc.buf[..] == old(bc.buf[..])[j := old(bc.buf[j]).(refcnt := old(bc.buf[j].refcnt) - 1)]
    {
      hide Inv;
      ghost var x := bc.buf[..];
      bc.Bunpin(j);
      CoupleDrop(dev, c.total, x, bc.buf[..], bc.slots, st, {}, j, b);
    }

    method InstallTrans(recovering: bool) returns (ok: bool)
      requires Core({}) && NoLocks(bc.buf[..]) && st.lh == block[..n]
      requires st.phase == if recovering then Recovering(0) else Installing(0)
      modifies this`st, bc, bc.buf, sd
      ensures ok ==> Core({}) && NoLocks(bc.buf[..]) && RefsDown(old(bc.buf[..]), bc.buf[..])
      ensures ok ==> st == old(st).(disk := st.disk, cache := st.cache,
                                    phase := if recovering then Recovering(n) else Installing(n))
      ensures old(sd.images) <= sd.images && AllRecover(c, sd.images, |old(sd.images)|, old(st.committed))
      ensures !recovering && old(bc.HasFree()) ==> ok
      ensures TwoFree(old(bc.buf[..bc.n])) ==> ok
    {
      hide Inv, Couples, Next, Enabled, Pinned, RecoversTo;
      var tail := 0;
      while tail < n
        invariant tail <= n && Core({}) && NoLocks(bc.buf[..]) && RefsDown(old(bc.buf[..]), bc.buf[..])
        invariant st == old(st).(disk := st.disk, cache := st.cache,
                                 phase := if recovering then Recovering(tail) else Installing(tail))
        invariant old(sd.images) <= sd.images && AllRecover(c, sd.images, |old(sd.images)|, old(st.committed))
      {
        ok := CopyHome(tail, recovering);
        if !ok { return; }
        InvRecovers(c, st);
        tail := tail + 1;
      }
      ok := true;
    }

    /** commit: log blocks, header, home blocks, empty header.  Every image of the medium up to and
        including the last log block recovers to the view before; every image from the header write
        on, to the view after. */
    method Commit() returns (ok: bool)
      requires Core({}) && NoLocks(bc.buf[..]) && st.lh == block[..n]
      requires st.phase == (if n > 0 then Logging(0) else Idle) && st.open == []
      modifies this`n, this`st, bc, bc.buf, sd
      ensures old(sd.images) <= sd.images
      ensures forall k :: |old(sd.images)| <= k < |sd.images| ==>
                RecoversTo(c, sd.images[k], if k < |old(sd.images)| + old(n) then old(st.committed) else old(st.live))
      ensures ok ==> Core({}) && NoLocks(bc.buf[..]) && st.phase == Idle && n == 0 && st.lh == []
      ensures ok ==> st.committed == st.live == old(st.live) && st.pending == [] && st.open == []
      ensures old(bc.HasFree()) ==> ok
    {
      hide Inv, Couples, Next, Enabled, Pinned, RecoversTo, Ring, Covers, Indexed;
      if n == 0 {
        NothingLogged(c, st);
      } else {
        ok := WriteLogBlocks();
        if !ok { return; }
        ok := WriteHeadBlock(WriteHead);
        if !ok { return; }
        InvRecovers(c, st);
        ok := InstallTrans(false);
        if !ok { return; }
        n := 0;
        ok := WriteHeadBlock(EraseHead);
        if !ok { return; }
        InvRecovers(c, st);
      }
      ok := true;
    }

    /** One pass of begin_op's loop, after initlog: false means sleep and try again. */
    method TryBeginOp(id: nat) returns (go: bool)
      requires Valid({}) && !Restarting(st)
      modifies this`outstanding, this`st
      ensures Valid({}) && !Restarting(st)
      ensures go <==> old(st.phase) == Idle && |st.lh| + (old(|st.open|) + 1) * c.maxOpBlocks <= c.logSize
      ensures st == if go then old(st).(open := old(st.open) + [OpenOp(id, 0)]) else old(st)
    {
      hide Inv;
      if committing || n + (outstanding + 1) * c.maxOpBlocks > c.logSize {
        return false;
      }
      Do(BeginOp(id));
      outstanding := outstanding + 1;
      go := true;
    }

    /** log_write of a changed, locked buffer by open operation `who`: record, pin if new.  False is
        the panic "too big a transaction" or "log_write outside of trans". */
    method LogWrite(i: nat, b: nat, ghost who: nat, ghost dirty: set<nat>) returns (ok: bool)
      requires Valid(dirty) && !Restarting(st) && b in dirty && (outstanding >= 1 ==> who < |st.open|)
      requires i < bc.n && Holds(bc.buf[..], bc.slots, dev, b, i) && IsHome(c, b) && |bc.buf[i].data| == c.words
      modifies this`n, this`st, block, bc.buf
      ensures ok <==> !LogFull(c, old(|st.lh|)) && outstanding >= 1
      ensures ok ==> Valid(dirty - {b}) && st == Next(c, old(st), Action.LogWrite(who, b, old(bc.buf[i].data)))
      ensures ok ==> bc.buf[..] == old(bc.buf[..])[i := old(bc.buf[i]).(refcnt := bc.buf[i].refcnt)]
      ensures ok ==> bc.buf[i].refcnt == old(bc.buf[i].refcnt) + if b in old(st.lh) then 0 else 1
      ensures !ok ==> st == old(st)
    {
      hide Inv, Couples, Next, Enabled, Pinned, Ring, Covers;
      if n >= c.logSize || n >= c.size - 1 {
        return false;
      }
      if outstanding < 1 {
        return false;
      }
      ghost var x, s, lh := bc.buf[..], st, block[..n];
      InvBasics(c, s);
      OpenMeansIdle(c, s);
      InCache(dev, c.total, x, bc.slots, s, dirty, b);
      LogWriteEffect(c, s, who, b, x[i].data);
      var isNew := Record(b);
      Do(Action.LogWrite(who, b, x[i].data));
      if isNew {
        bc.Bpin(i);
      }
      assert bc.buf[..] == x[i := x[i].(refcnt := x[i].refcnt + if isNew then 1 else 0)];
      CoupleLogged(dev, c.total, bc.n, x, bc.buf[..], bc.slots, s, st, i, b, dirty);
      ok := true;
    }

    /** The search loop of log_write, absorbing a block already listed. */
    method Record(b: nat) returns (isNew: bool)
      requires n < block.Length
      modifies this`n, block
      ensures isNew <==> b !in old(block[..n])
      ensures n <= block.Length && block[..n] == old(block[..n]) + if isNew then [b] else []
    {
      ghost var l := block[..n];
      var i := 0;
      while i < n && block[i] != b
        invariant i <= n && b !in block[..i]
      {
        i := i + 1;
      }
      block[i] := b;
      isNew := i == n;
      if isNew {
        n := n + 1;
      } else {
        assert l[i] == b;
      }
      assert block[..n] == l + if isNew then [b] else [];
    }

    /** The use log.c prescribes: bread, change the data, log_write, brelse. */
    method Update(b: nat, data: Block, ghost who: nat) returns (ok: bool)
      requires Valid({}) && !Restarting(st) && IsHome(c, b) && |data| == c.words && NoLocks(bc.buf[..])
      requires outstanding >= 1 && who < |st.open|
      modifies this`n, this`st, block, bc, bc.buf
      ensures ok ==> Valid({}) && NoLocks(bc.buf[..])
      ensures ok ==> st.live == old(st.live)[b := data] && st.disk == old(st.disk) && st.committed == old(st.committed)
      ensures ok ==> st.pending == old(st.pending) + [LogProtocol.Update(old(st.open[who].id), b, data)]
      ensures ok ==> st.lh == old(st.lh) + if b in old(st.lh) then [] else [b]
      ensures old(bc.HasFree()) && !LogFull(c, old(|st.lh|)) ==> ok
    {
      hide Inv, Couples, Next, Enabled, Pinned, Ring, Covers, Indexed;
      InvBasics(c, st);
      OpenMeansIdle(c, st);
      var r := Fetch(b, {});
      if r.None? { return false; }
      var i := r.value;
      StartChange(i, b, data);
      ghost var s := st;
      ok := LogWrite(i, b, who, {b});
      if ok {
        LogWriteEffect(c, s, who, b, data);
        assert {b} - {b} == {};
        Release(i, b, {});
      }
    }

    /** memmove into a held buffer before log_write: from here on the buffer is ahead of the protocol. */
    method StartChange(i: nat, b: nat, data: Block)
      requires Core({}) && i < bc.n && Holds(bc.buf[..], bc.slots, dev, b, i)
      modifies bc.buf
      ensures Core({b})
      ensures bc.buf[..] == old(bc.buf[..])[i := old(bc.buf[i]).(data := data)]
    {
      hide Inv;
      ghost var x := bc.buf[..];
      bc.Fill(i, data);
      assert bc.buf[..] == x[i := x[i].(data := data)];
      forall q: nat | q in Pinned(st) ensures PinnedIn(bc.buf[..], bc.slots, (dev, q)) {
        assert PinnedIn(x, bc.slots, (dev, q));
      }
      forall k | k in bc.slots && k != (dev, b) ensures bc.slots[k] != i {
        assert KeyOf(x[bc.slots[k]]) == k;
      }
    }

    /** end_op.  The last outstanding operation commits; when it returns, everything written is
        committed, and a crash on the way leaves the view before or the view after. */
    method EndOp(ghost who: nat) returns (ok: bool)
      requires Valid({}) && NoLocks(bc.buf[..]) && !Restarting(st) && outstanding >= 1 && who < |st.open|
      modifies this, bc, bc.buf, sd
      ensures old(outstanding) > 1 ==> ok && sd.images == old(sd.images) && st == Next(c, old(st), Action.EndOp(who))
      ensures old(sd.images) <= sd.images
      ensures forall k :: |old(sd.images)| <= k < |sd.images| ==>
                RecoversTo(c, sd.images[k], if k < |old(sd.images)| + old(n) then old(st.committed) else old(st.live))
      ensures ok ==> Valid({}) && NoLocks(bc.buf[..]) && st.phase == Idle && st.live == old(st.live)
      ensures ok && old(outstanding) == 1 ==> n == 0 && st.committed == old(st.live) && st.pending == []
      ensures old(bc.HasFree()) ==> ok
    {
      hide Inv, Couples, Next, Enabled, Pinned, RecoversTo, Ring, Covers, Indexed;
      OpenMeansIdle(c, st);
      EndOpEffect(c, st, who);
      StepEndOp(who);
      outstanding := outstanding - 1;
      ok := true;
      if outstanding == 0 {
        committing := true;
        ok := Commit();
        committing := false;
      }
    }

    ghost method StepEndOp(who: nat)
      requires Core({}) && Enabled(c, st, Action.EndOp(who)) && st.phase == Idle
      modifies this`st
      ensures Core({}) && st == Next(c, old(st), Action.EndOp(who))
    {
      Do(Action.EndOp(who));
    }

    /** read_head. */
    method ReadHeader() returns (ok: bool)
      requires Core({}) && NoLocks(bc.buf[..]) && st.phase == Booting
      modifies this`n, this`st, block, bc, bc.buf
      ensures ok ==> Core({}) && NoLocks(bc.buf[..]) && RefsDown(old(bc.buf[..]), bc.buf[..])
      ensures ok ==> st.phase == Recovering(0) && st.lh == block[..n] == Head(c, st.disk)
      ensures ok ==> st == old(st).(lh := st.lh, cache := st.cache, phase := st.phase)
      ensures old(bc.HasFree()) ==> ok
    {
      hide Inv, Couples, Ring, Covers, Indexed, Pinned, ValidHead, Next;
      InvBasics(c, st);
      var r := Fetch(c.start, {});
      if r.None? { return false; }
      InvBasics(c, st);
      LogCached(c, st, c.start);
      InvRecovers(c, st);
      HeadCount(c, st.disk);
      ReadList(bc.buf[r.value].data);
      StepReadHead();
      Release(r.value, c.start, {});
      ok := true;
    }

    /** The loop of read_head. */
    method ReadList(hb: Block)
      requires |hb| > 0 && hb[0] < |hb| && hb[0] <= block.Length
      modifies this`n, block
      ensures n <= block.Length && block[..n] == HeadOf(hb)
    {
      n := hb[0];
      for i := 0 to n
        invariant n == hb[0] && block[..i] == hb[1..1 + i]
      {
        block[i] := hb[1 + i];
      }
    }

    ghost method StepReadHead()
      requires Core({}) && st.phase == Booting
      modifies this`st
      ensures Core({}) && st == old(st).(lh := Head(c, st.disk), phase := Recovering(0))
    {
      Do(ReadHead);
    }

    /** recover_from_log: computes Recover on the home blocks; a crash after any of its writes
        leaves a disk that recovers to the same view. */
    method RecoverFromLog() returns (ok: bool)
      requires Valid({}) && NoLocks(bc.buf[..]) && st.phase == Booting
      modifies this`n, this`st, block, bc, bc.buf, sd
      ensures old(sd.images) <= sd.images && AllRecover(c, sd.images, |old(sd.images)|, old(st.committed))
      ensures ok ==> Valid({}) && NoLocks(bc.buf[..]) && st.phase == Idle && n == 0
      ensures ok ==> st.live == st.committed == old(st.committed)
      ensures ValidHead(c, old(sd.sectors))
      ensures ok ==> AgreeHome(c, sd.sectors, Recover(c, old(sd.sectors))) && Head(c, sd.sectors) == []
      ensures TwoFree(old(bc.buf[..bc.n])) ==> ok
    {
      hide Couples, Next, Enabled, Pinned, RecoversTo, Ring, Covers, Indexed, Inv, Recover;
      InvRecovers(c, st);
      BootClean(c, st);
      RecoverRestores(c, st.disk, st.committed);
      ok := ReadHeader();
      if !ok { return; }
      ok := InstallTrans(true);
      if !ok { return; }
      n := 0;
      ok := WriteHeadBlock(ClearHead);
      if !ok { return; }
      InvRecovers(c, st);
      EmptyLogAgrees(c, st.disk, st.committed);
    }
  }
}
