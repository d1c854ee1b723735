/** The buffer cache of xv6-riscv/kernel/bio.c over the SD card's sectors. */
module BufferCache {
  import opened LogProtocol

  datatype Option<+T> = None | Some(value: T)

  /** The card: spi_rb and spi_wb move whole sectors, a write being atomic.  `images` is the
      history of the medium, one entry for each write. */
  class SdCard {
    var sectors: Disk
    ghost var images: seq<Disk>

    constructor (sectors: Disk)
      ensures this.sectors == sectors && images == []
    {
      this.sectors := sectors;
      images := [];
    }

    method Read(b: nat) returns (data: Block)
      requires b < |sectors|
      ensures data == sectors[b]
    {
      data := sectors[b];
    }

    method Write(b: nat, data: Block)
      requires b < |sectors|
      modifies this
      ensures sectors == old(sectors)[b := data]
      ensures images == old(images) + [sectors]
    {
      sectors := sectors[b := data];
      images := images + [sectors];
    }
  }

  /** struct buf; prev and next are indices, NBUF standing for bcache.head. */
  datatype Buf = Buf(valid: bool, dev: nat, blockno: nat, locked: bool, refcnt: nat,
                     prev: nat, next: nat, data: Block)

  /** Equal except for the list links. */
  predicate SameData(x: Buf, y: Buf) {
    x.(prev := y.prev, next := y.next) == y
  }

  // ----- The doubly linked ring -----

  /** Position k of the ring: the head h, then s, then the head again. */
  ghost function At(s: seq<nat>, h: nat, k: nat): nat {
    if 1 <= k <= |s| then s[k - 1] else h
  }

  ghost predicate LinkedAt(bufs: seq<Buf>, h: nat, s: seq<nat>, k: nat) {
    var x, y := At(s, h, k), At(s, h, k + 1);
    x < |bufs| && y < |bufs| && bufs[x].next == y && bufs[y].prev == x
  }

  /** Following next from head h visits exactly s and returns, and prev is its inverse. */
  ghost predicate Ring(bufs: seq<Buf>, h: nat, s: seq<nat>) {
    && Distinct(s) && h < |bufs| && h !in s
    && (forall k :: 0 <= k < |s| ==> s[k] < |bufs|)
    && forall k: nat :: k <= |s| ==> LinkedAt(bufs, h, s, k)
  }

  function SetNext(bufs: seq<Buf>, x: nat, y: nat): (r: seq<Buf>)
    requires x < |bufs|
    ensures |r| == |bufs|
  {
    bufs[x := bufs[x].(next := y)]
  }

  function SetPrev(bufs: seq<Buf>, x: nat, y: nat): (r: seq<Buf>)
    requires x < |bufs|
    ensures |r| == |bufs|
  {
    bufs[x := bufs[x].(prev := y)]
  }

  ghost function Without(s: seq<nat>, k: nat): seq<nat>
    requires k < |s|
  {
    s[..k] + s[k + 1..]
  }

  /** Joining a buffer's two neighbours to each other leaves the ring of the others, in order. */
  lemma RingRemove(bufs: seq<Buf>, h: nat, s: seq<nat>, k: nat)
    requires Ring(bufs, h, s) && k < |s|
    ensures var b := s[k];
            && bufs[b].next < |bufs| && bufs[b].prev < |bufs|
            && var x := SetPrev(bufs, bufs[b].next, bufs[b].prev);
               x[b].prev < |x| && Ring(SetNext(x, x[b].prev, x[b].next), h, Without(s, k))
  {
    var b := s[k];
    assert At(s, h, k + 1) == b;
    assert LinkedAt(bufs, h, s, k) && LinkedAt(bufs, h, s, k + 1);
    var p, q := At(s, h, k), At(s, h, k + 2);
    var x := SetPrev(bufs, q, p);
    var y := SetNext(x, p, q);
    var t := Without(s, k);
    forall j: nat | j <= |t| ensures LinkedAt(y, h, t, j) {
      if j == k {
        assert At(t, h, j) == p && At(t, h, j + 1) == q;
      } else {
        var i := if j < k then j else j + 1;
        assert At(t, h, j) == At(s, h, i) && At(t, h, j + 1) == At(s, h, i + 1);
        assert LinkedAt(bufs, h, s, i);
        AtInjective(s, h, i, k);
        AtInjective(s, h, i + 1, k + 2);
      }
    }
  }

  lemma AtInjective(s: seq<nat>, h: nat, i: nat, j: nat)
    requires Distinct(s) && h !in s && i <= |s| + 1 && j <= |s| + 1
    ensures At(s, h, i) == At(s, h, j) ==> i == j || (i % (|s| + 1) == j % (|s| + 1) == 0)
  {
  }

  /** Four assignments hang a buffer in directly after the head, before everything else. */
  lemma RingInsert(bufs: seq<Buf>, h: nat, s: seq<nat>, b: nat)
    requires Ring(bufs, h, s) && b < |bufs| && b != h && b !in s
    ensures var x := SetPrev(SetNext(bufs, b, bufs[h].next), b, h);
            && x[h].next < |x|
            && var y := SetPrev(x, x[h].next, b);
               Ring(SetNext(y, h, b), h, [b] + s)
  {
    assert LinkedAt(bufs, h, s, 0);
    var x := SetPrev(SetNext(bufs, b, bufs[h].next), b, h);
    var y := SetNext(SetPrev(x, x[h].next, b), h, b);
    var t := [b] + s;
    forall j: nat | j <= |t| ensures LinkedAt(y, h, t, j) {
      if j >= 2 {
        assert At(t, h, j) == At(s, h, j - 1) && At(t, h, j + 1) == At(s, h, j);
        assert LinkedAt(bufs, h, s, j - 1);
        AtInjective(s, h, j, 1);
        AtInjective(s, h, j - 1, 0);
      }
    }
  }

  // ----- The cache -----

  type Key = (nat, nat)

  function KeyOf(b: Buf): Key { (b.dev, b.blockno) }

  /** s lists every buffer. */
  ghost predicate Covers(s: seq<nat>, n: nat) {
    |s| == n && (forall k :: 0 <= k < n ==> s[k] < n) && forall i :: 0 <= i < n ==> i in s
  }

  /** At most one buffer per (dev, blockno) with dev nonzero, found through `slots`; a locked
      buffer is referenced. */
  ghost predicate Indexed(bufs: seq<Buf>, n: nat, slots: map<Key, nat>)
    requires n < |bufs|
  {
    && (forall k :: k in slots ==> slots[k] < n && k.0 != 0 && KeyOf(bufs[slots[k]]) == k)
    && (forall i :: 0 <= i < n && bufs[i].dev != 0 ==> KeyOf(bufs[i]) in slots && slots[KeyOf(bufs[i])] == i)
    && (forall i :: 0 <= i < n && bufs[i].locked ==> bufs[i].refcnt > 0)
  }

  lemma IndexedFrame(x: seq<Buf>, y: seq<Buf>, n: nat, slots: map<Key, nat>)
    requires n < |x| == |y| && Indexed(x, n, slots)
    requires forall i :: 0 <= i < n ==> KeyOf(x[i]) == KeyOf(y[i]) && (y[i].locked ==> y[i].refcnt > 0)
    ensures Indexed(y, n, slots)
  {
    forall i | 0 <= i < n && y[i].dev != 0 ensures KeyOf(y[i]) in slots && slots[KeyOf(y[i])] == i {
      assert KeyOf(x[i]) == KeyOf(y[i]);
    }
  }

  lemma IndexedRecycle(x: seq<Buf>, n: nat, slots: map<Key, nat>, b: nat, y: Buf)
    requires n < |x| && Indexed(x, n, slots) && b < n
    requires y.dev != 0 && KeyOf(y) !in slots && y.refcnt > 0
    ensures Indexed(x[b := y], n, (slots - {KeyOf(x[b])})[KeyOf(y) := b])
  {
  }

  lemma CachedInOrder(bufs: seq<Buf>, n: nat, order: seq<nat>, slots: map<Key, nat>, k: Key)
    requires n < |bufs| && Covers(order, n) && Indexed(bufs, n, slots)
    ensures k in slots ==> exists m :: 0 <= m < n && KeyOf(bufs[order[m]]) == k
  {
    if k in slots {
      assert slots[k] in order;
      var m :| 0 <= m < |order| && order[m] == slots[k];
      assert KeyOf(bufs[order[m]]) == k;
    }
  }

  class BCache {
    const n: nat
    const buf: array<Buf>

    /** MRU order: head.next first, head.prev last. */
    ghost var order: seq<nat>
    /** Which buffer holds a block; device 0 marks buffers never used. */
    ghost var slots: map<Key, nat>

    ghost predicate Valid()
      reads this, buf
    {
      && buf.Length == n + 1
      && Ring(buf[..], n, order) && Covers(order, n)
      && Indexed(buf[..], n, slots)
    }

    /** Some buffer may be recycled. */
    ghost predicate HasFree()
      reads this, buf
      requires buf.Length == n + 1
    {
      exists i :: 0 <= i < n && buf[i].refcnt == 0
    }

    /** binit, from zeroed memory. */
    constructor (nbuf: nat, words: nat)
      ensures n == nbuf && Valid() && fresh(buf) && slots == map[]
      ensures forall i :: 0 <= i < n ==> buf[i].refcnt == 0 && !buf[i].locked && !buf[i].valid
      ensures forall k :: 0 <= k < n ==> order[k] == n - 1 - k
    {
      n := nbuf;
      var zero := Buf(false, 0, 0, false, 0, 0, 0, seq(words, _ => 0));
      buf := new Buf[nbuf + 1](_ => zero);
      slots := map[];
      order := [];
      new;
      buf[n] := buf[n].(prev := n);
      buf[n] := buf[n].(next := n);
      var b := 0;
      while b < n
        invariant b <= n && |order| == b && slots == map[]
        invariant forall k :: 0 <= k < b ==> order[k] == b - 1 - k
        invariant Ring(buf[..], n, order)
        invariant forall i :: 0 <= i <= n ==> SameData(buf[i], zero)
      {
        LinkFront(b);
        b := b + 1;
      }
      forall i | 0 <= i < n ensures i in order {
        assert order[n - 1 - i] == i;
      }
    }

    /** bget: the buffer of a block, locked; or None where the source panics "no buffers". */
    method Bget(dev: nat, blockno: nat) returns (r: Option<nat>)
      requires Valid() && dev != 0
      requires (dev, blockno) in slots ==> !buf[slots[(dev, blockno)]].locked
      modifies this`slots, buf
      ensures Valid()
      ensures r.None? <==> (dev, blockno) !in old(slots) && !old(HasFree())
      ensures r.None? ==> slots == old(slots) && buf[..] == old(buf[..])
      ensures r.Some? ==> r.value < n && (dev, blockno) in slots && slots[(dev, blockno)] == r.value
      ensures r.Some? ==> forall j :: 0 <= j <= n && j != r.value ==> buf[j] == old(buf[j])
      // a hit takes one more reference
      ensures r.Some? && (dev, blockno) in old(slots) ==>
        && slots == old(slots)
        && buf[r.value] == old(buf[r.value]).(refcnt := old(buf[r.value].refcnt) + 1, locked := true)
      // a miss recycles the least recently released unreferenced buffer
      ensures r.Some? && (dev, blockno) !in old(slots) ==>
        && old(buf[r.value].refcnt) == 0
        && (forall k, m :: 0 <= k < m < n && order[k] == r.value ==> old(buf[order[m]].refcnt) > 0)
        && slots == (old(slots) - {old(KeyOf(buf[r.value]))})[(dev, blockno) := r.value]
        && buf[r.value] == old(buf[r.value]).(dev := dev, blockno := blockno, valid := false, refcnt := 1, locked := true)
    {
      ghost var x := buf[..];
      var b := FindCached(dev, blockno);
      if b != n {
        buf[b] := buf[b].(refcnt := buf[b].refcnt + 1);
        buf[b] := buf[b].(locked := true);
        Keep(x);
        return Some(b);
      }
      b := FindUnused();
      if b != n {
        buf[b] := buf[b].(dev := dev);
        buf[b] := buf[b].(blockno := blockno);
        buf[b] := buf[b].(valid := false);
        buf[b] := buf[b].(refcnt := 1);
        buf[b] := buf[b].(locked := true);
        assert buf[..] == x[b := buf[b]];
        IndexedRecycle(x, n, slots, b, buf[b]);
        RingFrame(x, buf[..], n, order);
        slots := (slots - {KeyOf(x[b])})[(dev, blockno) := b];
        return Some(b);
      }
      return None;
    }

    /** Data changes that keep keys, links and the lock rule keep the cache valid. */
    lemma Keep(x: seq<Buf>)
      requires buf.Length == n + 1 == |x| && Ring(x, n, order) && Covers(order, n) && Indexed(x, n, slots)
      requires forall i :: 0 <= i <= n ==> x[i].next == buf[i].next && x[i].prev == buf[i].prev
      requires forall i :: 0 <= i < n ==> KeyOf(x[i]) == KeyOf(buf[i]) && (buf[i].locked ==> buf[i].refcnt > 0)
      ensures Valid()
    {
      RingFrame(x, buf[..], n, order);
      IndexedFrame(x, buf[..], n, slots);
    }

    /** bget's first loop, from the MRU end: the buffer caching a block, or the head. */
    method FindCached(dev: nat, blockno: nat) returns (b: nat)
      requires Valid() && dev != 0
      ensures if (dev, blockno) in slots then b == slots[(dev, blockno)] else b == n
    {
      assert LinkedAt(buf[..], n, order, 0);
      b := buf[n].next;
      ghost var k := 0;
      while b != n
        invariant 0 <= k <= n && b == At(order, n, k + 1)
        invariant forall m :: 0 <= m < k ==> KeyOf(buf[order[m]]) != (dev, blockno)
        decreases n - k
      {
        if buf[b].dev == dev && buf[b].blockno == blockno {
          assert slots[KeyOf(buf[b])] == b;
          return;
        }
        k := k + 1;
        assert LinkedAt(buf[..], n, order, k);
        b := buf[b].next;
      }
      CachedInOrder(buf[..], n, order, slots, (dev, blockno));
    }

    /** bget's second loop, from the LRU end: the least recently released unreferenced buffer. */
    method FindUnused() returns (b: nat)
      requires Valid()
      ensures b <= n && (b == n <==> !HasFree())
      ensures b < n ==> buf[b].refcnt == 0
      ensures forall k, m :: 0 <= k < m < n && order[k] == b ==> buf[order[m]].refcnt > 0
    {
      assert LinkedAt(buf[..], n, order, n);
      b := buf[n].prev;
      ghost var k := n;
      while b != n
        invariant 0 <= k <= n && b == At(order, n, k)
        invariant forall m :: k <= m < n ==> buf[order[m]].refcnt > 0
        decreases k
      {
        if buf[b].refcnt == 0 {
          return;
        }
        k := k - 1;
        assert LinkedAt(buf[..], n, order, k);
        b := buf[b].prev;
      }
      forall i | 0 <= i < n ensures buf[i].refcnt > 0 {
        assert i in order;
        var m :| 0 <= m < |order| && order[m] == i;
      }
    }

    /** bread: bget, then read the sector unless the buffer already holds it. */
    method Bread(sd: SdCard, dev: nat, blockno: nat) returns (r: Option<nat>)
      requires Valid() && dev != 0 && blockno < |sd.sectors|
      requires (dev, blockno) in slots ==> !buf[slots[(dev, blockno)]].locked
      modifies this`slots, buf
      ensures Valid()
      ensures r.None? <==> (dev, blockno) !in old(slots) && !old(HasFree())
      ensures r.None? ==> slots == old(slots) && buf[..] == old(buf[..])
      ensures r.Some? ==> r.value < n && (dev, blockno) in slots && slots[(dev, blockno)] == r.value
      ensures r.Some? ==> forall j :: 0 <= j <= n && j != r.value ==> buf[j] == old(buf[j])
      ensures r.Some? ==> buf[r.value].valid && buf[r.value].locked
      ensures r.Some? && (dev, blockno) in old(slots) ==>
        && slots == old(slots)
        && buf[r.value] == old(buf[r.value]).(refcnt := old(buf[r.value].refcnt) + 1, locked := true, valid := true,
             data := if old(buf[r.value].valid) then old(buf[r.value].data) else sd.sectors[blockno])
      ensures r.Some? && (dev, blockno) !in old(slots) ==>
        && old(buf[r.value].refcnt) == 0 && buf[r.value].refcnt == 1
        && slots == (old(slots) - {old(KeyOf(buf[r.value]))})[(dev, blockno) := r.value]
        && buf[r.value].data == sd.sectors[blockno]
    {
      r := Bget(dev, blockno);
      if r.Some? && !buf[r.value].valid {
        ghost var before := buf[..];
        var data := sd.Read(buf[r.value].blockno);
        buf[r.value] := buf[r.value].(data := data);
        buf[r.value] := buf[r.value].(valid := true);
        Keep(before);
      }
    }

    /** Changing a locked buffer's contents. */
    method Fill(b: nat, data: Block)
      requires Valid() && b < n && buf[b].locked
      modifies buf
      ensures Valid()
      ensures forall j :: 0 <= j <= n ==> buf[j] == if j == b then old(buf[b]).(data := data) else old(buf[j])
    {
      buf[b] := buf[b].(data := data);
      Keep(old(buf[..]));
    }

    /** bwrite; the source panics unless the caller holds the buffer's lock. */
    method Bwrite(sd: SdCard, b: nat)
      requires Valid() && b < n && buf[b].locked && buf[b].blockno < |sd.sectors|
      modifies sd
      ensures sd.sectors == old(sd.sectors)[buf[b].blockno := buf[b].data]
      ensures sd.images == old(sd.images) + [sd.sectors]
    {
      sd.Write(buf[b].blockno, buf[b].data);
    }

    /** brelse: unlock, drop a reference, and move an unreferenced buffer to the MRU end. */
    method Brelse(b: nat)
      requires Valid() && b < n && buf[b].locked
      modifies this`order, buf
      ensures Valid()
      ensures forall j :: 0 <= j <= n && j != b ==> SameData(buf[j], old(buf[j]))
      ensures SameData(buf[b], old(buf[b]).(locked := false, refcnt := old(buf[b].refcnt) - 1))
      ensures old(buf[b].refcnt) > 1 ==> order == old(order)
      ensures old(buf[b].refcnt) == 1 ==>
        exists k :: 0 <= k < n && old(order)[k] == b && order == [b] + Without(old(order), k)
    {
      buf[b] := buf[b].(locked := false);
      buf[b] := buf[b].(refcnt := buf[b].refcnt - 1);
      Keep(old(buf[..]));
      if buf[b].refcnt == 0 {
        MoveToFront(b);
      }
    }

    /** brelse's six link assignments. */
    method MoveToFront(b: nat)
      requires Valid() && b < n
      modifies this`order, buf
      ensures Valid()
      ensures exists k :: 0 <= k < n && old(order)[k] == b && order == [b] + Without(old(order), k)
      ensures forall j :: 0 <= j <= n ==> SameData(buf[j], old(buf[j]))
    {
      ghost var x := buf[..];
      assert b in order;
      ghost var k :| 0 <= k < |order| && order[k] == b;
      Unlink(b, k);
      LinkFront(b);
      FrontCovers(old(order), k, n);
      IndexedFrame(x, buf[..], n, slots);
    }

    method Unlink(b: nat, ghost k: nat)
      requires buf.Length == n + 1 && Ring(buf[..], n, order) && k < |order| && order[k] == b && b < n
      modifies this`order, buf
      ensures order == Without(old(order), k) && Ring(buf[..], n, order)
      ensures forall j :: 0 <= j <= n ==> SameData(buf[j], old(buf[j]))
    {
      RingRemove(buf[..], n, order, k);
      buf[buf[b].next] := buf[buf[b].next].(prev := buf[b].prev);
      ghost var y := buf[..];
      assert y == SetPrev(old(buf[..]), old(buf[b].next), old(buf[b].prev));
      buf[buf[b].prev] := buf[buf[b].prev].(next := buf[b].next);
      order := Without(order, k);
      assert buf[..] == SetNext(y, y[b].prev, y[b].next);
    }

    /** The four assignments that put b right after the head, in binit and in brelse. */
    method LinkFront(b: nat)
      requires buf.Length == n + 1 && Ring(buf[..], n, order) && b < n && b !in order
      modifies this`order, buf
      ensures order == [b] + old(order) && Ring(buf[..], n, order)
      ensures forall j :: 0 <= j <= n ==> SameData(buf[j], old(buf[j]))
    {
      ghost var x := buf[..];
      RingInsert(x, n, order, b);
      buf[b] := buf[b].(next := buf[n].next);
      buf[b] := buf[b].(prev := n);
      buf[buf[n].next] := buf[buf[n].next].(prev := b);
      buf[n] := buf[n].(next := b);
      order := [b] + order;
      assert buf[..] == SetNext(SetPrev(SetPrev(SetNext(x, b, x[n].next), b, n), x[n].next, b), n, b);
    }

    method Bpin(b: nat)
      requires Valid() && b < n
      modifies buf
      ensures Valid()
      ensures forall j :: 0 <= j <= n ==> buf[j] == if j == b then old(buf[b]).(refcnt := old(buf[b].refcnt) + 1) else old(buf[j])
    {
      buf[b] := buf[b].(refcnt := buf[b].refcnt + 1);
      Keep(old(buf[..]));
    }

    /** bunpin does not test the count; callers must own the pin, beside any lock holder. */
    method Bunpin(b: nat)
      requires Valid() && b < n && buf[b].refcnt > if buf[b].locked then 1 else 0
      modifies buf
      ensures Valid()
      ensures forall j :: 0 <= j <= n ==> buf[j] == if j == b then old(buf[b]).(refcnt := old(buf[b].refcnt) - 1) else old(buf[j])
    {
      buf[b] := buf[b].(refcnt := buf[b].refcnt - 1);
      Keep(old(buf[..]));
    }
  }

  lemma FrontCovers(s: seq<nat>, k: nat, n: nat)
    requires Covers(s, n) && k < n
    ensures Covers([s[k]] + Without(s, k), n)
  {
    var t := [s[k]] + Without(s, k);
    forall i | 0 <= i < n ensures i in t {
      assert i in s;
      var m :| 0 <= m < |s| && s[m] == i;
      assert t[if m == k then 0 else if m < k then m + 1 else m] == i;
    }
  }

  /** Only links matter to the ring. */
  lemma RingFrame(x: seq<Buf>, y: seq<Buf>, h: nat, s: seq<nat>)
    requires Ring(x, h, s) && |x| == |y|
    requires forall i :: 0 <= i < |x| ==> x[i].next == y[i].next && x[i].prev == y[i].prev
    ensures Ring(y, h, s)
  {
    forall k: nat | k <= |s| ensures LinkedAt(y, h, s, k) {
      assert LinkedAt(x, h, s, k);
    }
  }
}
