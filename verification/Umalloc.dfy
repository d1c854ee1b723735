/** The K&R allocator of xv6-riscv/user/umalloc.c.  Addresses count Header units of 8 bytes; `base` lies
    below every address sbrk returns. */
module Umalloc {

  datatype Header = Header(ptr: nat, size: nat)

  type Mem = map<nat, Header>

  // ----- The circular free list -----

  function NextIn(f: seq<nat>, i: nat): (r: nat)
    requires i < |f|
  {
    if i + 1 < |f| then f[i + 1] else f[0]
  }

  ghost predicate LinkAt(mem: Mem, f: seq<nat>, i: nat) {
    i < |f| && f[i] in mem && mem[f[i]].ptr == NextIn(f, i)
  }

  /** Following ptr from f[0] visits f, in order, and returns to f[0]. */
  ghost predicate Ring(mem: Mem, f: seq<nat>) {
    && (forall i :: 0 <= i < |f| ==> f[i] in mem)
    && (forall i: nat :: i < |f| ==> LinkAt(mem, f, i))
  }

  ghost predicate Sorted(f: seq<nat>) {
    forall i, j :: 0 <= i < j < |f| ==> f[i] < f[j]
  }

  /** f[0] is the empty sentinel; the free blocks follow, apart: neither overlapping nor adjacent. */
  ghost predicate Blocks(mem: Mem, f: seq<nat>) {
    && Sorted(f) && Ring(mem, f) && |f| >= 1 && mem[f[0]].size == 0
    && (forall i :: 1 <= i < |f| ==> mem[f[i]].size > 0)
    && (forall i: nat, j: nat :: 1 <= i < j < |f| ==> Apart(mem, f, i, j))
  }

  ghost predicate Apart(mem: Mem, f: seq<nat>, i: nat, j: nat)
    requires i < |f| && j < |f| && f[i] in mem
  {
    f[i] + mem[f[i]].size < f[j]
  }

  ghost predicate Within(mem: Mem, b: nat, a: nat) {
    b in mem && b <= a < b + mem[b].size
  }

  /** Unit a belongs to a free block. */
  ghost predicate IsFree(mem: Mem, f: seq<nat>, a: nat) {
    exists i :: 1 <= i < |f| && Within(mem, f[i], a)
  }

  ghost predicate InBlock(live: map<nat, nat>, b: nat, a: nat) {
    b in live && b <= a < b + live[b]
  }

  /** Unit a belongs to a live block. */
  ghost predicate IsLive(live: map<nat, nat>, a: nat) {
    exists b :: InBlock(live, b, a)
  }

  ghost predicate LiveApart(live: map<nat, nat>) {
    forall b: nat, c: nat, a: nat :: InBlock(live, b, a) && InBlock(live, c, a) ==> b == c
  }

  /** Every unit obtained from sbrk belongs to one free or one live block, and no other unit does. */
  ghost predicate Partition(mem: Mem, f: seq<nat>, live: map<nat, nat>, owned: set<nat>) {
    && (forall a: nat :: a in owned <==> IsFree(mem, f, a) || IsLive(live, a))
    && (forall a: nat :: !(IsFree(mem, f, a) && IsLive(live, a)))
    && LiveApart(live)
    && (forall b :: b in live ==> live[b] > 0 && b in mem && mem[b].size == live[b])
  }

  // ----- Three changes of the free list -----

  ghost function Minus(f: seq<nat>, k: nat): seq<nat>
    requires k < |f|
  {
    f[..k] + f[k + 1..]
  }

  ghost function Plus(f: seq<nat>, t: nat, b: nat): seq<nat>
    requires t < |f|
  {
    f[..t + 1] + [b] + f[t + 1..]
  }

  lemma SortedMinus(f: seq<nat>, k: nat)
    requires Sorted(f) && k < |f|
    ensures Sorted(Minus(f, k))
  {
  }

  lemma SortedPlus(f: seq<nat>, t: nat, b: nat)
    requires Sorted(f) && t < |f| && f[t] < b && (t + 1 < |f| ==> b < f[t + 1])
    ensures Sorted(Plus(f, t, b)) && b !in f
  {
    assert forall i :: 0 <= i < |f| ==> f[i] <= f[t] || (t + 1 < |f| && f[t + 1] <= f[i]);
  }

  lemma SortedAt(f: seq<nat>, i: nat, j: nat)
    requires Sorted(f) && i < |f| && j < |f|
    ensures f[i] == f[j] <==> i == j
  {
  }

  lemma SortedLow(f: seq<nat>, i: nat)
    requires Sorted(f) && i < |f|
    ensures f[0] <= f[i]
  {
  }

  /** f[k-1].ptr = f[k].ptr. */
  lemma Unlinked(mem: Mem, f: seq<nat>, k: nat)
    requires Blocks(mem, f) && 1 <= k < |f|
    ensures Blocks(mem[f[k - 1] := Header(mem[f[k]].ptr, mem[f[k - 1]].size)], Minus(f, k))
  {
    hide LinkAt, NextIn, Sorted;
    var m := mem[f[k - 1] := Header(mem[f[k]].ptr, mem[f[k - 1]].size)];
    var g := Minus(f, k);
    SortedMinus(f, k);
    forall i: nat | i < |g| ensures LinkAt(m, g, i) && m[g[i]].size == mem[g[i]].size {
      UnlinkedLink(mem, f, k, i);
    }
    forall i: nat, j: nat | 1 <= i < j < |g| ensures Apart(m, g, i, j) {
      assert Apart(mem, f, if i < k then i else i + 1, if j < k then j else j + 1);
    }
  }

  lemma UnlinkedLink(mem: Mem, f: seq<nat>, k: nat, i: nat)
    requires Sorted(f) && Ring(mem, f) && 1 <= k < |f| && i < |f| - 1
    ensures var m := mem[f[k - 1] := Header(mem[f[k]].ptr, mem[f[k - 1]].size)];
            LinkAt(m, Minus(f, k), i) && m[Minus(f, k)[i]].size == mem[Minus(f, k)[i]].size
  {
    var i' := if i < k then i else i + 1;
    assert LinkAt(mem, f, i') && LinkAt(mem, f, k);
    SortedAt(f, i', k - 1);
  }

  lemma UnlinkedFree(mem: Mem, f: seq<nat>, k: nat, m: Mem, a: nat)
    requires Blocks(mem, f) && 1 <= k < |f| && m == mem[f[k - 1] := Header(mem[f[k]].ptr, mem[f[k - 1]].size)]
    ensures IsFree(m, Minus(f, k), a) <==> IsFree(mem, f, a) && !Within(mem, f[k], a)
  {
    var g := Minus(f, k);
    if IsFree(m, g, a) {
      var i :| 1 <= i < |g| && Within(m, g[i], a);
      var j := if i < k then i else i + 1;
      assert Within(mem, f[j], a);
      assert if j < k then Apart(mem, f, j, k) else Apart(mem, f, k, j);
    }
    if IsFree(mem, f, a) && !Within(mem, f[k], a) {
      var i :| 1 <= i < |f| && Within(mem, f[i], a);
      assert Within(m, g[if i < k then i else i - 1], a);
    }
  }

  /** b.ptr = f[t].ptr; f[t].ptr = b, for a block b strictly between its neighbours. */
  lemma Linked(mem: Mem, f: seq<nat>, t: nat, b: nat, n: nat)
    requires Blocks(mem, f) && t < |f| && n > 0
    requires f[t] + mem[f[t]].size < b && (t + 1 < |f| ==> b + n < f[t + 1])
    ensures Blocks(mem[b := Header(mem[f[t]].ptr, n)][f[t] := Header(b, mem[f[t]].size)], Plus(f, t, b))
    ensures b !in f
  {
    hide LinkAt, NextIn, Sorted;
    var m := mem[b := Header(mem[f[t]].ptr, n)][f[t] := Header(b, mem[f[t]].size)];
    var g := Plus(f, t, b);
    SortedPlus(f, t, b);
    forall i: nat | i < |g| ensures LinkAt(m, g, i) && m[g[i]].size == if i == t + 1 then n else mem[g[i]].size {
      LinkedLink(mem, f, t, b, n, i);
    }
    forall i: nat, j: nat | 1 <= i < j < |g| ensures Apart(m, g, i, j) {
      PlusAt(f, t, b, n, i, j);
      var i', j' := if i <= t then i else i - 1, if j <= t then j else j - 1;
      if i != t + 1 && j != t + 1 {
        assert Apart(mem, f, i', j');
      } else if j == t + 1 && i < t {
        assert Apart(mem, f, i, t);
      }
    }
  }

  lemma PlusAt(f: seq<nat>, t: nat, b: nat, n: nat, i: nat, j: nat)
    requires Sorted(f) && t < |f| && f[t] < b && (t + 1 < |f| ==> b + n < f[t + 1]) && i < j <= |f|
    ensures i == t + 1 ==> b + n < Plus(f, t, b)[j]
    ensures j == t + 1 ==> f[t] < b && (i < t ==> f[i] < f[t])
  {
  }

  lemma LinkedLink(mem: Mem, f: seq<nat>, t: nat, b: nat, n: nat, i: nat)
    requires Sorted(f) && Ring(mem, f) && t < |f| && b !in f && i <= |f|
    ensures var m := mem[b := Header(mem[f[t]].ptr, n)][f[t] := Header(b, mem[f[t]].size)]; var g := Plus(f, t, b);
            LinkAt(m, g, i) && m[g[i]].size == if i == t + 1 then n else mem[g[i]].size
  {
    assert LinkAt(mem, f, t);
    if i != t + 1 {
      var i' := if i <= t then i else i - 1;
      assert LinkAt(mem, f, i');
      SortedAt(f, i', t);
    }
  }

  lemma LinkedFree(mem: Mem, f: seq<nat>, t: nat, b: nat, n: nat, m: Mem, a: nat)
    requires Blocks(mem, f) && t < |f| && n > 0 && b !in f
    requires m == mem[b := Header(mem[f[t]].ptr, n)][f[t] := Header(b, mem[f[t]].size)]
    ensures IsFree(m, Plus(f, t, b), a) <==> IsFree(mem, f, a) || b <= a < b + n
  {
    var g := Plus(f, t, b);
    if IsFree(m, g, a) {
      var i :| 1 <= i < |g| && Within(m, g[i], a);
      if i != t + 1 { assert Within(mem, f[if i <= t then i else i - 1], a); }
    }
    if IsFree(mem, f, a) {
      var i :| 1 <= i < |f| && Within(mem, f[i], a);
      assert Within(m, g[if i <= t then i else i + 1], a);
    }
    if b <= a < b + n { assert Within(m, g[t + 1], a); }
  }

  /** f[t].size changes, the block still ending below its successor. */
  lemma Resized(mem: Mem, f: seq<nat>, t: nat, n: nat)
    requires Blocks(mem, f) && 1 <= t < |f| && n > 0 && (t + 1 < |f| ==> f[t] + n < f[t + 1])
    ensures Blocks(mem[f[t] := Header(mem[f[t]].ptr, n)], f)
  {
    var m := mem[f[t] := Header(mem[f[t]].ptr, n)];
    forall i: nat | i < |f| ensures LinkAt(m, f, i) {
      assert LinkAt(mem, f, i);
    }
    forall i: nat, j: nat | 1 <= i < j < |f| ensures Apart(m, f, i, j) {
      assert Apart(mem, f, i, j);
    }
  }

  lemma ResizedFree(mem: Mem, f: seq<nat>, t: nat, n: nat, m: Mem, a: nat)
    requires Blocks(mem, f) && 1 <= t < |f| && m == mem[f[t] := Header(mem[f[t]].ptr, n)]
    ensures IsFree(m, f, a) <==> (IsFree(mem, f, a) && !Within(mem, f[t], a)) || f[t] <= a < f[t] + n
  {
    if IsFree(m, f, a) {
      var i :| 1 <= i < |f| && Within(m, f[i], a);
      if i != t {
        assert Within(mem, f[i], a);
        assert if i < t then Apart(mem, f, i, t) else Apart(mem, f, t, i);
      }
    }
    if IsFree(mem, f, a) && !Within(mem, f[t], a) {
      var i :| 1 <= i < |f| && Within(mem, f[i], a);
      assert Within(m, f[i], a);
    }
    if f[t] <= a < f[t] + n { assert Within(m, f[t], a); }
  }

  /** The headers after free()'s assignments, p being f[t]. */
  function Freed(mem: Mem, p: nat, bp: nat): (r: Mem)
    requires p in mem && bp in mem && mem[p].ptr in mem
  {
    var q := mem[p].ptr;
    var b := if bp + mem[bp].size == q then Header(mem[q].ptr, mem[bp].size + mem[q].size) else Header(q, mem[bp].size);
    var m := mem[bp := b];
    if p + mem[p].size == bp then m[p := Header(b.ptr, mem[p].size + b.size)] else m[p := Header(bp, mem[p].size)]
  }

  /** Only the headers of free blocks matter to the list. */
  lemma ListFrame(m: Mem, m2: Mem, f: seq<nat>, a: nat)
    requires Blocks(m, f) && forall i :: 0 <= i < |f| ==> f[i] in m2 && m2[f[i]] == m[f[i]]
    ensures Blocks(m2, f) && (IsFree(m2, f, a) <==> IsFree(m, f, a))
  {
    forall i: nat | i < |f| ensures LinkAt(m2, f, i) {
      assert LinkAt(m, f, i);
    }
    forall i: nat, j: nat | 1 <= i < j < |f| ensures Apart(m2, f, i, j) {
      assert Apart(m, f, i, j);
    }
    forall i | 1 <= i < |f| ensures Within(m2, f[i], a) <==> Within(m, f[i], a) {
    }
  }

  ghost predicate Fits(mem: Mem, f: seq<nat>, t: nat, bp: nat) {
    && Blocks(mem, f) && t < |f| && bp in mem && mem[bp].size > 0
    && f[t] < bp && f[t] + mem[f[t]].size <= bp
    && (t + 1 < |f| ==> bp + mem[bp].size <= f[t + 1])
  }

  /** The block the freed one becomes after looking upwards. */
  function Raised(mem: Mem, p: nat, bp: nat): (r: Header)
    requires p in mem && bp in mem && mem[p].ptr in mem
  {
    var q := mem[p].ptr;
    if bp + mem[bp].size == q then Header(mem[q].ptr, mem[bp].size + mem[q].size) else Header(q, mem[bp].size)
  }

  /** The free list after free(): the block goes after f[t], merged with the neighbours it touches. */
  ghost function Inserted(mem: Mem, f: seq<nat>, t: nat, bp: nat): seq<nat>
    requires t < |f| && bp in mem && f[t] in mem
  {
    var f1 := if t + 1 < |f| && bp + mem[bp].size == f[t + 1] then Minus(f, t + 1) else f;
    if f[t] + mem[f[t]].size == bp then f1 else Plus(f1, t, bp)
  }

  /** First half: merging upwards is unlinking the successor and taking its units. */
  lemma Absorb(mem: Mem, f: seq<nat>, t: nat, bp: nat, a: nat) returns (m1: Mem, f1: seq<nat>)
    requires Fits(mem, f, t, bp)
    ensures f[t] in mem && mem[f[t]].ptr in mem
    ensures var b := Raised(mem, f[t], bp);
            && f1 == (if t + 1 < |f| && bp + mem[bp].size == f[t + 1] then Minus(f, t + 1) else f)
            && Blocks(m1, f1) && t < |f1| && f1[t] == f[t] && f1[..t + 1] == f[..t + 1] && b.size > 0
            && m1 == mem[f[t] := Header(b.ptr, mem[f[t]].size)]
            && (t + 1 < |f1| ==> bp + b.size < f1[t + 1])
            && (IsFree(m1, f1, a) || bp <= a < bp + b.size <==> IsFree(mem, f, a) || Within(mem, bp, a))
  {
    assert LinkAt(mem, f, t);
    SortedPlus(f, t, bp);
    if t + 1 < |f| && bp + mem[bp].size == f[t + 1] {
      assert LinkAt(mem, f, t + 1);
      Unlinked(mem, f, t + 1);
      m1 := mem[f[t] := Header(mem[f[t + 1]].ptr, mem[f[t]].size)];
      f1 := Minus(f, t + 1);
      UnlinkedFree(mem, f, t + 1, m1, a);
      if t + 2 < |f| { assert Apart(mem, f, t + 1, t + 2); }
    } else {
      f1 := f;
      m1 := mem[f[t] := Header(mem[f[t]].ptr, mem[f[t]].size)];
      assert m1 == mem;
    }
  }

  /** free() keeps the list well formed and adds exactly the freed units to it. */
  lemma FreedBlocks(mem: Mem, f: seq<nat>, t: nat, bp: nat, a: nat)
    requires Fits(mem, f, t, bp)
    ensures f[t] in mem && mem[f[t]].ptr in mem
    ensures var g := Inserted(mem, f, t, bp);
            && Blocks(Freed(mem, f[t], bp), g) && t < |g| && g[t] == f[t] && g[0] == f[0]
            && (IsFree(Freed(mem, f[t], bp), g, a) <==> IsFree(mem, f, a) || Within(mem, bp, a))
  {
    var g: seq<nat>;
    var m1, f1 := Absorb(mem, f, t, bp, a);
    var b := Raised(mem, f[t], bp);
    hide LinkAt, Apart, IsFree, Sorted, NextIn;
    assert f1[0] == f1[..t + 1][0];
    if f[t] + mem[f[t]].size == bp {
      g := f1;
      Resized(m1, f1, t, m1[f[t]].size + b.size);
      var m2 := m1[f[t] := Header(m1[f[t]].ptr, m1[f[t]].size + b.size)];
      ResizedFree(m1, f1, t, m1[f[t]].size + b.size, m2, a);
      SortedFresh(f1, t, bp);
      ListFrame(m2, Freed(mem, f[t], bp), f1, a);
    } else {
      g := Plus(f1, t, bp);
      Linked(m1, f1, t, bp, b.size);
      var m2 := m1[bp := Header(m1[f[t]].ptr, b.size)][f[t] := Header(bp, m1[f[t]].size)];
      LinkedFree(m1, f1, t, bp, b.size, m2, a);
      assert Freed(mem, f[t], bp) == m2;
    }
  }

  lemma SortedFresh(f: seq<nat>, t: nat, b: nat)
    requires Sorted(f) && t < |f| && f[t] < b && (t + 1 < |f| ==> b < f[t + 1])
    ensures b !in f
  {
    SortedPlus(f, t, b);
  }

  // ----- Walking the ring -----

  /** f starting at index s. */
  ghost function Rot(f: seq<nat>, s: nat): seq<nat>
    requires s <= |f|
  {
    f[s..] + f[..s]
  }

  /** Position d of a walk that starts after f[s] and ends with f[s]. */
  lemma WalkAt(mem: Mem, f: seq<nat>, s: nat, d: nat) returns (k: nat)
    requires Blocks(mem, f) && s < |f| && d < |f|
    ensures var r := Rot(f, s + 1);
            && r[|f| - 1] == f[s] && k < |f| && f[k] == r[d] && r[d] in mem && mem[r[d]].ptr == NextIn(r, d)
            && (r[d] == f[s] <==> d == |f| - 1)
            && (k >= 1 ==> f[k - 1] == if d == 0 then f[s] else r[d - 1])
            && (mem[r[d]].size > 0 ==> k >= 1)
  {
    k := if s + 1 + d < |f| then s + 1 + d else s + 1 + d - |f|;
    assert LinkAt(mem, f, k);
    SortedAt(f, k, s);
  }

  /** No two free blocks touch, so a run of free units lies within one block. */
  lemma RunInOneBlock(mem: Mem, f: seq<nat>, lo: nat, n: nat) returns (i: nat)
    requires Blocks(mem, f) && n > 0 && forall a: nat :: lo <= a < lo + n ==> IsFree(mem, f, a)
    ensures 1 <= i < |f| && f[i] <= lo && lo + n <= f[i] + mem[f[i]].size
  {
    assert IsFree(mem, f, lo);
    i :| 1 <= i < |f| && Within(mem, f[i], lo);
    var e := f[i] + mem[f[i]].size;
    forall j: nat | 1 <= j < |f| ensures !Within(mem, f[j], e) {
      if i < j { assert Apart(mem, f, i, j); }
      if j < i { assert Apart(mem, f, j, i); }
    }
    assert !IsFree(mem, f, e);
  }

  /** No free block has n units. */
  ghost predicate NoFit(mem: Mem, f: seq<nat>, n: nat) {
    forall i :: 1 <= i < |f| ==> f[i] in mem && mem[f[i]].size < n
  }

  lemma FitHere(mem: Mem, f: seq<nat>, k: nat, n: nat)
    requires 1 <= k < |f| && f[k] in mem && mem[f[k]].size >= n
    ensures !NoFit(mem, f, n)
  {
  }

  lemma EmptyList(mem: Mem)
    ensures forall a: nat :: !IsFree(mem, [], a)
  {
  }

  ghost predicate SmallUpTo(mem: Mem, r: seq<nat>, d: nat, n: nat) {
    d <= |r| && forall e :: 0 <= e < d ==> r[e] in mem && mem[r[e]].size < n
  }

  /** A walk that met only small blocks has met them all. */
  lemma SmallAll(mem: Mem, f: seq<nat>, s: nat, n: nat)
    requires s < |f| && SmallUpTo(mem, Rot(f, s + 1), |f|, n)
    ensures NoFit(mem, f, n)
  {
    forall i | 1 <= i < |f| ensures f[i] in mem && mem[f[i]].size < n {
      assert f[i] == Rot(f, s + 1)[if i > s then i - s - 1 else i + |f| - s - 1];
    }
  }

  lemma NewRunFits(mem: Mem, f: seq<nat>, lo: nat, n: nat)
    requires Blocks(mem, f) && n > 0 && forall a: nat :: lo <= a < lo + CoreUnits(n) ==> IsFree(mem, f, a)
    ensures !NoFit(mem, f, n)
  {
    var i := RunInOneBlock(mem, f, lo, CoreUnits(n));
  }

  /** Address bp falls after f[t]. */
  ghost predicate Place(f: seq<nat>, t: nat, bp: nat) {
    t < |f| && f[t] < bp && (t + 1 < |f| ==> bp < f[t + 1])
  }

  lemma FindPlaceOf(f: seq<nat>, bp: nat) returns (t: nat)
    requires |f| > 0 && f[0] < bp && bp !in f
    ensures Place(f, t, bp)
  {
    t := 0;
    while t + 1 < |f| && f[t + 1] < bp
      invariant t < |f| && f[t] < bp
    {
      t := t + 1;
    }
  }

  /** The tests of free()'s search loop. */
  predicate Stops(p: nat, q: nat, bp: nat) {
    (bp > p && bp < q) || (p >= q && (bp > p || bp < q))
  }

  lemma StopsOnlyThere(f: seq<nat>, t: nat, bp: nat, i: nat)
    requires Sorted(f) && Place(f, t, bp) && f[0] < bp && i < |f|
    ensures Stops(f[i], NextIn(f, i), bp) <==> i == t
  {
  }

  lemma RotStops(mem: Mem, f: seq<nat>, s: nat, t: nat, bp: nat, d: nat)
    requires Blocks(mem, f) && Place(f, t, bp) && f[0] < bp && s < |f| && d < |f|
    ensures var r := Rot(f, s); var goal := if t >= s then t - s else t + |f| - s;
            && goal < |f| && r[goal] == f[t] && r[0] == f[s]
            && r[d] in mem && mem[r[d]].ptr == NextIn(r, d)
            && (Stops(r[d], mem[r[d]].ptr, bp) <==> d == goal)
  {
    var i := if s + d < |f| then s + d else s + d - |f|;
    assert LinkAt(mem, f, i);
    StopsOnlyThere(f, t, bp, i);
  }

  // ----- The partition of units -----

  lemma FitsPlace(mem: Mem, f: seq<nat>, live: map<nat, nat>, owned: set<nat>, t: nat, bp: nat)
    requires Blocks(mem, f) && Partition(mem, f, live, owned) && bp in live && Place(f, t, bp)
    ensures Fits(mem, f, t, bp)
  {
    assert InBlock(live, bp, bp);
    if t >= 1 {
      assert Within(mem, f[t], bp) ==> IsFree(mem, f, bp);
    }
    if t + 1 < |f| && f[t + 1] < bp + mem[bp].size {
      assert Within(mem, f[t + 1], f[t + 1]);
      assert IsFree(mem, f, f[t + 1]);
      assert InBlock(live, bp, f[t + 1]);
    }
  }

  lemma LiveNotListed(mem: Mem, f: seq<nat>, live: map<nat, nat>, owned: set<nat>, bp: nat)
    requires Blocks(mem, f) && Partition(mem, f, live, owned) && bp in live && f[0] < bp
    ensures bp !in f
  {
    assert InBlock(live, bp, bp);
    forall i | 1 <= i < |f| ensures f[i] != bp {
      assert Within(mem, f[i], f[i]);
      assert IsFree(mem, f, f[i]);
    }
  }

  lemma PartitionAfterFree(mem: Mem, f: seq<nat>, live: map<nat, nat>, owned: set<nat>, t: nat, bp: nat)
    requires Partition(mem, f, live, owned) && bp in live && Fits(mem, f, t, bp)
    ensures f[t] in mem && mem[f[t]].ptr in mem
    ensures Partition(Freed(mem, f[t], bp), Inserted(mem, f, t, bp), live - {bp}, owned)
    ensures forall b :: b in live && b != bp ==> b in mem && b in Freed(mem, f[t], bp) && Freed(mem, f[t], bp)[b] == mem[b]
  {
    FreedBlocks(mem, f, t, bp, 0);
    var m, g, l := Freed(mem, f[t], bp), Inserted(mem, f, t, bp), live - {bp};
    forall a: nat
      ensures IsFree(m, g, a) <==> IsFree(mem, f, a) || Within(mem, bp, a)
      ensures IsLive(l, a) <==> IsLive(live, a) && !InBlock(live, bp, a)
      ensures InBlock(live, bp, a) <==> Within(mem, bp, a)
    {
      FreedBlocks(mem, f, t, bp, a);
      LiveMinus(live, bp, a);
      assert IsLive(live, a) && InBlock(live, bp, a) ==> forall c :: InBlock(live, c, a) ==> c == bp;
    }
    forall b, c, a | InBlock(l, b, a) && InBlock(l, c, a) ensures b == c {
      assert InBlock(live, b, a) && InBlock(live, c, a);
    }
    forall b | b in l ensures b in m && m[b] == mem[b] {
      assert InBlock(live, b, b);
      assert b != bp && !IsFree(mem, f, b);
      if b == f[t] && t >= 1 { assert Within(mem, f[t], b); }
    }
  }

  lemma LiveMinus(live: map<nat, nat>, bp: nat, a: nat)
    requires forall b, c :: InBlock(live, b, a) && InBlock(live, c, a) ==> b == c
    ensures IsLive(live - {bp}, a) <==> IsLive(live, a) && !InBlock(live, bp, a)
  {
    if IsLive(live, a) && !InBlock(live, bp, a) {
      var b :| InBlock(live, b, a);
      assert InBlock(live - {bp}, b, a);
    }
    if IsLive(live - {bp}, a) {
      var b :| InBlock(live - {bp}, b, a);
      assert InBlock(live, b, a);
    }
  }

  /** malloc's exact-fit branch. */
  lemma PartitionTakeAll(mem: Mem, f: seq<nat>, live: map<nat, nat>, owned: set<nat>, k: nat)
    requires Blocks(mem, f) && Partition(mem, f, live, owned) && 1 <= k < |f|
    ensures f[k] !in live
    ensures var m := mem[f[k - 1] := Header(mem[f[k]].ptr, mem[f[k - 1]].size)];
            Partition(m, Minus(f, k), live[f[k] := mem[f[k]].size], owned)
  {
    var m := mem[f[k - 1] := Header(mem[f[k]].ptr, mem[f[k - 1]].size)];
    NewLive(mem, f, live, owned, k, f[k], mem[f[k]].size, live[f[k] := mem[f[k]].size]);
    SortedAt(f, k - 1, k);
    forall a: nat ensures IsFree(m, Minus(f, k), a) <==> IsFree(mem, f, a) && !Within(mem, f[k], a) {
      UnlinkedFree(mem, f, k, m, a);
    }
    SentinelNotLive(mem, f, live, owned);
  }

  /** No block of the list is live. */
  lemma SentinelNotLive(mem: Mem, f: seq<nat>, live: map<nat, nat>, owned: set<nat>)
    requires Blocks(mem, f) && Partition(mem, f, live, owned)
    ensures forall i :: 0 <= i < |f| ==> f[i] !in live
  {
    forall i | 0 <= i < |f| ensures f[i] !in live {
      if i >= 1 {
        assert Within(mem, f[i], f[i]);
        assert IsFree(mem, f, f[i]);
        assert f[i] in live ==> InBlock(live, f[i], f[i]);
      }
    }
  }

  /** malloc's splitting branch: the block keeps its lower part, the tail end goes to the caller. */
  lemma PartitionTakeTail(mem: Mem, f: seq<nat>, live: map<nat, nat>, owned: set<nat>, k: nat, n: nat, h: Header)
    requires Blocks(mem, f) && Partition(mem, f, live, owned) && 1 <= k < |f| && 0 < n < mem[f[k]].size && h.size == n
    ensures var p := f[k] + mem[f[k]].size - n;
            var m := mem[f[k] := Header(mem[f[k]].ptr, mem[f[k]].size - n)][p := h];
            p !in live && p !in f && Blocks(m, f) && Partition(m, f, live[p := n], owned)
  {
    var p := f[k] + mem[f[k]].size - n;
    var m := mem[f[k] := Header(mem[f[k]].ptr, mem[f[k]].size - n)];
    NewLive(mem, f, live, owned, k, p, n, live[p := n]);
    SentinelNotLive(mem, f, live, owned);
    forall i | 0 <= i < |f| ensures f[i] != p {
      if i >= 1 && i != k { assert if i < k then Apart(mem, f, i, k) else Apart(mem, f, k, i); }
    }
    if k + 1 < |f| { assert Apart(mem, f, k, k + 1); }
    Resized(mem, f, k, mem[f[k]].size - n);
    ListFrame(m, m[p := h], f, 0);
    forall a: nat
      ensures IsFree(m[p := h], f, a) <==> IsFree(mem, f, a) && !(p <= a < p + n)
    {
      ResizedFree(mem, f, k, mem[f[k]].size - n, m, a);
      ListFrame(m, m[p := h], f, a);
      assert Within(mem, f[k], a) ==> IsFree(mem, f, a);
    }
    assert f[k] !in live;
    Retired(mem, m[p := h], f, live, live[p := n], owned, p, n);
  }

  /** n units from p go from the free blocks to the live ones. */
  lemma Retired(mem: Mem, m: Mem, f: seq<nat>, live: map<nat, nat>, l: map<nat, nat>, owned: set<nat>, p: nat, n: nat)
    requires Partition(mem, f, live, owned) && LiveApart(l)
    requires forall a: nat :: p <= a < p + n ==> IsFree(mem, f, a) && !IsLive(live, a)
    requires forall a: nat :: IsFree(m, f, a) <==> IsFree(mem, f, a) && !(p <= a < p + n)
    requires forall a: nat :: IsLive(l, a) <==> IsLive(live, a) || p <= a < p + n
    requires forall b :: b in l ==> l[b] > 0 && b in m && m[b].size == l[b]
    ensures Partition(m, f, l, owned)
  {
    hide IsFree, IsLive, LiveApart;
  }

  /** A new live block inside free block f[k] clashes with no other. */
  lemma NewLive(mem: Mem, f: seq<nat>, live: map<nat, nat>, owned: set<nat>, k: nat, p: nat, n: nat, l: map<nat, nat>)
    requires Blocks(mem, f) && Partition(mem, f, live, owned) && 1 <= k < |f|
    requires f[k] <= p && n > 0 && p + n <= f[k] + mem[f[k]].size && l == live[p := n]
    ensures p !in live
    ensures forall a: nat :: p <= a < p + n ==> IsFree(mem, f, a) && !IsLive(live, a)
    ensures forall a: nat :: IsLive(l, a) <==> IsLive(live, a) || p <= a < p + n
    ensures LiveApart(l)
  {
    forall a: nat | p <= a < p + n ensures IsFree(mem, f, a) {
      assert Within(mem, f[k], a);
    }
    assert IsFree(mem, f, p);
    assert p in live ==> InBlock(live, p, p);
    assert p in live ==> IsLive(live, p);
    forall b: nat, a: nat ensures InBlock(l, b, a) <==> InBlock(live, b, a) || (b == p && p <= a < p + n) {
    }
    forall a: nat ensures IsLive(l, a) <==> IsLive(live, a) || p <= a < p + n {
      if IsLive(live, a) { var b :| InBlock(live, b, a); assert InBlock(l, b, a); }
      if p <= a < p + n { assert InBlock(l, p, a); }
    }
    forall b: nat, c: nat, a: nat | InBlock(l, b, a) && InBlock(l, c, a) ensures b == c {
      assert InBlock(live, b, a) ==> IsLive(live, a);
      assert InBlock(live, c, a) ==> IsLive(live, a);
    }
  }

  /** sbrk's units as one live block above everything owned. */
  lemma PartitionGrow(mem: Mem, f: seq<nat>, live: map<nat, nat>, owned: set<nat>, hp: nat, n: nat, h: Header)
    requires Blocks(mem, f) && Partition(mem, f, live, owned) && n > 0 && h.size == n
    requires f[0] < hp && forall a :: a in owned ==> a < hp
    ensures hp !in f && Blocks(mem[hp := h], f)
    ensures Partition(mem[hp := h], f, live[hp := n], owned + Range(hp, n)) && hp !in live
    ensures forall a: nat :: IsFree(mem[hp := h], f, a) <==> IsFree(mem, f, a)
  {
    assert hp in live ==> InBlock(live, hp, hp) && IsLive(live, hp);
    var m, l := mem[hp := h], live[hp := n];
    forall i | 0 <= i < |f| ensures f[i] != hp {
      if i >= 1 { assert Within(mem, f[i], f[i]); assert IsFree(mem, f, f[i]); }
    }
    ListFrame(mem, m, f, 0);
    forall a: nat ensures IsFree(m, f, a) <==> IsFree(mem, f, a) {
      ListFrame(mem, m, f, a);
    }
    forall b: nat, a: nat | InBlock(live, b, a) ensures a < hp && b < hp {
      assert InBlock(live, b, b);
      assert IsLive(live, a) && IsLive(live, b);
    }
    assert hp in live ==> InBlock(live, hp, hp);
    forall b: nat, a: nat ensures InBlock(l, b, a) <==> InBlock(live, b, a) || (b == hp && hp <= a < hp + n) {
    }
    forall a: nat ensures IsLive(l, a) <==> IsLive(live, a) || hp <= a < hp + n {
      if IsLive(live, a) { var b :| InBlock(live, b, a); assert InBlock(l, b, a); }
      if hp <= a < hp + n { assert InBlock(l, hp, a); }
    }
  }

  ghost function Range(lo: nat, n: nat): (r: set<nat>)
    ensures forall a: nat :: a in r <==> lo <= a < lo + n
  {
    if n == 0 then {} else Range(lo, n - 1) + {lo + n - 1}
  }

  // ----- The allocator -----

  class Allocator {
    const base: nat
    const limit: nat
    var mem: Mem
    var freep: nat
    var brk: nat
    /** The free list in address order, the live blocks with their sizes, all units obtained. */
    ghost var f: seq<nat>
    ghost var live: map<nat, nat>
    ghost var owned: set<nat>

    ghost predicate Valid()
      reads this
    {
      && 0 < base < brk <= limit && (forall a :: a in owned ==> base < a < brk)
      && (freep == 0 ==> f == [] && live == map[] && owned == {})
      && (freep != 0 ==> Blocks(mem, f) && f[0] == base && freep in f && Partition(mem, f, live, owned))
    }

    constructor (base: nat, brk: nat, limit: nat)
      requires 0 < base < brk <= limit
      ensures Valid() && freep == 0
    {
      this.base, this.brk, this.limit := base, brk, limit;
      mem, freep := map[], 0;
      f, live, owned := [], map[], {};
    }

    /** sbrk of a signed number of units, from here or from other code of the program: 0 stands for its
        failure.  A negative request always succeeds; it shrinks the program, or changes nothing where
        it would shrink it below nothing. */
    method Sbrk(n: int) returns (r: nat)
      requires Valid()
      modifies this`brk
      ensures n >= 0 ==> Valid()
      ensures r == if n > 0 && old(brk) + n > limit then 0 else old(brk)
      ensures brk == Broken(old(brk), n, limit)
    {
      if n > 0 && brk + n > limit {
        return 0;
      }
      r := brk;
      if brk + n >= 0 {
        brk := brk + n;
      }
    }

    /** free()'s search: the list block after which bp belongs. */
    method FindPlace(bp: nat) returns (p: nat, ghost t: nat)
      requires Blocks(mem, f) && freep in f && f[0] < bp && bp !in f
      ensures Place(f, t, bp) && p == f[t]
    {
      hide Blocks, Place;
      t := FindPlaceOf(f, bp);
      ghost var s :| 0 <= s < |f| && f[s] == freep;
      ghost var r := Rot(f, s);
      ghost var d, goal := 0, if t >= s then t - s else t + |f| - s;
      p := freep;
      RotStops(mem, f, s, t, bp, 0);
      while !(bp > p && bp < mem[p].ptr)
        invariant 0 <= d <= goal < |f| && p == r[d] && p in mem
        invariant mem[p].ptr == NextIn(r, d)
        invariant Stops(p, mem[p].ptr, bp) <==> d == goal
        decreases goal - d
      {
        if p >= mem[p].ptr && (bp > p || bp < mem[p].ptr) {
          break;
        }
        RotStops(mem, f, s, t, bp, d + 1);
        d := d + 1;
        p := mem[p].ptr;
      }
    }

    /** free(ap), bp being ap's header. */
    method Free(bp: nat)
      requires Valid() && freep != 0 && bp in live
      modifies this`mem, this`freep, this`f, this`live
      ensures Valid() && freep != 0 && live == old(live) - {bp}
      ensures forall b :: b in live ==> b in mem && b in old(mem) && mem[b] == old(mem)[b]
      ensures forall a: nat :: IsFree(mem, f, a) <==> IsFree(old(mem), old(f), a) || bp <= a < bp + old(live[bp])
    {
      assert InBlock(live, bp, bp) && IsLive(live, bp);
      LiveNotListed(mem, f, live, owned, bp);
      var p;
      ghost var t;
      p, t := FindPlace(bp);
      FitsPlace(mem, f, live, owned, t, bp);
      PartitionAfterFree(mem, f, live, owned, t, bp);
      hide Blocks, Partition, Place;
      ghost var m0, f0 := mem, f;
      Splice(p, bp);
      freep := p;
      f := Inserted(m0, f0, t, bp);
      live := live - {bp};
      FreedBlocks(m0, f0, t, bp, 0);
      forall a: nat ensures IsFree(mem, f, a) <==> IsFree(m0, f0, a) || Within(m0, bp, a) {
        FreedBlocks(m0, f0, t, bp, a);
      }
    }

    /** free()'s header assignments. */
    method Splice(p: nat, bp: nat)
      requires p in mem && bp in mem && mem[p].ptr in mem && p != bp
      modifies this`mem
      ensures mem == Freed(old(mem), p, bp)
    {
      var q := mem[p].ptr;
      if bp + mem[bp].size == q {
        mem := mem[bp := Header(mem[bp].ptr, mem[bp].size + mem[q].size)];
        mem := mem[bp := Header(mem[q].ptr, mem[bp].size)];
      } else {
        mem := mem[bp := Header(q, mem[bp].size)];
      }
      if p + mem[p].size == bp {
        mem := mem[p := Header(mem[p].ptr, mem[p].size + mem[bp].size)];
        mem := mem[p := Header(mem[bp].ptr, mem[p].size)];
      } else {
        mem := mem[p := Header(bp, mem[p].size)];
      }
    }

    /** Clients may write every unit of a live block but its header. */
    method Store(b: nat, a: nat, h: Header)
      requires Valid() && freep != 0 && b in live && b < a < b + live[b]
      modifies this`mem
      ensures Valid()
    {
      assert InBlock(live, b, a) && IsLive(live, a);
      forall i | 0 <= i < |f| ensures f[i] != a {
        if i >= 1 { assert Within(mem, f[i], f[i]) && IsFree(mem, f, f[i]); }
      }
      assert a in live ==> InBlock(live, a, a);
      ListFrame(mem, mem[a := h], f, 0);
      forall x: nat ensures IsFree(mem[a := h], f, x) <==> IsFree(mem, f, x) {
        ListFrame(mem, mem[a := h], f, x);
      }
      mem := mem[a := h];
    }

    /** morecore: at least 4096 units from sbrk, handed to free.  `fault` says that sbrk was asked for
        less than nothing and said yes: the new header then goes to memory the program does not have. */
    method Morecore(nu0: nat) returns (r: nat, fault: bool)
      requires Valid() && freep != 0 && 0 < nu0 <= 0x2000_0000
      modifies this
      ensures live == old(live) && freep != 0 && (fault <==> Argument(CoreUnits(nu0)) <= 0)
      ensures fault ==> r == 0 && brk == Broken(old(brk), Argument(CoreUnits(nu0)), limit)
      ensures !fault ==> Valid() && (r == 0 <==> old(brk) + CoreUnits(nu0) > limit)
      ensures r == 0 ==> mem == old(mem) && f == old(f) && owned == old(owned) && freep == old(freep)
      ensures r == 0 && !fault ==> brk == old(brk)
      ensures r != 0 ==> r == freep && owned == old(owned) + Range(old(brk), CoreUnits(nu0))
      ensures r != 0 ==> brk == old(brk) + CoreUnits(nu0)
      ensures r != 0 ==> forall a: nat :: IsFree(mem, f, a) <==> IsFree(old(mem), old(f), a) || old(brk) <= a < brk
    {
      hide Partition, Blocks, IsFree, Argument;
      var nu := nu0;
      if nu < 4096 {
        nu := 4096;
      }
      ArgumentPlain(nu);
      fault := Argument(nu) <= 0;
      var hp := Sbrk(Argument(nu));
      if fault || hp == 0 {
        return 0, fault;
      }
      PartitionGrow(mem, f, live, owned, hp, nu, Header(0, nu));
      mem := mem[hp := Header(0, nu)];
      live := live[hp := nu];
      owned := owned + Range(hp, nu);
      Free(hp);
      assert live == old(live);
      r := freep;
    }

    /** The two ways malloc takes n units from free block p, prevp being its predecessor. */
    method Carve(p: nat, prevp: nat, n: nat, ghost k: nat) returns (b: nat)
      requires Valid() && freep != 0 && 1 <= k < |f| && f[k] == p && f[k - 1] == prevp
      requires 0 < n <= mem[p].size
      modifies this`mem, this`freep, this`f, this`live
      ensures Valid() && freep != 0 && b !in old(live) && live == old(live)[b := n]
      ensures forall a: nat :: b <= a < b + n ==> IsFree(old(mem), old(f), a)
    {
      hide IsFree, IsLive, LiveApart, LinkAt, Sorted, Apart;
      SortedLow(f, k - 1);
      NewLive(mem, f, live, owned, k, p + mem[p].size - n, n, live[p + mem[p].size - n := n]);
      if mem[p].size == n {
        PartitionTakeAll(mem, f, live, owned, k);
        Unlinked(mem, f, k);
        mem := mem[prevp := Header(mem[p].ptr, mem[prevp].size)];
        f := Minus(f, k);
        assert f[k - 1] == prevp;
        b := p;
      } else {
        PartitionTakeTail(mem, f, live, owned, k, n, Header(StaleLink(p + mem[p].size - n), n));
        var stale := StaleLink(p + mem[p].size - n);
        mem := mem[p := Header(mem[p].ptr, mem[p].size - n)];
        b := p + mem[p].size;
        mem := mem[b := Header(stale, n)];
      }
      live := live[b := n];
      freep := prevp;
    }

    /** Whatever the ptr field of a unit inside a free block last held. */
    function StaleLink(a: nat): nat
      reads this`mem
    {
      if a in mem then mem[a].ptr else 0
    }

    /** malloc: the new block's payload address; 0 exactly when no free block is large enough and sbrk
        refuses; or the fault of morecore. */
    method Malloc(nbytes: nat) returns (r: nat, fault: bool)
      requires Valid() && nbytes < WORDS
      modifies this
      ensures freep != 0
      ensures fault <==> NoFit(old(mem), old(f), Units(nbytes)) && Argument(CoreUnits(Units(nbytes))) <= 0
      ensures fault ==> r == 0 && live == old(live) && owned == old(owned)
                        && brk == Broken(old(brk), Argument(CoreUnits(Units(nbytes))), limit)
      ensures !fault ==> Valid() && (r == 0 <==> NoFit(old(mem), old(f), Units(nbytes)) && old(brk) + CoreUnits(Units(nbytes)) > limit)
      ensures r == 0 && !fault ==> live == old(live) && owned == old(owned) && brk == old(brk)
      ensures r != 0 ==> r - 1 !in old(live) && live == old(live)[r - 1 := Units(nbytes)]
      ensures r != 0 ==> forall a: nat :: r - 1 <= a < r - 1 + Units(nbytes) ==>
                IsFree(old(mem), old(f), a) || old(brk) <= a < brk
      ensures r != 0 ==> brk == old(brk) || (NoFit(old(mem), old(f), Units(nbytes)) && brk == old(brk) + CoreUnits(Units(nbytes)))
    {
      hide Blocks, Partition, IsFree;
      var nunits := (nbytes + 8 - 1) % WORDS / 8 + 1;
      fault := false;
      if freep == 0 {
        EmptyList(mem);
        StartRing();
      }
      ghost var m1, f1 := mem, f;
      assert forall a: nat :: IsFree(m1, f1, a) <==> IsFree(old(mem), old(f), a);
      var found, p, prevp;
      ghost var k;
      found, p, prevp, k := Lap(nunits);
      if !found {
        p, fault := Morecore(nunits);
        if p == 0 {
          return 0, fault;
        }
        NewRunFits(mem, f, old(brk), nunits);
        found, p, prevp, k := Lap(nunits);
      }
      var b := Carve(p, prevp, nunits, k);
      r := b + 1;
    }

    /** One lap of malloc's loop, from freep's successor to freep: the first block of n units or more
        with its predecessor, if there is one.  Where the source calls morecore and goes on from
        freep, malloc starts another lap; the new block always ends that one. */
    method Lap(n: nat) returns (found: bool, p: nat, prevp: nat, ghost k: nat)
      requires Valid() && freep != 0 && n > 0
      ensures found <==> !NoFit(mem, f, n)
      ensures found ==> 1 <= k < |f| && f[k] == p && f[k - 1] == prevp && mem[p].size >= n
    {
      hide Blocks, Partition;
      ghost var s :| 0 <= s < |f| && f[s] == freep;
      ghost var r := Rot(f, s + 1);
      ghost var d := 0;
      prevp := freep;
      k := WalkAt(mem, f, s, |f| - 1);
      k := WalkAt(mem, f, s, 0);
      p := mem[prevp].ptr;
      while true
        invariant d < |f| && p == r[d] && prevp == (if d == 0 then f[s] else r[d - 1]) && SmallUpTo(mem, r, d, n)
        decreases |f| - d
      {
        k := WalkAt(mem, f, s, d);
        if mem[p].size >= n {
          FitHere(mem, f, k, n);
          return true, p, prevp, k;
        }
        if p == freep {
          SmallAll(mem, f, s, n);
          return false, p, prevp, k;
        }
        d := d + 1;
        prevp := p;
        p := mem[p].ptr;
      }
    }

    /** The first call: base alone. */
    method StartRing()
      requires Valid() && freep == 0
      modifies this`mem, this`freep, this`f
      ensures Valid() && freep == base && f == [base] && forall a: nat :: !IsFree(mem, f, a)
    {
      mem := mem[base := Header(base, StaleLink(base))];
      freep := base;
      mem := mem[base := Header(mem[base].ptr, 0)];
      f := [base];
      assert LinkAt(mem, f, 0);
    }
  }

  const WORDS: nat := 0x1_0000_0000

  /** Header units for a request, in 32 bits: the payload rounded up, and one for the header. */
  function Units(nbytes: nat): (r: nat)
    ensures 0 < r <= 0x2000_0000
  {
    (nbytes + 8 - 1) % WORDS / 8 + 1
  }

  function CoreUnits(n: nat): (r: nat) {
    if n < 4096 then 4096 else n
  }

  /** nu * sizeof(Header) as the int that sbrk takes, in units. */
  function Argument(nu: nat): int {
    var b := nu * 8 % WORDS;
    if b < WORDS / 2 then b / 8 else (b - WORDS) / 8
  }

  /** The break after sbrk(n). */
  function Broken(brk: nat, n: int, limit: nat): (r: nat) {
    if brk + n < 0 || (n > 0 && brk + n > limit) then brk else brk + n
  }

  lemma ArgumentPlain(nu: nat)
    requires 0 < nu <= 0x2000_0000
    ensures Argument(nu) > 0 <==> nu < 0x1000_0000
    ensures Argument(nu) > 0 ==> Argument(nu) == nu
  {
  }

  /** Malloc is right, in that a block it hands out has the bytes asked for and that sbrk is asked for
      more memory and not for less, exactly up to this request. */
  lemma RightUpTo(nbytes: nat)
    requires nbytes < WORDS
    ensures 8 * (Units(nbytes) - 1) >= nbytes && Argument(CoreUnits(Units(nbytes))) > 0 <==> nbytes <= 0x7FFF_FFF0
  {
    ArgumentPlain(CoreUnits(Units(nbytes)));
  }

  /** The next request makes sbrk subtract 2^31 bytes.  To a program of 1 MB that changes nothing, and
      sbrk reports success. */
  lemma NegativeRequest(limit: nat)
    requires limit >= 0x2_0000
    ensures Argument(CoreUnits(Units(0x7FFF_FFF1))) == -0x1000_0000
    ensures Broken(0x2_0000, -0x1000_0000, limit) == 0x2_0000
  {
  }

  /** The largest requests wrap to a block with no payload. */
  lemma WrappedRequest(nbytes: nat)
    requires nbytes < WORDS
    ensures 8 * (Units(nbytes) - 1) >= nbytes <==> nbytes + 7 < WORDS
  {
  }
}
