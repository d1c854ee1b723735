/** The copying collector of lisp/lisp.c: two heaps of car/cdr words, pair cells copied first, leaf
    cells above them, forwarding addresses left in the old cells. */
module Collector {

  // ----- Words: a tag byte over a 24-bit index -----

  const INDEXES: nat := 0x1000000
  const TAG_INT: nat := 0x01000000
  const TAG_SYM: nat := 0x02000000
  const TAG_PAIR: nat := 0x04000000
  const TAG_FLOAT: nat := 0x08000000
  const TAG_MARK: nat := 0xff000000

  function Index(w: nat): nat { w % INDEXES }

  function Tag(w: nat): nat { w - w % INDEXES }

  /** p & TAG_PAIR. */
  predicate Pairq(w: nat) { w / TAG_PAIR % 2 == 1 }

  predicate IsTag(t: nat) { t == TAG_INT || t == TAG_SYM || t == TAG_PAIR || t == TAG_FLOAT }

  lemma WordParts(t: nat, i: nat)
    requires i < INDEXES && (IsTag(t) || t == 0)
    ensures Index(t + i) == i && Tag(t + i) == t && (Pairq(t + i) <==> t == TAG_PAIR)
  {
  }

  // ----- Heaps -----

  datatype Heap = Heap(car: seq<nat>, cdr: seq<nat>)

  /** The tag by which live words name each cell: one tag per index. */
  type Kinds = map<nat, nat>

  /** Nil, or a reference that agrees with its cell's tag. */
  ghost predicate IsRef(kind: Kinds, w: nat) {
    w == 0 || (Index(w) in kind && Tag(w) == kind[Index(w)])
  }

  /** The cells in `kind` are closed under the pairs among them; a leaf's words are raw, save that
      its car may not be the mark. */
  ghost predicate Closed(h: Heap, kind: Kinds, mfree: nat) {
    && mfree <= |h.car| == |h.cdr| && |h.car| < INDEXES
    && forall i :: i in kind ==>
         && 1 <= i < mfree && IsTag(kind[i])
         && (kind[i] == TAG_PAIR ==> IsRef(kind, h.car[i]) && IsRef(kind, h.cdr[i]))
         && (kind[i] != TAG_PAIR ==> h.car[i] != TAG_MARK)
  }

  /** The address map applied to a word. */
  ghost function Move(fwd: map<nat, nat>, w: nat): nat {
    if w != 0 && Index(w) in fwd then Tag(w) + fwd[Index(w)] else w
  }

  /** src lists the copied cells by new index (0 is unused); fwd is its inverse. */
  ghost predicate Inverse(src: seq<nat>, fwd: map<nat, nat>) {
    && |src| >= 1
    && (forall i :: i in fwd ==> 1 <= fwd[i] < |src| && src[fwd[i]] == i)
    && (forall j :: 1 <= j < |src| ==> src[j] in fwd && fwd[src[j]] == j)
  }

  /** The old heap while copying: forwarded cells carry the mark and their new word, others are as
      in the original heap o. */
  ghost predicate Forwarded(o: Heap, cur: Heap, kind: Kinds, fwd: map<nat, nat>) {
    && |cur.car| == |cur.cdr| == |o.car| == |o.cdr|
    && (forall i :: i in fwd ==> i in kind && i < |o.car| && cur.car[i] == TAG_MARK && cur.cdr[i] == kind[i] + fwd[i])
    && (forall i :: i in kind && i !in fwd ==> i < |o.car| && cur.car[i] == o.car[i] && cur.cdr[i] == o.cdr[i])
  }

  lemma SeqInSet(src: seq<nat>, fwd: map<nat, nat>, s: set<nat>)
    requires Inverse(src, fwd) && fwd.Keys <= s
    ensures |src| <= |s| + 1
  {
    InverseSize(src, fwd);
    SubsetSize(fwd.Keys, s);
  }

  lemma SubsetSize(a: set<nat>, b: set<nat>)
    requires a <= b
    ensures |a| <= |b|
  {
    assert b == a + (b - a);
  }

  lemma {:induction false} InverseSize(src: seq<nat>, fwd: map<nat, nat>)
    requires Inverse(src, fwd)
    ensures |fwd.Keys| == |src| - 1
  {
    if |src| == 1 {
      assert fwd.Keys == {};
    } else {
      var n := |src| - 1;
      var rest := fwd - {src[n]};
      InverseSize(src[..n], rest);
      assert fwd.Keys == rest.Keys + {src[n]};
    }
  }

  lemma {:induction false} RangeSize(s: set<nat>, n: nat)
    requires forall i :: i in s ==> 1 <= i < n
    ensures |s| <= if n == 0 then 0 else n - 1
  {
    if n > 1 {
      RangeSize(s - {n - 1}, n - 1);
      assert s <= (s - {n - 1}) + {n - 1};
      SubsetSize(s, (s - {n - 1}) + {n - 1});
    } else {
      assert s == {};
    }
  }

  /** Room for one more cell: what is copied and the next live cell all lie below mfree. */
  lemma RoomForOne(o: Heap, kind: Kinds, mfree: nat, src: seq<nat>, fwd: map<nat, nat>, i: nat)
    requires Closed(o, kind, mfree) && Inverse(src, fwd) && fwd.Keys <= kind.Keys && i in kind && i !in fwd
    ensures |src| < mfree
  {
    RangeSize(kind.Keys, mfree);
    SeqInSet(src, fwd, kind.Keys - {i});
    assert |kind.Keys - {i}| == |kind.Keys| - 1;
  }

  /** What copy(x) returns: the word left behind where the cell is marked, and otherwise the next free
      cell under the same tag. */
  function Copied(cur: Heap, x: nat, nfree: nat): nat
    requires Index(x) < |cur.car| == |cur.cdr|
  {
    if cur.car[Index(x)] == TAG_MARK then cur.cdr[Index(x)] else Tag(x) + nfree
  }

  /** The two words in which consint stores a number. */
  function High(n: int): nat { n / 0x1_0000_0000 % 0x1_0000_0000 }

  function Low(n: int): nat { n % 0x1_0000_0000 }

  /** A number that has not been copied yet is copied, unless it lies in a range of 2^32 numbers: there
      copy takes the low word for the cell's new place, which is right for one number only. */
  lemma NumberCopied(cur: Heap, x: nat, nfree: nat, n: int)
    requires Index(x) < |cur.car| == |cur.cdr| && -0x8000_0000_0000_0000 <= n < 0x8000_0000_0000_0000
    requires cur.car[Index(x)] == High(n) && cur.cdr[Index(x)] == Low(n)
    ensures Copied(cur, x, nfree) == Tag(x) + nfree <==>
            (!(-0x100_0000_0000_0000 <= n < -0x100_0000_0000_0000 + 0x1_0000_0000) || n == -0x100_0000_0000_0000 + Tag(x) + nfree)
  {
    var q := n / 0x1_0000_0000;
    assert n == q * 0x1_0000_0000 + Low(n);
    assert High(n) == if q >= 0 then q else q + 0x1_0000_0000;
    assert High(n) == TAG_MARK <==> -0x100_0000_0000_0000 <= n < -0x100_0000_0000_0000 + 0x1_0000_0000;
  }

  /** One such number: its copy is a word without a tag, and so not the number any more. */
  lemma NumberLost()
    ensures var cur := Heap([0, High(-0xff_ffff_ffff_fffb)], [0, Low(-0xff_ffff_ffff_fffb)]);
            Copied(cur, TAG_INT + 1, 1) == 5
  {
  }

  /** The mark tells forwarded cells from the others. */
  lemma MarkTells(o: Heap, cur: Heap, kind: Kinds, mfree: nat, src: seq<nat>, fwd: map<nat, nat>, i: nat)
    requires Closed(o, kind, mfree) && Forwarded(o, cur, kind, fwd) && Inverse(src, fwd) && i in kind
    ensures 1 <= i < mfree <= |o.car| && IsTag(kind[i]) && fwd.Keys <= kind.Keys
    ensures cur.car[i] == TAG_MARK <==> i in fwd
    ensures i in fwd ==> cur.cdr[i] == kind[i] + fwd[i] && fwd[i] < |src|
    ensures i !in fwd ==> cur.car[i] == o.car[i] && cur.cdr[i] == o.cdr[i]
  {
  }

  lemma KindBound(o: Heap, kind: Kinds, mfree: nat)
    requires Closed(o, kind, mfree)
    ensures |o.car| == |o.cdr| && forall i :: i in kind ==> i < |o.car|
  {
  }

  lemma ChildRefs(o: Heap, kind: Kinds, mfree: nat, i: nat)
    requires Closed(o, kind, mfree) && i in kind && kind[i] == TAG_PAIR
    ensures i < |o.car| == |o.cdr| && IsRef(kind, o.car[i]) && IsRef(kind, o.cdr[i])
  {
  }

  lemma CopiedBound(o: Heap, cur: Heap, kind: Kinds, mfree: nat, src: seq<nat>, fwd: map<nat, nat>)
    requires Closed(o, kind, mfree) && Forwarded(o, cur, kind, fwd) && Inverse(src, fwd) && mfree >= 1
    ensures |src| <= mfree
  {
    RangeSize(kind.Keys, mfree);
    SeqInSet(src, fwd, kind.Keys);
  }

  lemma PairKind(o: Heap, kind: Kinds, mfree: nat, x: nat)
    requires Closed(o, kind, mfree) && IsRef(kind, x) && x != 0
    ensures Pairq(x) <==> kind[Index(x)] == TAG_PAIR
    ensures Index(x) < |o.car| == |o.cdr|
  {
    WordParts(kind[Index(x)], Index(x));
  }

  /** A half-translated word: pairs are finished, leaves and nil as before. */
  lemma HalfWord(o: Heap, kind: Kinds, mfree: nat, src: seq<nat>, fwd: map<nat, nat>, w: nat)
    requires Closed(o, kind, mfree) && IsRef(kind, w) && Inverse(src, fwd) && |src| <= INDEXES
    requires Pairq(w) ==> Index(w) in fwd
    ensures Pairq(w) ==> Half(fwd, w) == Move(fwd, w) && Pairq(Half(fwd, w))
    ensures !Pairq(w) ==> Half(fwd, w) == w
  {
    if Pairq(w) {
      WordParts(kind[Index(w)], Index(w));
      WordParts(TAG_PAIR, fwd[Index(w)]);
    }
  }

  lemma ForwardOne(o: Heap, cur: Heap, kind: Kinds, src: seq<nat>, fwd: map<nat, nat>, i: nat)
    requires Forwarded(o, cur, kind, fwd) && Inverse(src, fwd) && i in kind && i !in fwd && i < |o.car|
    ensures Inverse(src + [i], fwd[i := |src|])
    ensures Forwarded(o, Heap(cur.car[i := TAG_MARK], cur.cdr[i := kind[i] + |src|]), kind, fwd[i := |src|])
  {
  }

  // ----- What a new cell holds -----

  function Half(fwd: map<nat, nat>, w: nat): nat {
    if Pairq(w) && Index(w) in fwd then Tag(w) + fwd[Index(w)] else w
  }

  /** As copy left it. */
  ghost predicate Raw(o: Heap, src: seq<nat>, nw: Heap, j: nat)
    requires j < |src| && src[j] < |o.car| == |o.cdr| && j < |nw.car| == |nw.cdr|
  {
    nw.car[j] == o.car[src[j]] && nw.cdr[j] == o.cdr[src[j]]
  }

  ghost predicate PairDone(fwd: map<nat, nat>, was: nat, now: nat) {
    now == Half(fwd, was) && (Pairq(was) ==> Index(was) in fwd)
  }

  ghost predicate Done(fwd: map<nat, nat>, was: nat, now: nat) {
    now == Move(fwd, was) && (was != 0 ==> Index(was) in fwd)
  }

  /** Its pair references are translated. */
  ghost predicate Scanned(o: Heap, src: seq<nat>, fwd: map<nat, nat>, nw: Heap, j: nat)
    requires j < |src| && src[j] < |o.car| == |o.cdr| && j < |nw.car| == |nw.cdr|
  {
    PairDone(fwd, o.car[src[j]], nw.car[j]) && PairDone(fwd, o.cdr[src[j]], nw.cdr[j])
  }

  /** All its references are translated. */
  ghost predicate Finished(o: Heap, src: seq<nat>, fwd: map<nat, nat>, nw: Heap, j: nat)
    requires j < |src| && src[j] < |o.car| == |o.cdr| && j < |nw.car| == |nw.cdr|
  {
    Done(fwd, o.car[src[j]], nw.car[j]) && Done(fwd, o.cdr[src[j]], nw.cdr[j])
  }

  ghost predicate Extends(f: map<nat, nat>, g: map<nat, nat>) {
    forall i :: i in f ==> i in g && g[i] == f[i]
  }

  lemma DoneGrows(f: map<nat, nat>, g: map<nat, nat>, was: nat, now: nat)
    requires Extends(f, g)
    ensures PairDone(f, was, now) ==> PairDone(g, was, now)
    ensures Done(f, was, now) ==> Done(g, was, now)
  {
  }

  ghost predicate Sized(o: Heap, kind: Kinds, src: seq<nat>, nw: Heap) {
    && |o.car| == |o.cdr| && |src| <= |nw.car| == |nw.cdr|
    && forall j :: 1 <= j < |src| ==> src[j] < |o.car| && src[j] in kind
  }

  /** During the pair phase: cells 1..|src|-1 are pairs, those below nscan scanned, the rest raw;
      cell `skip` is being worked on. */
  ghost predicate PairPhase(o: Heap, kind: Kinds, src: seq<nat>, fwd: map<nat, nat>, nw: Heap, nscan: nat, skip: nat) {
    && Sized(o, kind, src, nw)
    && forall j :: 1 <= j < |src| ==>
         && kind[src[j]] == TAG_PAIR
         && (j != skip && j < nscan ==> Scanned(o, src, fwd, nw, j))
         && (j != skip && j >= nscan ==> Raw(o, src, nw, j))
  }

  lemma GrowPairs(o: Heap, kind: Kinds, src: seq<nat>, fwd: map<nat, nat>, nw: Heap, nscan: nat, skip: nat, i: nat)
    requires PairPhase(o, kind, src, fwd, nw, nscan, skip) && skip < |src| && nscan <= |src| < |nw.car|
    requires i !in fwd && i in kind && kind[i] == TAG_PAIR && i < |o.car|
    ensures PairPhase(o, kind, src + [i], fwd[i := |src|],
                      Heap(nw.car[|src| := o.car[i]], nw.cdr[|src| := o.cdr[i]]), nscan, skip)
  {
    var src2: seq<nat> := src + [i];
    var g, nw2 := fwd[i := |src|], Heap(nw.car[|src| := o.car[i]], nw.cdr[|src| := o.cdr[i]]);
    forall j | 1 <= j < |src2|
      ensures src2[j] in kind && src2[j] < |o.car| && kind[src2[j]] == TAG_PAIR
      ensures j != skip && j < nscan ==> Scanned(o, src2, g, nw2, j)
      ensures j != skip && j >= nscan ==> Raw(o, src2, nw2, j)
    {
      if j < |src| {
        DoneGrows(fwd, g, o.car[src[j]], nw.car[j]);
        DoneGrows(fwd, g, o.cdr[src[j]], nw.cdr[j]);
      }
    }
  }

  /** The cell being worked on may change. */
  lemma SkipPairs(o: Heap, kind: Kinds, src: seq<nat>, fwd: map<nat, nat>, nw: Heap, nw2: Heap, nscan: nat, skip: nat)
    requires PairPhase(o, kind, src, fwd, nw, nscan, skip)
    requires |nw2.car| == |nw2.cdr| == |nw.car|
    requires forall j :: 0 <= j < |nw.car| && j != skip ==> nw2.car[j] == nw.car[j] && nw2.cdr[j] == nw.cdr[j]
    ensures PairPhase(o, kind, src, fwd, nw2, nscan, skip)
  {
  }

  /** During the leaf phase: pairs lie below p, those above nscan finished, the others scanned;
      from p on come raw leaves, never scanned. */
  ghost predicate LeafPhase(o: Heap, kind: Kinds, src: seq<nat>, fwd: map<nat, nat>, nw: Heap, p: nat, nscan: nat, skip: nat) {
    && Sized(o, kind, src, nw) && 1 <= p <= |src|
    && (forall j :: 1 <= j < p ==>
         && kind[src[j]] == TAG_PAIR
         && (j != skip && j <= nscan ==> Scanned(o, src, fwd, nw, j))
         && (j != skip && j > nscan ==> Finished(o, src, fwd, nw, j)))
    && (forall j :: p <= j < |src| ==> kind[src[j]] != TAG_PAIR && Raw(o, src, nw, j))
  }

  lemma GrowLeaves(o: Heap, kind: Kinds, src: seq<nat>, fwd: map<nat, nat>, nw: Heap, p: nat, nscan: nat, skip: nat, i: nat)
    requires LeafPhase(o, kind, src, fwd, nw, p, nscan, skip) && |src| < |nw.car|
    requires i !in fwd && i in kind && kind[i] != TAG_PAIR && i < |o.car|
    ensures LeafPhase(o, kind, src + [i], fwd[i := |src|],
                      Heap(nw.car[|src| := o.car[i]], nw.cdr[|src| := o.cdr[i]]), p, nscan, skip)
  {
    var src2: seq<nat> := src + [i];
    var g, nw2 := fwd[i := |src|], Heap(nw.car[|src| := o.car[i]], nw.cdr[|src| := o.cdr[i]]);
    forall j | 1 <= j < p
      ensures j != skip && j <= nscan ==> Scanned(o, src2, g, nw2, j)
      ensures j != skip && j > nscan ==> Finished(o, src2, g, nw2, j)
    {
      DoneGrows(fwd, g, o.car[src[j]], nw.car[j]);
      DoneGrows(fwd, g, o.cdr[src[j]], nw.cdr[j]);
    }
    forall j | p <= j < |src2| ensures kind[src2[j]] != TAG_PAIR && Raw(o, src2, nw2, j) {
    }
  }

  lemma SkipLeaves(o: Heap, kind: Kinds, src: seq<nat>, fwd: map<nat, nat>, nw: Heap, nw2: Heap, p: nat, nscan: nat, skip: nat)
    requires LeafPhase(o, kind, src, fwd, nw, p, nscan, skip) && skip < p
    requires |nw2.car| == |nw2.cdr| == |nw.car|
    requires forall j :: 0 <= j < |nw.car| && j != skip ==> nw2.car[j] == nw.car[j] && nw2.cdr[j] == nw.cdr[j]
    ensures LeafPhase(o, kind, src, fwd, nw2, p, nscan, skip)
  {
  }

  // ----- Reachability -----

  datatype Option<+T> = None | Some(value: T)

  /** Follow car (false) and cdr (true) from word w through live pairs. */
  ghost function Follow(h: Heap, kind: Kinds, w: nat, path: seq<bool>): Option<nat>
    requires |h.car| == |h.cdr| && forall i :: i in kind ==> i < |h.car|
    decreases path
  {
    if path == [] then Some(w)
    else if w != 0 && Index(w) in kind && kind[Index(w)] == TAG_PAIR then
      Follow(h, kind, if path[0] then h.cdr[Index(w)] else h.car[Index(w)], path[1..])
    else None
  }

  ghost predicate Lands(h: Heap, kind: Kinds, w: nat, path: seq<bool>, i: nat)
    requires |h.car| == |h.cdr| && forall i :: i in kind ==> i < |h.car|
  {
    var r := Follow(h, kind, w, path);
    r.Some? && r.value != 0 && Index(r.value) == i
  }

  ghost predicate Reached(h: Heap, kind: Kinds, roots: seq<nat>, i: nat)
    requires |h.car| == |h.cdr| && forall i :: i in kind ==> i < |h.car|
  {
    exists k, p :: 0 <= k < |roots| && Lands(h, kind, roots[k], p, i)
  }

  ghost predicate AllReached(h: Heap, kind: Kinds, roots: seq<nat>, src: seq<nat>)
    requires |h.car| == |h.cdr| && forall i :: i in kind ==> i < |h.car|
  {
    forall j :: 1 <= j < |src| ==> Reached(h, kind, roots, src[j])
  }

  lemma {:induction false} FollowOneMore(h: Heap, kind: Kinds, w: nat, p: seq<bool>, b: bool, i: nat)
    requires |h.car| == |h.cdr| && forall i :: i in kind ==> i < |h.car|
    requires Lands(h, kind, w, p, i) && i in kind && kind[i] == TAG_PAIR
    ensures Follow(h, kind, w, p + [b]) == Some(if b then h.cdr[i] else h.car[i])
    decreases p
  {
    if p == [] {
    } else {
      assert (p + [b])[1..] == p[1..] + [b];
      FollowOneMore(h, kind, if p[0] then h.cdr[Index(w)] else h.car[Index(w)], p[1..], b, i);
    }
  }

  /** A reached pair's children are reached. */
  lemma ReachChild(h: Heap, kind: Kinds, roots: seq<nat>, i: nat, b: bool)
    requires |h.car| == |h.cdr| && forall i :: i in kind ==> i < |h.car|
    requires Reached(h, kind, roots, i) && i in kind && kind[i] == TAG_PAIR
    ensures var w := if b then h.cdr[i] else h.car[i]; w != 0 ==> Reached(h, kind, roots, Index(w))
  {
    var k, p :| 0 <= k < |roots| && Lands(h, kind, roots[k], p, i);
    FollowOneMore(h, kind, roots[k], p, b, i);
    var w := if b then h.cdr[i] else h.car[i];
    if w != 0 {
      assert Lands(h, kind, roots[k], p + [b], Index(w));
    }
  }

  lemma ReachRoot(h: Heap, kind: Kinds, roots: seq<nat>, k: nat)
    requires |h.car| == |h.cdr| && forall i :: i in kind ==> i < |h.car|
    requires k < |roots| && roots[k] != 0
    ensures Reached(h, kind, roots, Index(roots[k]))
  {
    assert Lands(h, kind, roots[k], [], Index(roots[k]));
  }

  lemma ReachedCell(h: Heap, kind: Kinds, roots: seq<nat>, src: seq<nat>, j: nat)
    requires |h.car| == |h.cdr| && forall i :: i in kind ==> i < |h.car|
    requires AllReached(h, kind, roots, src) && 1 <= j < |src|
    ensures Reached(h, kind, roots, src[j])
  {
  }

  // ----- What garbage establishes -----

  /** Heap h with roots nroots is heap o seen through fwd: exactly the cells reached from roots
      occupy cells 1..mfree-1 of h, pairs have their references translated, leaves their raw words. */
  ghost predicate Isomorphic(o: Heap, kind: Kinds, roots: seq<nat>, h: Heap, mfree: nat, nroots: seq<nat>,
                             src: seq<nat>, fwd: map<nat, nat>)
  {
    && Inverse(src, fwd) && |src| == mfree && fwd.Keys <= kind.Keys && Sized(o, kind, src, h)
    && (forall i :: i in kind ==> i < |o.car|)
    && |roots| == |nroots| && (forall k :: 0 <= k < |roots| ==> Done(fwd, roots[k], nroots[k]))
    && (forall j :: 1 <= j < mfree ==> if kind[src[j]] == TAG_PAIR then Finished(o, src, fwd, h, j) else Raw(o, src, h, j))
    && AllReached(o, kind, roots, src)
  }

  ghost function NewKind(kind: Kinds, src: seq<nat>, fwd: map<nat, nat>): Kinds
    requires Inverse(src, fwd) && fwd.Keys <= kind.Keys
  {
    map j | 1 <= j < |src| :: kind[src[j]]
  }

  function MoveResult(fwd: map<nat, nat>, r: Option<nat>): Option<nat> {
    if r.Some? && r.value != 0 && Index(r.value) in fwd then Some(Tag(r.value) + fwd[Index(r.value)]) else r
  }

  /** A moved word names the moved cell, with its tag. */
  lemma MovedWord(kind: Kinds, src: seq<nat>, fwd: map<nat, nat>, w: nat)
    requires Inverse(src, fwd) && fwd.Keys <= kind.Keys && |src| <= INDEXES
    requires forall i :: i in kind ==> IsTag(kind[i])
    requires IsRef(kind, w) && w != 0 && Index(w) in fwd
    ensures Move(fwd, w) != 0 && Index(Move(fwd, w)) == fwd[Index(w)] && Tag(Move(fwd, w)) == Tag(w)
    ensures IsRef(NewKind(kind, src, fwd), Move(fwd, w)) && NewKind(kind, src, fwd)[fwd[Index(w)]] == kind[Index(w)]
  {
    WordParts(kind[Index(w)], fwd[Index(w)]);
  }

  /** The collected heap is again one that garbage accepts. */
  lemma IsomorphicClosed(o: Heap, kind: Kinds, m: nat, roots: seq<nat>, h: Heap, mfree: nat, nroots: seq<nat>,
                         src: seq<nat>, fwd: map<nat, nat>)
    requires Closed(o, kind, m) && Isomorphic(o, kind, roots, h, mfree, nroots, src, fwd) && |h.car| < INDEXES
    requires forall k :: 0 <= k < |roots| ==> IsRef(kind, roots[k])
    ensures Closed(h, NewKind(kind, src, fwd), mfree)
    ensures forall k :: 0 <= k < |nroots| ==> IsRef(NewKind(kind, src, fwd), nroots[k])
  {
    var nk := NewKind(kind, src, fwd);
    forall j | j in nk
      ensures IsTag(nk[j]) && nk[j] == TAG_PAIR ==> IsRef(nk, h.car[j]) && IsRef(nk, h.cdr[j])
      ensures nk[j] != TAG_PAIR ==> h.car[j] != TAG_MARK
    {
      if nk[j] == TAG_PAIR {
        assert Finished(o, src, fwd, h, j);
        if o.car[src[j]] != 0 { MovedWord(kind, src, fwd, o.car[src[j]]); }
        if o.cdr[src[j]] != 0 { MovedWord(kind, src, fwd, o.cdr[src[j]]); }
      } else {
        assert Raw(o, src, h, j);
      }
    }
    forall k | 0 <= k < |nroots| ensures IsRef(nk, nroots[k]) {
      assert Done(fwd, roots[k], nroots[k]);
      if roots[k] != 0 { MovedWord(kind, src, fwd, roots[k]); }
    }
  }

  /** Every access path gives the same answer in both heaps, up to renaming: same tags, same
      sharing, same cycles, and the same raw words in every leaf it ends at. */
  lemma {:induction false} SamePaths(o: Heap, kind: Kinds, m: nat, roots: seq<nat>, h: Heap, mfree: nat, nroots: seq<nat>,
                                     src: seq<nat>, fwd: map<nat, nat>, w: nat, path: seq<bool>)
    requires Closed(o, kind, m) && Isomorphic(o, kind, roots, h, mfree, nroots, src, fwd) && mfree <= INDEXES
    requires IsRef(kind, w) && (w != 0 ==> Index(w) in fwd)
    ensures var r := Follow(o, kind, w, path);
            && Follow(h, NewKind(kind, src, fwd), Move(fwd, w), path) == MoveResult(fwd, r)
            && (r.Some? && r.value != 0 ==> Index(r.value) in fwd && IsRef(kind, r.value))
            && (r.Some? && r.value != 0 && kind[Index(r.value)] != TAG_PAIR ==>
                  Raw(o, src, h, fwd[Index(r.value)]))
    decreases path
  {
    hide Closed, Isomorphic, Inverse, NewKind;
    IsoFacts(o, kind, m, roots, h, mfree, nroots, src, fwd);
    if w != 0 {
      MovedWord(kind, src, fwd, w);
      IsoCell(o, kind, m, roots, h, mfree, nroots, src, fwd, Index(w));
      if kind[Index(w)] == TAG_PAIR && path != [] {
        SamePaths(o, kind, m, roots, h, mfree, nroots, src, fwd, if path[0] then o.cdr[Index(w)] else o.car[Index(w)], path[1..]);
      }
    }
  }

  lemma IsoFacts(o: Heap, kind: Kinds, m: nat, roots: seq<nat>, h: Heap, mfree: nat, nroots: seq<nat>,
                 src: seq<nat>, fwd: map<nat, nat>)
    requires Closed(o, kind, m) && Isomorphic(o, kind, roots, h, mfree, nroots, src, fwd)
    ensures Inverse(src, fwd) && |src| == mfree && fwd.Keys <= kind.Keys && Sized(o, kind, src, h)
    ensures forall i :: i in kind ==> IsTag(kind[i]) && i < |o.car|
    ensures forall j :: j in NewKind(kind, src, fwd) ==> j < |h.car|
  {
  }

  lemma IsoCell(o: Heap, kind: Kinds, m: nat, roots: seq<nat>, h: Heap, mfree: nat, nroots: seq<nat>,
                src: seq<nat>, fwd: map<nat, nat>, i: nat)
    requires Closed(o, kind, m) && Isomorphic(o, kind, roots, h, mfree, nroots, src, fwd) && i in fwd
    ensures 1 <= fwd[i] < |src| && src[fwd[i]] == i && fwd[i] < |h.car| == |h.cdr| && i < |o.car| == |o.cdr|
    ensures kind[i] == TAG_PAIR ==> Done(fwd, o.car[i], h.car[fwd[i]]) && Done(fwd, o.cdr[i], h.cdr[fwd[i]])
    ensures kind[i] == TAG_PAIR ==> IsRef(kind, o.car[i]) && IsRef(kind, o.cdr[i])
    ensures kind[i] != TAG_PAIR ==> Raw(o, src, h, fwd[i])
  {
    var j := fwd[i];
    assert if kind[src[j]] == TAG_PAIR then Finished(o, src, fwd, h, j) else Raw(o, src, h, j);
  }

  /** The cells kept are exactly the cells reached from the roots. */
  lemma KeepsExactlyReached(o: Heap, kind: Kinds, m: nat, roots: seq<nat>, h: Heap, mfree: nat, nroots: seq<nat>,
                            src: seq<nat>, fwd: map<nat, nat>, i: nat)
    requires Closed(o, kind, m) && Isomorphic(o, kind, roots, h, mfree, nroots, src, fwd) && mfree <= INDEXES
    requires forall k :: 0 <= k < |roots| ==> IsRef(kind, roots[k])
    ensures i in fwd <==> Reached(o, kind, roots, i)
  {
    if i in fwd {
      ReachedCell(o, kind, roots, src, fwd[i]);
    }
    if Reached(o, kind, roots, i) {
      var k, p :| 0 <= k < |roots| && Lands(o, kind, roots[k], p, i);
      assert Done(fwd, roots[k], nroots[k]);
      SamePaths(o, kind, m, roots, h, mfree, nroots, src, fwd, roots[k], p);
    }
  }

  // ----- The collector -----

  class Memory {
    const max: nat
    const cars1: array<nat>
    const cars2: array<nat>
    const cdrs1: array<nat>
    const cdrs2: array<nat>
    const stack: array<nat>
    var cars: array<nat>
    var cdrs: array<nat>
    var ncars: array<nat>
    var ncdrs: array<nat>
    var mfree: nat
    var nfree: nat
    var sfree: nat
    var symbols: nat
    var globalEnv: nat

    ghost var src: seq<nat>
    ghost var fwd: map<nat, nat>

    /** The globals as main finds them, before it makes the global environment. */
    constructor (max: nat)
      requires 1 <= max < INDEXES
      ensures Shape() && this.max == max && mfree == 1 && sfree == 0 && symbols == 0 && globalEnv == 0
      ensures cars[0] == 0 && cdrs[0] == 0
      ensures fresh(cars1) && fresh(cars2) && fresh(cdrs1) && fresh(cdrs2) && fresh(stack)
    {
      var x1, x2, y1, y2 := new nat[max](_ => 0), new nat[max](_ => 0), new nat[max](_ => 0), new nat[max](_ => 0);
      this.max, stack := max, new nat[max](_ => 0);
      cars1, cars2, cdrs1, cdrs2 := x1, x2, y1, y2;
      cars, ncars, cdrs, ncdrs := x1, x2, y1, y2;
      mfree, nfree, sfree, symbols, globalEnv := 1, 1, 0, 0, 0;
      src, fwd := [0], map[];
    }

    /** Five distinct arrays of MAX words; cars and cdrs each name one of their two heaps. */
    ghost predicate Shape()
      reads this
    {
      && 1 <= max < INDEXES
      && cars1.Length == cars2.Length == cdrs1.Length == cdrs2.Length == stack.Length == max
      && cars1 != cars2 && cars1 != cdrs1 && cars1 != cdrs2 && cars2 != cdrs1 && cars2 != cdrs2 && cdrs1 != cdrs2
      && stack != cars1 && stack != cars2 && stack != cdrs1 && stack != cdrs2
      && (cars == cars1 || cars == cars2) && (cdrs == cdrs1 || cdrs == cdrs2)
      && 1 <= mfree <= max && sfree <= max
    }

    /** Once the free heaps are chosen. */
    ghost predicate Split()
      reads this
    {
      && Shape() && 1 <= nfree <= max
      && ncars == (if cars == cars1 then cars2 else cars1)
      && ncdrs == (if cdrs == cdrs1 then cdrs2 else cdrs1)
    }

    ghost function Old(): Heap
      reads this, cars, cdrs
    {
      Heap(cars[..], cdrs[..])
    }

    ghost predicate Copying(o: Heap, kind: Kinds)
      reads this, cars, cdrs
    {
      && Split() && Closed(o, kind, mfree) && |o.car| == max
      && |src| == nfree && Inverse(src, fwd) && Forwarded(o, Old(), kind, fwd)
    }

    /** copy(x) for a live, non-nil word. */
    method Copy(x: nat, ghost o: Heap, ghost kind: Kinds) returns (r: nat)
      requires Copying(o, kind) && x != 0 && IsRef(kind, x)
      modifies this`nfree, this`src, this`fwd, cars, cdrs, ncars, ncdrs
      ensures Copying(o, kind) && Index(x) in fwd && r == Move(fwd, x)
      ensures Index(x) < |old(Old()).car| == |old(Old()).cdr| && r == Copied(old(Old()), x, old(nfree))
      ensures Index(x) in old(fwd) ==> nfree == old(nfree) && src == old(src) && fwd == old(fwd)
      ensures Index(x) in old(fwd) ==> ncars[..] == old(ncars[..]) && ncdrs[..] == old(ncdrs[..])
      ensures Index(x) !in old(fwd) ==>
        && nfree == old(nfree) + 1 && src == old(src) + [Index(x)] && fwd == old(fwd)[Index(x) := old(nfree)]
        && ncars[..] == old(ncars[..])[old(nfree) := o.car[Index(x)]]
        && ncdrs[..] == old(ncdrs[..])[old(nfree) := o.cdr[Index(x)]]
    {
      hide Closed, Forwarded, Inverse;
      var i := x % INDEXES;
      ghost var cur := Old();
      MarkTells(o, cur, kind, mfree, src, fwd, i);
      if cars[i] == TAG_MARK {
        return cdrs[i];
      }
      RoomForOne(o, kind, mfree, src, fwd, i);
      ForwardOne(o, cur, kind, src, fwd, i);
      var np := Tag(x) + nfree;
      WordParts(Tag(x), nfree);
      nfree := nfree + 1;
      ncars[np % INDEXES] := cars[i];
      ncdrs[np % INDEXES] := cdrs[i];
      cars[i] := TAG_MARK;
      cdrs[i] := np;
      src := src + [i];
      fwd := fwd[i := nfree - 1];
      assert Old() == Heap(cur.car[i := TAG_MARK], cur.cdr[i := np]);
      r := np;
    }

    ghost predicate RootsRef(roots: seq<nat>, kind: Kinds) {
      forall k :: 0 <= k < |roots| ==> IsRef(kind, roots[k])
    }

    /** Everything known between two copies; `roots` are the stack words at the start. */
    ghost predicate Collecting(o: Heap, kind: Kinds, roots: seq<nat>)
      reads this, cars, cdrs
    {
      Copying(o, kind) && |roots| == sfree && RootsRef(roots, kind) && AllReached(o, kind, roots, src)
    }

    ghost function New(): Heap
      reads this, ncars, ncdrs
    {
      Heap(ncars[..], ncdrs[..])
    }

    /** copy(x) of a reached pair during the pair phase. */
    method CopyPair(x: nat, ghost o: Heap, ghost kind: Kinds, ghost roots: seq<nat>, ghost nscan: nat, ghost skip: nat)
      returns (r: nat)
      requires Collecting(o, kind, roots) && PairPhase(o, kind, src, fwd, New(), nscan, skip)
      requires skip < nfree && nscan <= nfree
      requires Pairq(x) && IsRef(kind, x) && Reached(o, kind, roots, Index(x))
      modifies this`nfree, this`src, this`fwd, cars, cdrs, ncars, ncdrs
      ensures Collecting(o, kind, roots) && PairPhase(o, kind, src, fwd, New(), nscan, skip)
      ensures PairDone(fwd, x, r) && Extends(old(fwd), fwd) && old(src) <= src && old(nfree) <= nfree
      ensures forall j :: 0 <= j < old(nfree) ==> ncars[j] == old(ncars[j]) && ncdrs[j] == old(ncdrs[j])
    {
      hide Closed, Forwarded, Inverse, Reached;
      ghost var nw0, src0, fwd0 := New(), src, fwd;
      PairKind(o, kind, mfree, x);
      r := Copy(x, o, kind);
      if Index(x) !in fwd0 {
        GrowPairs(o, kind, src0, fwd0, nw0, nscan, skip, Index(x));
        assert New() == Heap(nw0.car[|src0| := o.car[Index(x)]], nw0.cdr[|src0| := o.cdr[Index(x)]]);
      }
    }

    /** First loop of garbage: stack words that are pairs. */
    method CopyPairRoots(ghost o: Heap, ghost kind: Kinds, ghost roots: seq<nat>)
      requires Collecting(o, kind, roots) && stack[..sfree] == roots && nfree == 1
      modifies this`nfree, this`src, this`fwd, cars, cdrs, ncars, ncdrs, stack
      ensures Collecting(o, kind, roots) && PairPhase(o, kind, src, fwd, New(), 1, 0)
      ensures forall k :: 0 <= k < sfree ==> PairDone(fwd, roots[k], stack[k])
      ensures ncars[0] == old(ncars[0]) && ncdrs[0] == old(ncdrs[0])
    {
      hide Closed, Forwarded, Inverse, Reached, AllReached;
      KindBound(o, kind, mfree);
      var i := 0;
      while i < sfree
        invariant ncars[0] == old(ncars[0]) && ncdrs[0] == old(ncdrs[0])
        invariant i <= sfree && Collecting(o, kind, roots) && PairPhase(o, kind, src, fwd, New(), 1, 0)
        invariant forall k :: 0 <= k < i ==> PairDone(fwd, roots[k], stack[k])
        invariant forall k :: i <= k < sfree ==> stack[k] == roots[k]
      {
        var x := stack[i];
        ghost var f := fwd;
        if Pairq(x) {
          KindBound(o, kind, mfree);
          ReachRoot(o, kind, roots, i);
          var y := CopyPair(x, o, kind, roots, 1, 0);
          stack[i] := y;
        }
        forall k | 0 <= k < i ensures PairDone(fwd, roots[k], stack[k]) {
          DoneGrows(f, fwd, roots[k], stack[k]);
        }
        i := i + 1;
      }
    }

    /** Second loop: scan pair cells upwards. */
    method ScanPairs(ghost o: Heap, ghost kind: Kinds, ghost roots: seq<nat>) returns (nscan: nat)
      requires Collecting(o, kind, roots) && PairPhase(o, kind, src, fwd, New(), 1, 0)
      modifies this`nfree, this`src, this`fwd, cars, cdrs, ncars, ncdrs
      ensures Collecting(o, kind, roots) && PairPhase(o, kind, src, fwd, New(), nfree, 0) && nscan == nfree
      ensures Extends(old(fwd), fwd)
      ensures ncars[0] == old(ncars[0]) && ncdrs[0] == old(ncdrs[0])
    {
      hide Closed, Forwarded, Inverse, Reached, AllReached;
      nscan := 1;
      CopiedBound(o, Old(), kind, mfree, src, fwd);
      while nscan < nfree
        invariant ncars[0] == old(ncars[0]) && ncdrs[0] == old(ncdrs[0])
        invariant 1 <= nscan <= nfree <= mfree
        invariant Collecting(o, kind, roots) && PairPhase(o, kind, src, fwd, New(), nscan, 0)
        invariant Extends(old(fwd), fwd)
        decreases mfree - nscan
      {
        ScanPair(nscan, o, kind, roots);
        CopiedBound(o, Old(), kind, mfree, src, fwd);
        nscan := nscan + 1;
      }
    }

    /** One round of it: the car, then the cdr. */
    method ScanPair(nscan: nat, ghost o: Heap, ghost kind: Kinds, ghost roots: seq<nat>)
      requires Collecting(o, kind, roots) && PairPhase(o, kind, src, fwd, New(), nscan, 0) && 1 <= nscan < nfree
      modifies this`nfree, this`src, this`fwd, cars, cdrs, ncars, ncdrs
      ensures Collecting(o, kind, roots) && PairPhase(o, kind, src, fwd, New(), nscan + 1, 0) && nscan < nfree
      ensures Extends(old(fwd), fwd)
      ensures ncars[0] == old(ncars[0]) && ncdrs[0] == old(ncdrs[0])
    {
      hide Closed, Forwarded, Inverse, AllReached, Reached;
      ghost var i := src[nscan];
      assert Raw(o, src, New(), nscan);
      ScanCar(nscan, o, kind, roots);
      ghost var f, y := fwd, ncars[nscan];
      ScanCdr(nscan, o, kind, roots);
      DoneGrows(f, fwd, o.car[i], y);
      assert Scanned(o, src, fwd, New(), nscan);
    }

    method ScanCar(nscan: nat, ghost o: Heap, ghost kind: Kinds, ghost roots: seq<nat>)
      requires Collecting(o, kind, roots) && PairPhase(o, kind, src, fwd, New(), nscan, nscan) && 1 <= nscan < nfree
      requires Raw(o, src, New(), nscan)
      modifies this`nfree, this`src, this`fwd, cars, cdrs, ncars, ncdrs
      ensures Collecting(o, kind, roots) && PairPhase(o, kind, src, fwd, New(), nscan, nscan)
      ensures nscan < nfree && src[nscan] == old(src[nscan]) && Extends(old(fwd), fwd)
      ensures PairDone(fwd, o.car[src[nscan]], ncars[nscan]) && ncdrs[nscan] == o.cdr[src[nscan]]
      ensures ncars[0] == old(ncars[0]) && ncdrs[0] == old(ncdrs[0])
    {
      hide Closed, Forwarded, Inverse, AllReached, Reached;
      var xcar := ncars[nscan];
      if Pairq(xcar) {
        ChildRefs(o, kind, mfree, src[nscan]);
        KindBound(o, kind, mfree);
        ReachedCell(o, kind, roots, src, nscan);
        ReachChild(o, kind, roots, src[nscan], false);
        var y := CopyPair(xcar, o, kind, roots, nscan, nscan);
        ghost var nw := New();
        ncars[nscan] := y;
        SkipPairs(o, kind, src, fwd, nw, New(), nscan, nscan);
      }
    }

    method ScanCdr(nscan: nat, ghost o: Heap, ghost kind: Kinds, ghost roots: seq<nat>)
      requires Collecting(o, kind, roots) && PairPhase(o, kind, src, fwd, New(), nscan, nscan) && 1 <= nscan < nfree
      requires ncdrs[nscan] == o.cdr[src[nscan]]
      modifies this`nfree, this`src, this`fwd, cars, cdrs, ncars, ncdrs
      ensures Collecting(o, kind, roots) && PairPhase(o, kind, src, fwd, New(), nscan, nscan)
      ensures nscan < nfree && src[nscan] == old(src[nscan]) && Extends(old(fwd), fwd)
      ensures PairDone(fwd, o.cdr[src[nscan]], ncdrs[nscan]) && ncars[nscan] == old(ncars[nscan])
      ensures ncars[0] == old(ncars[0]) && ncdrs[0] == old(ncdrs[0])
    {
      hide Closed, Forwarded, Inverse, AllReached, Reached;
      var xcdr := ncdrs[nscan];
      if Pairq(xcdr) {
        ChildRefs(o, kind, mfree, src[nscan]);
        KindBound(o, kind, mfree);
        ReachedCell(o, kind, roots, src, nscan);
        ReachChild(o, kind, roots, src[nscan], true);
        var y := CopyPair(xcdr, o, kind, roots, nscan, nscan);
        ghost var nw := New();
        ncdrs[nscan] := y;
        SkipPairs(o, kind, src, fwd, nw, New(), nscan, nscan);
      }
    }

    /** copy(x) of a reached leaf during the leaf phase. */
    method CopyLeaf(x: nat, ghost o: Heap, ghost kind: Kinds, ghost roots: seq<nat>, ghost p: nat, ghost nscan: nat, ghost skip: nat)
      returns (r: nat)
      requires Collecting(o, kind, roots) && LeafPhase(o, kind, src, fwd, New(), p, nscan, skip)
      requires x != 0 && !Pairq(x) && IsRef(kind, x) && Reached(o, kind, roots, Index(x))
      modifies this`nfree, this`src, this`fwd, cars, cdrs, ncars, ncdrs
      ensures Collecting(o, kind, roots) && LeafPhase(o, kind, src, fwd, New(), p, nscan, skip)
      ensures Done(fwd, x, r) && Extends(old(fwd), fwd) && old(src) <= src && old(nfree) <= nfree
      ensures forall j :: 0 <= j < old(nfree) ==> ncars[j] == old(ncars[j]) && ncdrs[j] == old(ncdrs[j])
    {
      hide Closed, Forwarded, Inverse, Reached;
      ghost var nw0, src0, fwd0 := New(), src, fwd;
      PairKind(o, kind, mfree, x);
      r := Copy(x, o, kind);
      if Index(x) !in fwd0 {
        GrowLeaves(o, kind, src0, fwd0, nw0, p, nscan, skip, Index(x));
        assert New() == Heap(nw0.car[|src0| := o.car[Index(x)]], nw0.cdr[|src0| := o.cdr[Index(x)]]);
      }
    }

    /** Third loop: scan the pair cells downwards for leaves. */
    method ScanLeaves(top: nat, ghost o: Heap, ghost kind: Kinds, ghost roots: seq<nat>)
      requires Collecting(o, kind, roots) && PairPhase(o, kind, src, fwd, New(), nfree, 0) && top == nfree
      modifies this`nfree, this`src, this`fwd, cars, cdrs, ncars, ncdrs
      ensures Collecting(o, kind, roots) && LeafPhase(o, kind, src, fwd, New(), top, 0, 0)
      ensures Extends(old(fwd), fwd)
      ensures ncars[0] == old(ncars[0]) && ncdrs[0] == old(ncdrs[0])
    {
      hide Closed, Forwarded, Inverse, Reached, AllReached;
      var nscan := top - 1;
      while nscan > 0
        invariant ncars[0] == old(ncars[0]) && ncdrs[0] == old(ncdrs[0])
        invariant 0 <= nscan < top
        invariant Collecting(o, kind, roots) && LeafPhase(o, kind, src, fwd, New(), top, nscan, 0)
        invariant Extends(old(fwd), fwd)
      {
        LeafCell(nscan, o, kind, roots, top);
        nscan := nscan - 1;
      }
    }

    /** One round of it: the car, then the cdr. */
    method LeafCell(nscan: nat, ghost o: Heap, ghost kind: Kinds, ghost roots: seq<nat>, ghost p: nat)
      requires Collecting(o, kind, roots) && LeafPhase(o, kind, src, fwd, New(), p, nscan, 0) && 1 <= nscan < p
      modifies this`nfree, this`src, this`fwd, cars, cdrs, ncars, ncdrs
      ensures Collecting(o, kind, roots) && LeafPhase(o, kind, src, fwd, New(), p, nscan - 1, 0)
      ensures Extends(old(fwd), fwd)
      ensures ncars[0] == old(ncars[0]) && ncdrs[0] == old(ncdrs[0])
    {
      hide Closed, Forwarded, Inverse, AllReached, Reached;
      ghost var i := src[nscan];
      assert Scanned(o, src, fwd, New(), nscan);
      LeafCar(nscan, o, kind, roots, p);
      ghost var f, y := fwd, ncars[nscan];
      LeafCdr(nscan, o, kind, roots, p);
      DoneGrows(f, fwd, o.car[i], y);
      assert Finished(o, src, fwd, New(), nscan);
    }

    method LeafCar(nscan: nat, ghost o: Heap, ghost kind: Kinds, ghost roots: seq<nat>, ghost p: nat)
      requires Collecting(o, kind, roots) && LeafPhase(o, kind, src, fwd, New(), p, nscan, nscan) && 1 <= nscan < p
      requires Scanned(o, src, fwd, New(), nscan)
      modifies this`nfree, this`src, this`fwd, cars, cdrs, ncars, ncdrs
      ensures Collecting(o, kind, roots) && LeafPhase(o, kind, src, fwd, New(), p, nscan, nscan)
      ensures src[nscan] == old(src[nscan]) && Extends(old(fwd), fwd)
      ensures Done(fwd, o.car[src[nscan]], ncars[nscan]) && PairDone(fwd, o.cdr[src[nscan]], ncdrs[nscan])
      ensures ncars[0] == old(ncars[0]) && ncdrs[0] == old(ncdrs[0])
    {
      hide Closed, Forwarded, Inverse, AllReached, Reached;
      var xcar := ncars[nscan];
      KindBound(o, kind, mfree);
      ChildRefs(o, kind, mfree, src[nscan]);
      HalfWord(o, kind, mfree, src, fwd, o.car[src[nscan]]);
      if xcar != 0 && !Pairq(xcar) {
        ReachedCell(o, kind, roots, src, nscan);
        ReachChild(o, kind, roots, src[nscan], false);
        ghost var f := fwd;
        var y := CopyLeaf(xcar, o, kind, roots, p, nscan, nscan);
        ghost var nw := New();
        ncars[nscan] := y;
        SkipLeaves(o, kind, src, fwd, nw, New(), p, nscan, nscan);
        DoneGrows(f, fwd, o.cdr[src[nscan]], ncdrs[nscan]);
      }
    }

    method LeafCdr(nscan: nat, ghost o: Heap, ghost kind: Kinds, ghost roots: seq<nat>, ghost p: nat)
      requires Collecting(o, kind, roots) && LeafPhase(o, kind, src, fwd, New(), p, nscan, nscan) && 1 <= nscan < p
      requires PairDone(fwd, o.cdr[src[nscan]], ncdrs[nscan])
      modifies this`nfree, this`src, this`fwd, cars, cdrs, ncars, ncdrs
      ensures Collecting(o, kind, roots) && LeafPhase(o, kind, src, fwd, New(), p, nscan, nscan)
      ensures src[nscan] == old(src[nscan]) && Extends(old(fwd), fwd)
      ensures Done(fwd, o.cdr[src[nscan]], ncdrs[nscan]) && ncars[nscan] == old(ncars[nscan])
      ensures ncars[0] == old(ncars[0]) && ncdrs[0] == old(ncdrs[0])
    {
      hide Closed, Forwarded, Inverse, AllReached, Reached;
      var xcdr := ncdrs[nscan];
      KindBound(o, kind, mfree);
      ChildRefs(o, kind, mfree, src[nscan]);
      HalfWord(o, kind, mfree, src, fwd, o.cdr[src[nscan]]);
      if xcdr != 0 && !Pairq(xcdr) {
        ReachedCell(o, kind, roots, src, nscan);
        ReachChild(o, kind, roots, src[nscan], true);
        var y := CopyLeaf(xcdr, o, kind, roots, p, nscan, nscan);
        ghost var nw := New();
        ncdrs[nscan] := y;
        SkipLeaves(o, kind, src, fwd, nw, New(), p, nscan, nscan);
      }
    }

    /** Last loop: stack words that are leaves. */
    method CopyLeafRoots(ghost o: Heap, ghost kind: Kinds, ghost roots: seq<nat>, ghost p: nat)
      requires Collecting(o, kind, roots) && LeafPhase(o, kind, src, fwd, New(), p, 0, 0)
      requires forall k :: 0 <= k < sfree ==> PairDone(fwd, roots[k], stack[k])
      modifies this`nfree, this`src, this`fwd, cars, cdrs, ncars, ncdrs, stack
      ensures Collecting(o, kind, roots) && LeafPhase(o, kind, src, fwd, New(), p, 0, 0)
      ensures forall k :: 0 <= k < sfree ==> Done(fwd, roots[k], stack[k])
      ensures ncars[0] == old(ncars[0]) && ncdrs[0] == old(ncdrs[0])
    {
      hide Closed, Forwarded, Inverse, Reached, AllReached;
      KindBound(o, kind, mfree);
      var i := 0;
      while i < sfree
        invariant ncars[0] == old(ncars[0]) && ncdrs[0] == old(ncdrs[0])
        invariant i <= sfree && Collecting(o, kind, roots) && LeafPhase(o, kind, src, fwd, New(), p, 0, 0)
        invariant forall k :: 0 <= k < i ==> Done(fwd, roots[k], stack[k])
        invariant forall k :: i <= k < sfree ==> PairDone(fwd, roots[k], stack[k])
      {
        var x := stack[i];
        ghost var f := fwd;
        HalfWord(o, kind, mfree, src, fwd, roots[i]);
        if x != 0 && !Pairq(x) {
          ReachRoot(o, kind, roots, i);
          var y := CopyLeaf(x, o, kind, roots, p, 0, 0);
          stack[i] := y;
        }
        forall k | 0 <= k < sfree && k != i
          ensures k < i ==> Done(fwd, roots[k], stack[k])
          ensures k > i ==> PairDone(fwd, roots[k], stack[k])
        {
          DoneGrows(f, fwd, roots[k], stack[k]);
        }
        i := i + 1;
      }
    }

    /** push; false is the error exit "stackoverflow". */
    method Push(s: nat) returns (ok: bool)
      requires Shape()
      modifies this`sfree, stack
      ensures Shape() && (ok <==> old(sfree) < max)
      ensures ok ==> sfree == old(sfree) + 1 && stack[..sfree] == old(stack[..sfree]) + [s]
      ensures !ok ==> sfree == old(sfree) && stack[..] == old(stack[..])
    {
      if sfree == max {
        return false;
      }
      stack[sfree] := s;
      sfree := sfree + 1;
      ok := true;
    }

    method Pop() returns (r: nat)
      requires Shape() && sfree > 0
      modifies this`sfree
      ensures Shape() && sfree == old(sfree) - 1 && r == stack[sfree]
    {
      sfree := sfree - 1;
      r := stack[sfree];
    }

    /** Chooses the free heaps and clears them. */
    method FreshHeaps()
      requires Shape()
      modifies this`ncars, this`ncdrs, this`nfree, this`src, this`fwd, cars1, cars2, cdrs1, cdrs2
      ensures Split() && nfree == 1 && src == [0] && fwd == map[] && ncars[0] == 0 && ncdrs[0] == 0
      ensures cars[..] == old(cars[..]) && cdrs[..] == old(cdrs[..])
    {
      if cars == cars1 { ncars := cars2; } else { ncars := cars1; }
      if cdrs == cdrs1 { ncdrs := cdrs2; } else { ncdrs := cdrs1; }
      nfree := 1;
      src, fwd := [0], map[];
      ClearHeaps();
    }

    method ClearHeaps()
      requires Split()
      modifies ncars, ncdrs
      ensures forall i :: 0 <= i < max ==> ncars[i] == 0 && ncdrs[i] == 0
    {
      for i := 0 to max
        invariant forall k :: 0 <= k < i ==> ncars[k] == 0 && ncdrs[k] == 0
      {
        ncars[i] := 0;
        ncdrs[i] := 0;
      }
    }

    /** garbage.  `kind` names the live cells; false is the stack-overflow exit. */
    method Garbage(ghost kind: Kinds) returns (ok: bool)
      requires Shape() && Closed(Heap(cars[..], cdrs[..]), kind, mfree)
      requires forall k :: 0 <= k < sfree ==> IsRef(kind, stack[k])
      requires IsRef(kind, symbols) && IsRef(kind, globalEnv)
      modifies this, cars1, cars2, cdrs1, cdrs2, stack
      ensures (ok <==> old(sfree) + 2 <= max) && sfree >= old(sfree)
      ensures ok ==> Shape() && sfree == old(sfree) && mfree <= old(mfree) && cars[0] == 0 && cdrs[0] == 0
      ensures ok ==> Isomorphic(old(Heap(cars[..], cdrs[..])), kind, old(stack[..sfree] + [symbols, globalEnv]),
                                Heap(cars[..], cdrs[..]), mfree, stack[..sfree] + [symbols, globalEnv], src, fwd)
    {
      hide Closed, Isomorphic;
      ghost var o := Heap(cars[..], cdrs[..]);
      ok := SaveRoots();
      if !ok { return; }
      ghost var roots := stack[..sfree];
      RootsKept(kind, old(stack[..sfree]), symbols, globalEnv);
      FreshHeaps();
      Collect(o, kind, roots);
      cars := ncars;
      cdrs := ncdrs;
      mfree := nfree;
      RestoreRoots();
    }

    lemma RootsKept(kind: Kinds, s: seq<nat>, x: nat, y: nat)
      requires RootsRef(s, kind) && IsRef(kind, x) && IsRef(kind, y)
      ensures RootsRef(s + [x, y], kind)
    {
    }

    /** push(symbols); push(global_env). */
    method SaveRoots() returns (ok: bool)
      requires Shape()
      modifies this`sfree, stack
      ensures Shape() && (ok <==> old(sfree) + 2 <= max) && sfree >= old(sfree)
      ensures ok ==> sfree == old(sfree) + 2 && stack[..sfree] == old(stack[..sfree]) + [symbols, globalEnv]
    {
      ok := Push(symbols);
      if ok {
        ok := Push(globalEnv);
      }
    }

    /** global_env = pop(); symbols = pop(). */
    method RestoreRoots()
      requires Shape() && sfree >= 2
      modifies this`sfree, this`symbols, this`globalEnv
      ensures Shape() && sfree == old(sfree) - 2
      ensures stack[..sfree] + [symbols, globalEnv] == old(stack[..sfree])
    {
      globalEnv := Pop();
      symbols := Pop();
    }

    /** The four loops. */
    method Collect(ghost o: Heap, ghost kind: Kinds, ghost roots: seq<nat>)
      requires Split() && nfree == 1 && src == [0] && fwd == map[] && Closed(o, kind, mfree) && o == Heap(cars[..], cdrs[..])
      requires stack[..sfree] == roots && RootsRef(roots, kind)
      modifies this`nfree, this`src, this`fwd, cars, cdrs, ncars, ncdrs, stack
      ensures Split() && nfree <= mfree
      ensures Isomorphic(o, kind, roots, New(), nfree, stack[..sfree], src, fwd)
      ensures ncars[0] == old(ncars[0]) && ncdrs[0] == old(ncdrs[0])
    {
      CopyPairRoots(o, kind, roots);
      ghost var f := fwd;
      var top := ScanPairs(o, kind, roots);
      forall k | 0 <= k < sfree ensures PairDone(fwd, roots[k], stack[k]) {
        DoneGrows(f, fwd, roots[k], stack[k]);
      }
      f := fwd;
      ScanLeaves(top, o, kind, roots);
      forall k | 0 <= k < sfree ensures PairDone(fwd, roots[k], stack[k]) {
        DoneGrows(f, fwd, roots[k], stack[k]);
      }
      CopyLeafRoots(o, kind, roots, top);
      CopiedBound(o, Old(), kind, mfree, src, fwd);
    }
  }
}
