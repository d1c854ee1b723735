/** The interpreter's heap seen as a heap that is never collected: ids[i] is the permanent number of
    the cell at index i. */
module LispHeap {
  import opened Collector
  import opened LispSpec

  /** What a word stands for. */
  function Abs(ids: seq<nat>, w: nat): Val {
    if w == 0 then Nil else if Index(w) < |ids| then Ref(ids[Index(w)]) else Bad
  }

  ghost function CellOf(h: Heap, kind: Kinds, ids: seq<nat>, i: nat): Cell
    requires i in kind && i < |h.car| == |h.cdr|
  {
    if kind[i] == TAG_PAIR then Pair(Abs(ids, h.car[i]), Abs(ids, h.cdr[i])) else Leaf(kind[i], h.car[i], h.cdr[i])
  }

  ghost predicate CellOk(h: Heap, kind: Kinds, ids: seq<nat>, cells: seq<Cell>, i: nat)
    requires i in kind && i < |h.car| == |h.cdr| && i < |ids|
  {
    ids[i] < |cells| && cells[ids[i]] == CellOf(h, kind, ids, i)
  }

  /** All cells below mfree are in use, nil's cell is clear, and cell i is cell ids[i] of the heap
      that is never collected. */
  ghost predicate Agrees(h: Heap, kind: Kinds, mfree: nat, ids: seq<nat>, cells: seq<Cell>) {
    && Closed(h, kind, mfree) && |ids| == mfree && 1 <= mfree && h.car[0] == 0 && h.cdr[0] == 0
    && (forall i: nat :: i in kind <==> 1 <= i < mfree)
    && (forall i: nat :: i in kind ==> CellOk(h, kind, ids, cells, i))
    && (forall i, j :: 1 <= i < j < mfree ==> ids[i] != ids[j])
  }

  /** Later ids and kinds that leave live words alone. */
  ghost predicate Grows(kind0: Kinds, ids0: seq<nat>, kind1: Kinds, ids1: seq<nat>) {
    ids0 <= ids1 && forall i :: i in kind0 ==> i in kind1 && kind1[i] == kind0[i]
  }

  lemma GrowsLive(kind0: Kinds, ids0: seq<nat>, kind1: Kinds, ids1: seq<nat>, w: nat)
    requires Grows(kind0, ids0, kind1, ids1) && IsRef(kind0, w) && forall i :: i in kind0 ==> i < |ids0|
    ensures IsRef(kind1, w) && Abs(ids1, w) == Abs(ids0, w)
  {
  }

  ghost predicate AllLive(kind: Kinds, ws: seq<nat>) {
    forall k :: 0 <= k < |ws| ==> IsRef(kind, ws[k])
  }

  ghost function AbsAll(ids: seq<nat>, ws: seq<nat>): (r: seq<Val>)
    ensures |r| == |ws| && forall k :: 0 <= k < |ws| ==> r[k] == Abs(ids, ws[k])
  {
    seq(|ws|, k requires 0 <= k < |ws| => Abs(ids, ws[k]))
  }

  lemma GrowsAll(kind0: Kinds, ids0: seq<nat>, kind1: Kinds, ids1: seq<nat>, ws: seq<nat>)
    requires Grows(kind0, ids0, kind1, ids1) && AllLive(kind0, ws) && forall i :: i in kind0 ==> i < |ids0|
    ensures AllLive(kind1, ws) && AbsAll(ids1, ws) == AbsAll(ids0, ws)
  {
    forall k | 0 <= k < |ws| ensures IsRef(kind1, ws[k]) && Abs(ids1, ws[k]) == Abs(ids0, ws[k]) {
      GrowsLive(kind0, ids0, kind1, ids1, ws[k]);
    }
  }

  lemma AgreesBounds(h: Heap, kind: Kinds, mfree: nat, ids: seq<nat>, cells: seq<Cell>)
    requires Agrees(h, kind, mfree, ids, cells)
    ensures |ids| == mfree <= |h.car| == |h.cdr| < INDEXES && 1 <= mfree && forall i: nat :: i in kind <==> 1 <= i < mfree
    ensures Closed(h, kind, mfree)
  {
  }

  /** A live word and what it stands for. */
  lemma LiveWord(h: Heap, kind: Kinds, mfree: nat, ids: seq<nat>, cells: seq<Cell>, w: nat)
    requires Agrees(h, kind, mfree, ids, cells) && IsRef(kind, w)
    ensures w == 0 ==> h.car[0] == 0 && h.cdr[0] == 0 && Abs(ids, w) == Nil && 0 < |h.car| == |h.cdr|
    ensures w != 0 ==>
              var i := Index(w);
              && i in kind && 1 <= i < mfree == |ids| && i < |h.car| == |h.cdr| && Tag(w) == kind[i] && IsTag(kind[i])
              && Abs(ids, w) == Ref(ids[i]) && ids[i] < |cells| && cells[ids[i]] == CellOf(h, kind, ids, i)
              && (kind[i] == TAG_PAIR ==> IsRef(kind, h.car[i]) && IsRef(kind, h.cdr[i]))
              && (kind[i] != TAG_PAIR ==> h.car[i] != TAG_MARK)
              && (Pairq(w) <==> kind[i] == TAG_PAIR)
  {
    if w != 0 {
      assert CellOk(h, kind, ids, cells, Index(w));
      WordParts(kind[Index(w)], Index(w));
    }
  }

  /** Live words stand for a value that is not Bad, and equal words for equal values. */
  lemma SameValue(h: Heap, kind: Kinds, mfree: nat, ids: seq<nat>, cells: seq<Cell>, x: nat, y: nat)
    requires Agrees(h, kind, mfree, ids, cells) && IsRef(kind, x) && IsRef(kind, y)
    ensures Abs(ids, x) != Bad && (x == y <==> Abs(ids, x) == Abs(ids, y))
  {
    assert x == Tag(x) + Index(x) && y == Tag(y) + Index(y);
  }

  /** Child words are not Bad. */
  lemma ChildNotBad(h: Heap, kind: Kinds, mfree: nat, ids: seq<nat>, cells: seq<Cell>, i: nat)
    requires Agrees(h, kind, mfree, ids, cells) && i in kind && kind[i] == TAG_PAIR
    ensures i < |h.car| == |h.cdr| && Abs(ids, h.car[i]) != Bad && Abs(ids, h.cdr[i]) != Bad
  {
    assert IsRef(kind, h.car[i]) && IsRef(kind, h.cdr[i]);
  }

  lemma AbsLonger(kind: Kinds, ids: seq<nat>, more: seq<nat>, w: nat)
    requires IsRef(kind, w) && forall i :: i in kind ==> i < |ids|
    ensures Abs(ids + more, w) == Abs(ids, w)
  {
  }

  /** What a new cell with these two words stands for. */
  ghost function CellFor(ids: seq<nat>, a: nat, d: nat, tag: nat): Cell {
    if tag == TAG_PAIR then Pair(Abs(ids, a), Abs(ids, d)) else Leaf(tag, a, d)
  }

  /** A new cell. */
  lemma AgreesNew(h: Heap, kind: Kinds, mfree: nat, ids: seq<nat>, cells: seq<Cell>, a: nat, d: nat, tag: nat)
    requires Agrees(h, kind, mfree, ids, cells) && mfree < |h.car| && IsTag(tag)
    requires if tag == TAG_PAIR then IsRef(kind, a) && IsRef(kind, d) else a != TAG_MARK
    ensures Agrees(Heap(h.car[mfree := a], h.cdr[mfree := d]), kind[mfree := tag], mfree + 1, ids + [|cells|],
                   cells + [CellFor(ids, a, d, tag)])
    ensures Grows(kind, ids, kind[mfree := tag], ids + [|cells|])
    ensures IsRef(kind[mfree := tag], tag + mfree) && Abs(ids + [|cells|], tag + mfree) == Ref(|cells|)
  {
    hide CellOk, CellOf, CellFor, Closed;
    AgreesBounds(h, kind, mfree, ids, cells);
    WordParts(tag, mfree);
    var h1, k1, i1, c1 := Heap(h.car[mfree := a], h.cdr[mfree := d]), kind[mfree := tag], ids + [|cells|], cells + [CellFor(ids, a, d, tag)];
    forall i: nat | i in k1 ensures CellOk(h1, k1, i1, c1, i)
    {
      AgreesCell(h, kind, mfree, ids, cells, a, d, tag, i);
    }
    ClosedMore(h, kind, mfree, a, d, tag);
    NewDistinct(h, kind, mfree, ids, cells);
  }

  lemma AgreesCell(h: Heap, kind: Kinds, mfree: nat, ids: seq<nat>, cells: seq<Cell>, a: nat, d: nat, tag: nat, i: nat)
    requires Agrees(h, kind, mfree, ids, cells) && mfree < |h.car| && i in kind[mfree := tag]
    requires tag == TAG_PAIR ==> IsRef(kind, a) && IsRef(kind, d)
    ensures CellOk(Heap(h.car[mfree := a], h.cdr[mfree := d]), kind[mfree := tag], ids + [|cells|], cells + [CellFor(ids, a, d, tag)], i)
  {
    if i == mfree {
      if tag == TAG_PAIR {
        AbsLonger(kind, ids, [|cells|], a);
        AbsLonger(kind, ids, [|cells|], d);
      }
    } else {
      OldCell(h, kind, mfree, ids, cells, [|cells|], i);
    }
  }

  lemma NewDistinct(h: Heap, kind: Kinds, mfree: nat, ids: seq<nat>, cells: seq<Cell>)
    requires Agrees(h, kind, mfree, ids, cells)
    ensures forall i, j :: 1 <= i < j < mfree + 1 ==> (ids + [|cells|])[i] != (ids + [|cells|])[j]
  {
    forall i: nat | 1 <= i < mfree ensures ids[i] < |cells| {
      assert i in kind && CellOk(h, kind, ids, cells, i);
    }
  }

  lemma OldCell(h: Heap, kind: Kinds, mfree: nat, ids: seq<nat>, cells: seq<Cell>, more: seq<nat>, i: nat)
    requires Agrees(h, kind, mfree, ids, cells)
    ensures i in kind ==> i < |h.car| == |h.cdr| && CellOk(h, kind, ids, cells, i) && CellOf(h, kind, ids + more, i) == CellOf(h, kind, ids, i)
  {
    if i in kind {
      assert CellOk(h, kind, ids, cells, i);
      if kind[i] == TAG_PAIR {
        AbsLonger(kind, ids, more, h.car[i]);
        AbsLonger(kind, ids, more, h.cdr[i]);
      }
    }
  }

  lemma ClosedMore(h: Heap, kind: Kinds, mfree: nat, a: nat, d: nat, tag: nat)
    requires Closed(h, kind, mfree) && IsTag(tag) && 1 <= mfree < |h.car| && forall i :: i in kind ==> i < mfree
    requires if tag == TAG_PAIR then IsRef(kind, a) && IsRef(kind, d) else a != TAG_MARK
    ensures Closed(Heap(h.car[mfree := a], h.cdr[mfree := d]), kind[mfree := tag], mfree + 1)
  {
  }

  /** setcar and setcdr of a pair. */
  lemma AgreesSet(h: Heap, kind: Kinds, mfree: nat, ids: seq<nat>, cells: seq<Cell>, i: nat, a: nat, d: nat)
    requires Agrees(h, kind, mfree, ids, cells) && i in kind && kind[i] == TAG_PAIR && i < |h.car| == |h.cdr| && i < |ids| && ids[i] < |cells|
    requires IsRef(kind, a) && IsRef(kind, d)
    ensures Agrees(Heap(h.car[i := a], h.cdr[i := d]), kind, mfree, ids, cells[ids[i] := Pair(Abs(ids, a), Abs(ids, d))])
  {
    var h1, c1 := Heap(h.car[i := a], h.cdr[i := d]), cells[ids[i] := Pair(Abs(ids, a), Abs(ids, d))];
    forall j: nat | j in kind ensures CellOk(h1, kind, ids, c1, j) {
      assert CellOk(h, kind, ids, cells, j);
    }
  }

  // ----- Across a collection -----

  /** The stack, and the two global words saved above it. */
  lemma RootsApart(s0: seq<nat>, x0: nat, y0: nat, s1: seq<nat>, x1: nat, y1: nat, kind: Kinds, ids0: seq<nat>, ids1: seq<nat>)
    requires |s0 + [x0, y0]| == |s1 + [x1, y1]|
    requires forall k :: 0 <= k < |s0 + [x0, y0]| ==>
               IsRef(kind, (s1 + [x1, y1])[k]) && Abs(ids1, (s1 + [x1, y1])[k]) == Abs(ids0, (s0 + [x0, y0])[k])
    ensures AllLive(kind, s1) && AbsAll(ids1, s1) == AbsAll(ids0, s0) && IsRef(kind, x1) && IsRef(kind, y1)
    ensures Abs(ids1, x1) == Abs(ids0, x0) && Abs(ids1, y1) == Abs(ids0, y0)
  {
    var r0, r1 := s0 + [x0, y0], s1 + [x1, y1];
    assert r0[|s0|] == x0 && r0[|s0| + 1] == y0 && r1[|s1|] == x1 && r1[|s1| + 1] == y1;
    forall k | 0 <= k < |s0| ensures IsRef(kind, s1[k]) && Abs(ids1, s1[k]) == Abs(ids0, s0[k]) {
      assert r0[k] == s0[k] && r1[k] == s1[k];
    }
  }

  lemma RootsLive(kind: Kinds, s: seq<nat>, x: nat, y: nat)
    requires AllLive(kind, s) && IsRef(kind, x) && IsRef(kind, y)
    ensures forall k :: 0 <= k < |s + [x, y]| ==> IsRef(kind, (s + [x, y])[k])
    ensures forall k :: 0 <= k < |s| ==> IsRef(kind, s[k])
  {
  }

  /** The numbers of the cells that were kept. */
  ghost function NewIds(ids: seq<nat>, src: seq<nat>): seq<nat>
    requires forall j :: 1 <= j < |src| ==> src[j] < |ids|
  {
    seq(|src|, j requires 0 <= j < |src| => if j == 0 then 0 else ids[src[j]])
  }

  /** A collection changes no cell of the heap that is never collected, and no root's value. */
  lemma AgreesCollected(o: Heap, kind: Kinds, m: nat, roots: seq<nat>, h: Heap, mfree: nat, nroots: seq<nat>,
                        src: seq<nat>, fwd: map<nat, nat>, ids: seq<nat>, cells: seq<Cell>)
    requires Agrees(o, kind, m, ids, cells) && Isomorphic(o, kind, roots, h, mfree, nroots, src, fwd)
    requires |h.car| == |h.cdr| < INDEXES && mfree <= |h.car| && mfree >= 1 && h.car[0] == 0 && h.cdr[0] == 0
    requires forall k :: 0 <= k < |roots| ==> IsRef(kind, roots[k])
    ensures Inverse(src, fwd) && fwd.Keys <= kind.Keys && forall j :: 1 <= j < |src| ==> src[j] < |ids|
    ensures Agrees(h, NewKind(kind, src, fwd), mfree, NewIds(ids, src), cells)
    ensures |nroots| == |roots| && forall k :: 0 <= k < |roots| ==>
              IsRef(NewKind(kind, src, fwd), nroots[k]) && Abs(NewIds(ids, src), nroots[k]) == Abs(ids, roots[k])
  {
    IsoFacts(o, kind, m, roots, h, mfree, nroots, src, fwd);
    IsomorphicClosed(o, kind, m, roots, h, mfree, nroots, src, fwd);
    SourcesBound(o, kind, m, ids, cells, src, fwd);
    var nk, ni := NewKind(kind, src, fwd), NewIds(ids, src);
    forall j: nat | j in nk ensures j < |h.car| && CellOk(h, nk, ni, cells, j) {
      KeptCell(o, kind, m, roots, h, mfree, nroots, src, fwd, ids, cells, j);
    }
    KeptDistinct(o, kind, m, ids, cells, src, fwd);
    assert forall i: nat :: i in nk <==> 1 <= i < mfree;
    hide Isomorphic, Closed, CellOk, NewKind, NewIds;
    forall k | 0 <= k < |roots| ensures |nroots| == |roots| && Abs(ni, nroots[k]) == Abs(ids, roots[k]) {
      RootDone(o, kind, roots, h, mfree, nroots, src, fwd, k);
      MovedValue(kind, src, fwd, ids, roots[k]);
    }
  }

  lemma SourcesBound(o: Heap, kind: Kinds, m: nat, ids: seq<nat>, cells: seq<Cell>, src: seq<nat>, fwd: map<nat, nat>)
    requires Agrees(o, kind, m, ids, cells) && Inverse(src, fwd) && fwd.Keys <= kind.Keys
    ensures forall j :: 1 <= j < |src| ==> src[j] < |ids|
  {
  }

  lemma KeptDistinct(o: Heap, kind: Kinds, m: nat, ids: seq<nat>, cells: seq<Cell>, src: seq<nat>, fwd: map<nat, nat>)
    requires Agrees(o, kind, m, ids, cells) && Inverse(src, fwd) && fwd.Keys <= kind.Keys
    requires forall j :: 1 <= j < |src| ==> src[j] < |ids|
    ensures forall i, j :: 1 <= i < j < |src| ==> NewIds(ids, src)[i] != NewIds(ids, src)[j]
  {
    forall i, j | 1 <= i < j < |src| ensures NewIds(ids, src)[i] != NewIds(ids, src)[j] {
      assert src[i] in kind && src[j] in kind && fwd[src[i]] == i && fwd[src[j]] == j;
      Distinct(ids, m, src[i], src[j]);
    }
  }

  lemma Distinct(ids: seq<nat>, m: nat, i: nat, j: nat)
    requires m <= |ids| && 1 <= i < m && 1 <= j < m && i != j && forall x, y :: 1 <= x < y < m ==> ids[x] != ids[y]
    ensures ids[i] != ids[j]
  {
    if i < j { assert ids[i] != ids[j]; } else { assert ids[j] != ids[i]; }
  }

  lemma RootDone(o: Heap, kind: Kinds, roots: seq<nat>, h: Heap, mfree: nat, nroots: seq<nat>, src: seq<nat>, fwd: map<nat, nat>, k: nat)
    requires Isomorphic(o, kind, roots, h, mfree, nroots, src, fwd) && k < |roots|
    ensures |nroots| == |roots| && Done(fwd, roots[k], nroots[k])
  {
  }

  lemma MovedValue(kind: Kinds, src: seq<nat>, fwd: map<nat, nat>, ids: seq<nat>, w: nat)
    requires Inverse(src, fwd) && fwd.Keys <= kind.Keys && |src| <= INDEXES && (forall i :: i in kind ==> IsTag(kind[i]))
    requires IsRef(kind, w) && (w != 0 ==> Index(w) in fwd) && forall j :: 1 <= j < |src| ==> src[j] < |ids|
    ensures Abs(NewIds(ids, src), Move(fwd, w)) == Abs(ids, w)
  {
    if w != 0 {
      MovedWord(kind, src, fwd, w);
    }
  }

  lemma KeptCell(o: Heap, kind: Kinds, m: nat, roots: seq<nat>, h: Heap, mfree: nat, nroots: seq<nat>,
                 src: seq<nat>, fwd: map<nat, nat>, ids: seq<nat>, cells: seq<Cell>, j: nat)
    requires Agrees(o, kind, m, ids, cells) && Isomorphic(o, kind, roots, h, mfree, nroots, src, fwd)
    requires |h.car| == |h.cdr| && mfree <= |h.car| < INDEXES && 1 <= j < |src| && Inverse(src, fwd) && fwd.Keys <= kind.Keys
    requires forall j :: 1 <= j < |src| ==> src[j] < |ids|
    ensures j in NewKind(kind, src, fwd) && j < |h.car| && CellOk(h, NewKind(kind, src, fwd), NewIds(ids, src), cells, j)
  {
    var i := src[j];
    var nk, ni := NewKind(kind, src, fwd), NewIds(ids, src);
    IsoFacts(o, kind, m, roots, h, mfree, nroots, src, fwd);
    IsoCell(o, kind, m, roots, h, mfree, nroots, src, fwd, i);
    assert CellOk(o, kind, ids, cells, i);
    assert j in nk && nk[j] == kind[i] && ni[j] == ids[i];
    hide Isomorphic, Closed, Agrees, NewKind, NewIds, Inverse, Move;
    if kind[i] == TAG_PAIR {
      MovedValue(kind, src, fwd, ids, o.car[i]);
      MovedValue(kind, src, fwd, ids, o.cdr[i]);
    }
  }
}
