/** The evaluator of lisp/lisp.c over the collected heap. */
module LispCode {
  import opened Collector
  import opened LispSpec
  import opened LispHeap

  /** A word; an error exit or an operation not modelled; the step bound; "out of memory!" or
      "stackoverflow". */
  datatype Out = Value(r: nat) | Stops | NoFuel | NoMemory

  class Lisp {
    const m: Memory
    /** Entries of eval at which to collect, besides those where little memory is left. */
    const also: nat -> bool
    var entries: nat
    ghost var kind: Kinds
    ghost var ids: seq<nat>
    ghost var cells: seq<Cell>

    /** Memory as main sets it up, before the global environment is made. */
    constructor (m: Memory, also: nat -> bool)
      requires m.Shape() && m.mfree == 1 && m.sfree == 0 && m.symbols == 0 && m.globalEnv == 0
      requires m.cars[0] == 0 && m.cdrs[0] == 0
      ensures Valid() && this.m == m && this.also == also && W() == World([], Nil, Nil)
    {
      this.m, this.also, entries := m, also, 0;
      kind, ids, cells := map[], [0], [];
    }

    ghost function Parts(): set<object> {
      {this, m, m.cars1, m.cars2, m.cdrs1, m.cdrs2, m.stack}
    }

    ghost function TheHeap(): Heap
      reads m, m.cars, m.cdrs
    {
      Heap(m.cars[..], m.cdrs[..])
    }

    ghost predicate Live(w: nat)
      reads this
    {
      IsRef(kind, w)
    }

    ghost function Of(w: nat): Val
      reads this
    {
      Abs(ids, w)
    }

    ghost predicate Valid()
      reads this, m, m.cars1, m.cars2, m.cdrs1, m.cdrs2, m.stack
    {
      && m.Shape() && Agrees(TheHeap(), kind, m.mfree, ids, cells)
      && AllLive(kind, m.stack[..m.sfree]) && Live(m.symbols) && Live(m.globalEnv)
    }

    ghost function W(): World
      reads this, m
    {
      World(cells, Of(m.symbols), Of(m.globalEnv))
    }

    ghost function StackVals(): seq<Val>
      reads this, m, m.stack
    {
      if m.sfree <= m.stack.Length then AbsAll(ids, m.stack[..m.sfree]) else []
    }

    /** No cell left, or no room on the stack for the two roots that garbage saves. */
    ghost predicate Full()
      reads this, m
    {
      m.mfree == m.max || m.max < m.sfree + 2
    }

    /** Live words stay live, and stand for what they stood for. */
    twostate predicate Kept()
      reads this
    {
      forall w {:trigger Live(w)} {:trigger Of(w)} :: old(Live(w)) ==> Live(w) && Of(w) == old(Of(w))
    }

    // ----- Selectors, constructors, setters -----

    method CarOf(p: nat) returns (ok: bool, r: nat)
      requires Valid() && Live(p)
      ensures ok <==> Car(W(), Of(p)) != Bad
      ensures ok ==> Live(r) && Of(r) == Car(W(), Of(p))
    {
      LiveWord(TheHeap(), kind, m.mfree, ids, cells, p);
      ok, r := p == 0 || Pairq(p), 0;
      if ok {
        r := m.cars[p % INDEXES];
      }
      Child(p);
    }

    method CdrOf(p: nat) returns (ok: bool, r: nat)
      requires Valid() && Live(p)
      ensures ok <==> Cdr(W(), Of(p)) != Bad
      ensures ok ==> Live(r) && Of(r) == Cdr(W(), Of(p))
    {
      LiveWord(TheHeap(), kind, m.mfree, ids, cells, p);
      ok, r := p == 0 || Pairq(p), 0;
      if ok {
        r := m.cdrs[p % INDEXES];
      }
      Child(p);
    }

    lemma Child(p: nat)
      requires Valid() && Live(p)
      ensures p != 0 && Pairq(p) ==> Index(p) < |TheHeap().car| == |TheHeap().cdr| && IsPair(W(), Of(p))
      ensures p != 0 && Pairq(p) ==> Car(W(), Of(p)) == Of(TheHeap().car[Index(p)]) && Car(W(), Of(p)) != Bad
      ensures p != 0 && Pairq(p) ==> Cdr(W(), Of(p)) == Of(TheHeap().cdr[Index(p)]) && Cdr(W(), Of(p)) != Bad
      ensures p != 0 && !Pairq(p) ==> !IsPair(W(), Of(p))
      ensures IsPair(W(), Of(p)) ==> Car(W(), Of(p)) != Bad && Cdr(W(), Of(p)) != Bad
    {
      LiveWord(TheHeap(), kind, m.mfree, ids, cells, p);
      if p != 0 && Pairq(p) {
        ChildNotBad(TheHeap(), kind, m.mfree, ids, cells, Index(p));
      }
    }

    /** cons; false where memory is out. */
    method ConsOf(a: nat, d: nat) returns (ok: bool, r: nat)
      requires Valid() && Live(a) && Live(d)
      modifies Parts()
      ensures ok ==> Valid() && StackVals() == old(StackVals()) && Kept()
      ensures ok ==> Live(r) && Of(r) == Next(old(W())) && W() == Add(old(W()), Pair(old(Of(a)), old(Of(d))))
      ensures !ok ==> Full()
    {
      if m.mfree == m.max {
        return false, 0;
      }
      r := Make(a, d, TAG_PAIR);
      ok := true;
    }

    /** A cell of two words. */
    method Make(a: nat, d: nat, tag: nat) returns (r: nat)
      requires Valid() && m.mfree < m.max && IsTag(tag)
      requires if tag == TAG_PAIR then Live(a) && Live(d) else a != TAG_MARK
      modifies Parts()
      ensures Valid() && StackVals() == old(StackVals()) && Kept()
      ensures Live(r) && Of(r) == Next(old(W())) && W() == Add(old(W()), old(CellFor(ids, a, d, tag)))
    {
      hide Agrees, Grows, AllLive, AbsAll, Abs, CellFor;
      AgreesBounds(TheHeap(), kind, m.mfree, ids, cells);
      AgreesNew(TheHeap(), kind, m.mfree, ids, cells, a, d, tag);
      ghost var c := CellFor(ids, a, d, tag);
      r := Put(a, d, tag);
      Adopt(kind[old(m.mfree) := tag], ids + [|cells|], cells + [c]);
    }

    /** consint and conssym: a cell of raw words. */
    method LeafOf(hi: nat, lo: nat, tag: nat) returns (ok: bool, r: nat)
      requires Valid() && IsTag(tag) && tag != TAG_PAIR && hi != TAG_MARK
      modifies Parts()
      ensures ok ==> Valid() && StackVals() == old(StackVals()) && Kept()
      ensures ok ==> Live(r) && Of(r) == Next(old(W())) && W() == Add(old(W()), Leaf(tag, hi, lo))
      ensures !ok ==> Full()
    {
      if m.mfree == m.max {
        return false, 0;
      }
      r := Make(hi, lo, tag);
      ok := true;
    }

    /** The next cell's words. */
    method Put(a: nat, d: nat, tag: nat) returns (r: nat)
      requires m.Shape() && m.mfree < m.max
      modifies m`mfree, m.cars, m.cdrs
      ensures m.Shape() && m.mfree == old(m.mfree) + 1 && r == tag + old(m.mfree)
      ensures old(m.mfree) < |old(TheHeap()).car| == |old(TheHeap()).cdr|
      ensures TheHeap() == Heap(old(TheHeap()).car[old(m.mfree) := a], old(TheHeap()).cdr[old(m.mfree) := d])
      ensures m.stack[..] == old(m.stack[..])
    {
      ghost var h := TheHeap();
      r := tag + m.mfree;
      m.cars[m.mfree] := a;
      m.cdrs[m.mfree] := d;
      assert TheHeap() == Heap(h.car[m.mfree := a], h.cdr[m.mfree := d]);
      m.mfree := m.mfree + 1;
    }

    /** Takes note of new cells. */
    ghost method Adopt(k1: Kinds, i1: seq<nat>, c1: seq<Cell>)
      requires m.Shape() && Agrees(TheHeap(), k1, m.mfree, i1, c1) && Grows(kind, ids, k1, i1) && (forall i :: i in kind ==> i < |ids|)
      requires AllLive(kind, m.stack[..m.sfree]) && Live(m.symbols) && Live(m.globalEnv)
      modifies this`kind, this`ids, this`cells
      ensures Valid() && kind == k1 && ids == i1 && cells == c1 && Kept()
      ensures StackVals() == old(StackVals()) && W() == old(W()).(cells := c1)
    {
      GrowsAll(kind, ids, k1, i1, m.stack[..m.sfree]);
      forall w | Live(w) ensures IsRef(k1, w) && Abs(i1, w) == Of(w) {
        GrowsLive(kind, ids, k1, i1, w);
      }
      kind, ids, cells := k1, i1, c1;
    }

    // ----- Setters, stack and collector -----

    /** setcar of a pair. */
    method SetCarOf(p: nat, x: nat) returns (ok: bool)
      requires Valid() && Live(p) && Live(x)
      modifies Parts()
      ensures Valid() && Kept() && StackVals() == old(StackVals()) && (ok <==> IsPair(old(W()), old(Of(p))))
      ensures W() == if ok then SetCar(old(W()), old(Of(p)), old(Of(x))) else old(W())
    {
      Child(p);
      LiveWord(TheHeap(), kind, m.mfree, ids, cells, p);
      ok := p != 0 && Pairq(p);
      if ok {
        ghost var h, i := TheHeap(), Index(p);
        AgreesSet(h, kind, m.mfree, ids, cells, i, x, h.cdr[i]);
        hide Agrees;
        m.cars[p % INDEXES] := x;
        cells := cells[ids[i] := Pair(Of(x), Of(h.cdr[i]))];
        assert TheHeap() == Heap(h.car[i := x], h.cdr[i := h.cdr[i]]);
      }
    }

    method SetCdrOf(p: nat, x: nat) returns (ok: bool)
      requires Valid() && Live(p) && Live(x)
      modifies Parts()
      ensures Valid() && Kept() && StackVals() == old(StackVals()) && (ok <==> IsPair(old(W()), old(Of(p))))
      ensures W() == if ok then SetCdr(old(W()), old(Of(p)), old(Of(x))) else old(W())
    {
      Child(p);
      LiveWord(TheHeap(), kind, m.mfree, ids, cells, p);
      ok := p != 0 && Pairq(p);
      if ok {
        ghost var h, i := TheHeap(), Index(p);
        AgreesSet(h, kind, m.mfree, ids, cells, i, h.car[i], x);
        hide Agrees;
        m.cdrs[p % INDEXES] := x;
        cells := cells[ids[i] := Pair(Of(h.car[i]), Of(x))];
        assert TheHeap() == Heap(h.car[i := h.car[i]], h.cdr[i := x]);
      }
    }

    /** push; false is "stackoverflow". */
    method Push(x: nat) returns (ok: bool)
      requires Valid() && Live(x)
      modifies Parts()
      ensures ok ==> Valid() && Kept() && W() == old(W()) && StackVals() == old(StackVals()) + [old(Of(x))]
      ensures !ok ==> Full()
    {
      ghost var ws, h := m.stack[..m.sfree], TheHeap();
      ok := m.Push(x);
      assert TheHeap() == h;
      assert ok ==> m.stack[..m.sfree] == ws + [x];
    }

    method Pop() returns (r: nat)
      requires Valid() && StackVals() != []
      modifies Parts()
      ensures Valid() && Kept() && W() == old(W()) && Live(r)
      ensures Of(r) == old(StackVals())[|old(StackVals())| - 1]
      ensures StackVals() == old(StackVals())[..|old(StackVals())| - 1]
    {
      ghost var ws := m.stack[..m.sfree];
      r := m.Pop();
      assert m.stack[..m.sfree] == ws[..|ws| - 1];
    }

    /** garbage: the stack, the symbols and the global environment stand for what they stood for, and
        no cell of the heap that is never collected has changed. */
    method Collect() returns (ok: bool)
      requires Valid()
      modifies Parts()
      ensures ok ==> Valid() && W() == old(W()) && StackVals() == old(StackVals())
      ensures !ok ==> Full()
    {
      hide Agrees, Isomorphic, Closed, AllLive, AbsAll, IsRef, Abs, NewKind, NewIds;
      ghost var o, m0, ws, x, y := TheHeap(), m.mfree, m.stack[..m.sfree], m.symbols, m.globalEnv;
      AgreesBounds(o, kind, m.mfree, ids, cells);
      RootsLive(kind, ws, x, y);
      assert forall k :: 0 <= k < m.sfree ==> ws[k] == m.stack[k];
      ok := m.Garbage(kind);
      if ok {
        Renumber(o, m0, ws, x, y);
      }
    }

    /** The cells' new places. */
    ghost method Renumber(o: Heap, m0: nat, ws: seq<nat>, x: nat, y: nat)
      requires m.Shape() && Agrees(o, kind, m0, ids, cells) && TheHeap().car[0] == 0 && TheHeap().cdr[0] == 0
      requires Isomorphic(o, kind, ws + [x, y], TheHeap(), m.mfree, m.stack[..m.sfree] + [m.symbols, m.globalEnv], m.src, m.fwd)
      requires AllLive(kind, ws) && IsRef(kind, x) && IsRef(kind, y)
      modifies this`kind, this`ids
      ensures Valid() && AbsAll(old(ids), ws) == StackVals()
      ensures Of(m.symbols) == Abs(old(ids), x) && Of(m.globalEnv) == Abs(old(ids), y)
    {
      hide Agrees, Isomorphic, Closed, AllLive, AbsAll, IsRef, Abs, NewKind, NewIds;
      ghost var nroots := m.stack[..m.sfree] + [m.symbols, m.globalEnv];
      RootsLive(kind, ws, x, y);
      AgreesCollected(o, kind, m0, ws + [x, y], TheHeap(), m.mfree, nroots, m.src, m.fwd, ids, cells);
      RootsApart(ws, x, y, m.stack[..m.sfree], m.symbols, m.globalEnv, NewKind(kind, m.src, m.fwd), ids, NewIds(ids, m.src));
      kind, ids := NewKind(kind, m.src, m.fwd), NewIds(ids, m.src);
    }

    /** if(MAX-mfree<500), or when the schedule asks for it. */
    method Count() returns (few: bool)
      requires Valid()
      modifies Parts()
      ensures Valid() && Kept() && W() == old(W()) && StackVals() == old(StackVals())
    {
      few := m.max < 500 + m.mfree || also(entries);
      entries := entries + 1;
    }

    // ----- Words -----

    lemma Word(p: nat)
      requires Valid() && Live(p)
      ensures (p == 0 <==> Of(p) == Nil) && Of(p) != Bad && (p != 0 ==> Of(p).Ref? && Of(p).id < |W().cells|)
    {
      LiveWord(TheHeap(), kind, m.mfree, ids, cells, p);
    }

    /** A word with a cdr has a car. */
    lemma Frame(p: nat)
      requires Valid() && Live(p)
      ensures Car(W(), Of(p)) == Bad <==> Cdr(W(), Of(p)) == Bad
    {
      Child(p);
      Word(p);
    }

    lemma Nothing()
      requires Valid()
      ensures Live(0) && Of(0) == Nil
    {
    }

    lemma Words(p: nat, q: nat)
      requires Valid() && Live(p) && Live(q)
      ensures p == q <==> Of(p) == Of(q)
    {
      SameValue(TheHeap(), kind, m.mfree, ids, cells, p, q);
    }

    method CadrOf(p: nat) returns (ok: bool, r: nat)
      requires Valid() && Live(p)
      ensures ok <==> Cadr(W(), Of(p)) != Bad
      ensures ok ==> Live(r) && Of(r) == Cadr(W(), Of(p))
    {
      hide Valid, W, Of, Live, Full;
      ok, r := CdrOf(p);
      if ok { ok, r := CarOf(r); }
    }

    method CddrOf(p: nat) returns (ok: bool, r: nat)
      requires Valid() && Live(p)
      ensures ok <==> Cddr(W(), Of(p)) != Bad
      ensures ok ==> Live(r) && Of(r) == Cddr(W(), Of(p))
    {
      hide Valid, W, Of, Live, Full;
      ok, r := CdrOf(p);
      if ok { ok, r := CdrOf(r); }
    }

    method CaddrOf(p: nat) returns (ok: bool, r: nat)
      requires Valid() && Live(p)
      ensures ok <==> Caddr(W(), Of(p)) != Bad
      ensures ok ==> Live(r) && Of(r) == Caddr(W(), Of(p))
    {
      hide Valid, W, Of, Live, Full;
      ok, r := CddrOf(p);
      if ok { ok, r := CarOf(r); }
    }

    method CadddrOf(p: nat) returns (ok: bool, r: nat)
      requires Valid() && Live(p)
      ensures ok <==> Cadddr(W(), Of(p)) != Bad
      ensures ok ==> Live(r) && Of(r) == Cadddr(W(), Of(p))
    {
      hide Valid, W, Of, Live, Full;
      ok, r := CddrOf(p);
      if ok { ok, r := CadrOf(r); }
    }

    /** pairq. */
    method Pairs(p: nat) returns (b: bool)
      requires Valid() && Live(p)
      ensures b <==> IsPair(W(), Of(p))
    {
      Child(p);
      LiveWord(TheHeap(), kind, m.mfree, ids, cells, p);
      b := Pairq(p);
    }

    /** symq, numq and floatq. */
    method Tagged(p: nat, tag: nat) returns (b: bool)
      requires Valid() && Live(p) && tag in {TAG_INT, TAG_SYM, TAG_FLOAT}
      ensures b <==> IsLeaf(W(), Of(p), tag)
    {
      LiveWord(TheHeap(), kind, m.mfree, ids, cells, p);
      if p != 0 {
        TagBit(kind[Index(p)], Index(p), tag);
      }
      b := p / tag % 2 == 1;
    }

    /** The two words of a leaf. */
    method Payload(p: nat, ghost tag: nat) returns (hi: nat, lo: nat)
      requires Valid() && Live(p) && IsLeaf(W(), Of(p), tag)
      ensures W().cells[Of(p).id] == Leaf(tag, hi, lo)
    {
      LiveWord(TheHeap(), kind, m.mfree, ids, cells, p);
      hi, lo := m.cars[p % INDEXES], m.cdrs[p % INDEXES];
    }

    method Symbols() returns (p: nat)
      requires Valid()
      ensures Live(p) && Of(p) == W().symbols
    {
      p := m.symbols;
    }

    method Global() returns (p: nat)
      requires Valid()
      ensures Live(p) && Of(p) == W().global
    {
      p := m.globalEnv;
    }

    method SetSymbols(p: nat)
      requires Valid() && Live(p)
      modifies Parts()
      ensures Valid() && Kept() && StackVals() == old(StackVals()) && W() == old(W()).(symbols := old(Of(p)))
    {
      m.symbols := p;
    }

    // ----- Lists and symbols -----

    /** The outcome is the one specified; a word stands for its value in the world that results. */
    ghost predicate Gives(out: Out, spec: Res<Val>)
      reads this, m, m.cars1, m.cars2, m.cdrs1, m.cdrs2, m.stack
    {
      match out
      case Value(r) => Valid() && Live(r) && spec == Ok(W(), Of(r))
      case Stops => spec == Stuck
      case NoFuel => spec == Timeout
      case NoMemory => Full()
    }

    /** The loop of append. */
    method LastOf(q: nat, fuel: nat) returns (out: Out)
      requires Valid() && Live(q)
      ensures Gives(out, Last(W(), Of(q), fuel))
    {
      hide Valid, W, Of, Live, StackVals, Full;
      var p, f := q, fuel;
      while true
        invariant Valid() && Live(p) && Last(W(), Of(p), f) == Last(W(), Of(q), fuel)
        decreases f
      {
        if f == 0 {
          return NoFuel;
        }
        Word(p);
        var pairs := Pairs(p);
        if !pairs {
          return Stops;
        }
        var ok, d := CdrOf(p);
        if !ok {
          return Stops;
        }
        Word(d);
        if d == 0 {
          return Value(p);
        }
        p, f := d, f - 1;
      }
    }

    method AppendOf(q: nat, x: nat, fuel: nat) returns (out: Out)
      requires Valid() && Live(q) && Live(x)
      modifies Parts()
      ensures Gives(out, Append(old(W()), old(Of(q)), old(Of(x)), fuel))
      ensures out.Value? ==> Kept() && StackVals() == old(StackVals())
    {
      hide Valid, W, Of, Live, StackVals, Full;
      Word(q);
      Word(x);
      Nothing();
      if q == 0 {
        var ok, r := ConsOf(x, 0);
        return if ok then Value(r) else NoMemory;
      }
      var ok := Push(q);
      if !ok {
        return NoMemory;
      }
      out := LastOf(q, fuel);
      if !out.Value? {
        return;
      }
      var l := out.r;
      Nothing();
      var ok2, n := ConsOf(x, 0);
      if !ok2 {
        return NoMemory;
      }
      var ok3 := SetCdrOf(l, n);
      if !ok3 {
        return Stops;
      }
      var r := Pop();
      out := Value(r);
    }

    /** getsym. */
    method GetsymOf(name: nat, fuel: nat) returns (out: Out)
      requires Valid()
      modifies Parts()
      ensures Gives(out, Getsym(old(W()), name, fuel))
      ensures out.Value? ==> Kept() && StackVals() == old(StackVals())
    {
      hide Valid, W, Of, Live, StackVals, Full;
      out := FindOf(name, fuel);
      if !out.Value? {
        return;
      }
      Word(out.r);
      if out.r != 0 {
        return;
      }
      var ok, p := LeafOf(0, name, TAG_SYM);
      if !ok {
        return NoMemory;
      }
      var syms := Symbols();
      var l := AppendOf(syms, p, fuel);
      if !l.Value? {
        return l;
      }
      SetSymbols(l.r);
      out := Value(p);
    }

    method FindOf(name: nat, fuel: nat) returns (out: Out)
      requires Valid()
      ensures Gives(out, Find(W(), W().symbols, name, fuel))
    {
      hide Valid, W, Of, Live, StackVals, Full;
      var sym := Symbols();
      var f := fuel;
      Nothing();
      while true
        invariant Valid() && Live(sym) && Find(W(), Of(sym), name, f) == Find(W(), W().symbols, name, fuel)
        decreases f
      {
        if f == 0 {
          return NoFuel;
        }
        Word(sym);
        if sym == 0 {
          return Value(0);
        }
        var ok, c := CarOf(sym);
        if !ok {
          return Stops;
        }
        var s := Tagged(c, TAG_SYM);
        if !s {
          return Stops;
        }
        Child(sym);
        Word(c);
        var hi, lo := Payload(c, TAG_SYM);
        if hi == 0 && lo == name {
          return Value(c);
        }
        var ok2, d := CdrOf(sym);
        if !ok2 {
          return Stops;
        }
        sym, f := d, f - 1;
      }
    }

    /** A chain of comparisons with getsym of each name; the index found, or |names|. */
    method WhichOf(v: nat, names: seq<nat>, fuel: nat) returns (out: Out, k: nat)
      requires Valid() && Live(v)
      modifies Parts()
      ensures k <= |names|
      ensures out.Value? ==> Valid() && Which(old(W()), old(Of(v)), names, 0, fuel) == Ok(W(), k)
      ensures out.Value? ==> Kept() && StackVals() == old(StackVals())
      ensures out.Stops? ==> Which(old(W()), old(Of(v)), names, 0, fuel).Stuck?
      ensures out.NoFuel? ==> Which(old(W()), old(Of(v)), names, 0, fuel).Timeout?
      ensures out.NoMemory? ==> Full()
    {
      hide Valid, W, Of, Live, StackVals, Full;
      k := 0;
      while k < |names|
        invariant k <= |names| && Valid() && Kept() && StackVals() == old(StackVals())
        invariant Which(W(), old(Of(v)), names, k, fuel) == Which(old(W()), old(Of(v)), names, 0, fuel)
      {
        out := GetsymOf(names[k], fuel);
        if !out.Value? {
          return;
        }
        Words(v, out.r);
        if v == out.r {
          return;
        }
        k := k + 1;
      }
      out := Value(0);
    }
  }

  /** One bit tells the tag. */
  lemma TagBit(t: nat, i: nat, tag: nat)
    requires IsTag(t) && i < INDEXES && tag in {TAG_INT, TAG_SYM, TAG_FLOAT}
    ensures (t + i) / tag % 2 == 1 <==> t == tag
  {
  }
}
