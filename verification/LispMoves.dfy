/** The steps the interpreter makes on its heap, and what each makes of the store that the heap holds. */
module LispMoves {
  import opened Collector
  import opened LispSpec
  import opened LispShape
  import M = LispMeaning

  // ----- What a step leaves alone -----

  /** A cell with its role. */
  predicate SameCell(w0: World, l0: Layout, w1: World, l1: Layout, id: nat) {
    id < |w0.cells| <= |w1.cells| && id in l0.owner && id in l1.owner && l1.owner[id] == l0.owner[id] && w1.cells[id] == w0.cells[id]
  }

  predicate Others(r: Role, loc: nat) { (r.Object? || r.Value?) && r.loc != loc }

  /** No object's cells change but those of loc. */
  ghost predicate ChangesAt(w0: World, l0: Layout, w1: World, l1: Layout, loc: nat) {
    && Steady(w0, l0, w1, l1) && |l1.vals| == |l1.place| && |l0.vals| == |l0.place|
    && (forall k :: 0 <= k < |l0.place| && k != loc ==> l1.vals[k] == l0.vals[k])
    && (forall id :: id in l0.owner && Others(l0.owner[id], loc) ==> SameCell(w0, l0, w1, l1, id))
    && (forall id :: id in l1.owner ==> id < |w1.cells|)
  }

  /** ...nor the list of symbols. */
  ghost predicate Changes(w0: World, l0: Layout, w1: World, l1: Layout, loc: nat) {
    ChangesAt(w0, l0, w1, l1, loc) && forall id :: id in l0.owner && l0.owner[id].Place? ==> SameCell(w0, l0, w1, l1, id)
  }

  predicate SameSymbols(w0: World, l0: Layout, w1: World, l1: Layout) {
    w1.symbols == w0.symbols && l1.known == l0.known && l1.leaves == l0.leaves && l1.spine == l0.spine
  }

  lemma SymbolsKept(w0: World, l0: Layout, w1: World, l1: Layout, loc: nat)
    requires SymbolsOk(w0, l0) && Changes(w0, l0, w1, l1, loc) && SameSymbols(w0, l0, w1, l1)
    ensures SymbolsOk(w1, l1)
  {
    forall i: nat | i < |l1.spine| ensures SpineOk(w1, l1, i) {
      assert SpineOk(w0, l0, i);
      assert SameCell(w0, l0, w1, l1, l0.spine[i]);
    }
  }

  lemma ObjectKept(w0: World, st0: M.Store, l0: Layout, w1: World, st1: M.Store, l1: Layout, loc: nat, k: nat)
    requires k < |st0| == |l0.place| == |l0.vals| && ObjectOk(w0, st0, l0, k) && k != loc
    requires ChangesAt(w0, l0, w1, l1, loc) && |st1| == |l1.place| && SameKinds(st0, st1) && st1[k] == st0[k]
    ensures ObjectOk(w1, st1, l1, k)
  {
    hide Steady, IsValue, IsNames, IsExps, IsParams, IsSym, FrozenPair, Hd, Tl;
    SameObject(w0, st0, l0, w1, l1, loc, k);
    var c := w0.cells[l0.place[k]];
    match st0[k] {
      case Cons(a, d) =>
        ValueKept(w0, l0, w1, l1, a, c.car);
        ValueKept(w0, l0, w1, l1, d, c.cdr);
      case Proc(params, body, scope) =>
        ProcKept(w0, st0, l0, w1, st1, l1, k, params, body, scope);
      case Scope(binds, up) =>
        ScopeKept(w0, st0, l0, w1, st1, l1, loc, k, binds, up);
    }
  }

  lemma SameObject(w0: World, st0: M.Store, l0: Layout, w1: World, l1: Layout, loc: nat, k: nat)
    requires k < |st0| == |l0.place| == |l0.vals| && ObjectOk(w0, st0, l0, k) && k != loc && ChangesAt(w0, l0, w1, l1, loc)
    ensures l1.place[k] == l0.place[k] && l1.vals[k] == l0.vals[k] && SameCell(w0, l0, w1, l1, l0.place[k])
  {
    hide IsValue, IsNames, IsExps, IsParams, IsSym;
  }

  lemma ProcKept(w0: World, st0: M.Store, l0: Layout, w1: World, st1: M.Store, l1: Layout, k: nat,
                 params: M.Params, body: seq<M.Exp>, scope: nat)
    requires k < |st0| == |l0.place| && l0.place[k] < |w0.cells| && ProcOk(w0, st0, l0, k, params, body, scope)
    requires Steady(w0, l0, w1, l1) && k < |st1| == |l1.place| && SameKinds(st0, st1)
    requires l1.place[k] == l0.place[k] && w1.cells[l0.place[k]] == w0.cells[l0.place[k]]
    ensures ProcOk(w1, st1, l1, k, params, body, scope)
  {
    hide IsExps, IsParams, IsSym, FrozenPair, Hd, Tl;
    var x := w0.cells[l0.place[k]].cdr;
    SymKept(w0, l0, w1, l1, M.PROCEDURE, w0.cells[l0.place[k]].car);
    PairKept(w0, l0, w1, l1, x);
    PairKept(w0, l0, w1, l1, Tl(w0, x));
    PairKept(w0, l0, w1, l1, Tl(w0, Tl(w0, x)));
    ParamsKept(w0, l0, w1, l1, params, Item(w0, x, 0));
    ExpsKept(w0, l0, w1, l1, body, Item(w0, x, 1));
  }

  lemma ScopeKept(w0: World, st0: M.Store, l0: Layout, w1: World, st1: M.Store, l1: Layout, loc: nat, k: nat,
                  binds: seq<M.Bind>, up: M.Up)
    requires k < |st0| == |l0.place| == |l0.vals| && l0.place[k] < |w0.cells| && ScopeOk(w0, st0, l0, k, binds, up) && k != loc
    requires ChangesAt(w0, l0, w1, l1, loc) && k < |st1| == |l1.place| && SameKinds(st0, st1)
    requires l1.place[k] == l0.place[k] && w1.cells[l0.place[k]] == w0.cells[l0.place[k]]
    ensures ScopeOk(w1, st1, l1, k, binds, up)
  {
    hide Steady, IsNames, IsSym, FrozenPair, Hd, Tl, IsValue;
    var c := w0.cells[l0.place[k]];
    PairKept(w0, l0, w1, l1, c.car);
    NamesKept(w0, l0, w1, l1, NamesOf(binds), Hd(w0, c.car));
    assert l1.vals[k] == l0.vals[k];
    forall j: nat | j < |binds| ensures ValueOk(w1, l1, k, binds, j) {
      assert ValueOk(w0, l0, k, binds, j);
      var id := l0.vals[k][j];
      assert SameCell(w0, l0, w1, l1, id);
      ValueKept(w0, l0, w1, l1, binds[j].v, w0.cells[id].car);
    }
    UpKept(w0, l0, w1, l1, st0, st1, k, up, c.cdr);
  }

  lemma UpKept(w0: World, l0: Layout, w1: World, l1: Layout, st0: M.Store, st1: M.Store, k: nat, up: M.Up, x: Val)
    requires IsUp(st0, l0, k, up, x) && Steady(w0, l0, w1, l1) && SameKinds(st0, st1) && |st0| == |l0.place|
    ensures IsUp(st1, l1, k, up, x)
  {
  }

  /** One object changed or made. */
  lemma HoldsChanged(w0: World, st0: M.Store, l0: Layout, w1: World, st1: M.Store, l1: Layout, loc: nat)
    requires Holds(w0, st0, l0) && Changes(w0, l0, w1, l1, loc) && SameSymbols(w0, l0, w1, l1)
    requires |st1| == |l1.place| && SameKinds(st0, st1) && forall k :: 0 <= k < |st0| && k != loc ==> st1[k] == st0[k]
    requires |st1| == |st0| || (|st1| == |st0| + 1 && loc == |st0|)
    requires loc < |st1| ==> ObjectOk(w1, st1, l1, loc)
    ensures Holds(w1, st1, l1)
  {
    hide Changes, ChangesAt, ObjectOk, SymbolsOk, SameKinds;
    SymbolsKept(w0, l0, w1, l1, loc);
    ChangesSizes(w0, l0, w1, l1, loc);
    forall k: nat | k < |st1| ensures ObjectOk(w1, st1, l1, k) {
      if k != loc { ObjectKept(w0, st0, l0, w1, st1, l1, loc, k); }
    }
  }

  lemma ChangesSizes(w0: World, l0: Layout, w1: World, l1: Layout, loc: nat)
    requires Changes(w0, l0, w1, l1, loc)
    ensures ChangesAt(w0, l0, w1, l1, loc) && |l1.vals| == |l1.place| && forall id :: id in l1.owner ==> id < |w1.cells|
  {
  }

  /** Nothing of the store changed. */
  lemma HoldsSame(w0: World, st: M.Store, l0: Layout, w1: World, l1: Layout)
    requires Holds(w0, st, l0) && Changes(w0, l0, w1, l1, |st|) && SameSymbols(w0, l0, w1, l1) && |l1.place| == |l0.place|
    ensures Holds(w1, st, l1)
  {
    HoldsChanged(w0, st, l0, w1, st, l1, |st|);
  }

  // ----- New cells that belong to no object -----

  lemma AddFrozen(w: World, st: M.Store, l: Layout, c: Cell)
    requires Holds(w, st, l)
    ensures var w1 := LispSpec.Add(w, c); Holds(w1, st, l) && Later(w, l, w1, l) && Frozen(w1, l, |w.cells|) && w1.cells[|w.cells|] == c
  {
    hide SymbolsOk, ObjectOk;
    HoldsSame(w, st, l, LispSpec.Add(w, c), l);
  }

  function Using(l: Layout, id: nat, r: Role): Layout { l.(owner := l.owner[id := r]) }

  lemma AddTemp(w: World, st: M.Store, l: Layout, c: Cell)
    requires Holds(w, st, l)
    ensures var w1, l1 := LispSpec.Add(w, c), Using(l, |w.cells|, Temp); Holds(w1, st, l1) && Later(w, l, w1, l1)
  {
    hide SymbolsOk, ObjectOk;
    HoldsSame(w, st, l, LispSpec.Add(w, c), Using(l, |w.cells|, Temp));
  }

  lemma SetTemp(w: World, st: M.Store, l: Layout, id: nat, c: Cell)
    requires Holds(w, st, l) && id in l.owner && l.owner[id] == Temp
    ensures id < |w.cells| && Holds(w.(cells := w.cells[id := c]), st, l)
  {
    hide SymbolsOk, ObjectOk;
    HoldsSame(w, st, l, w.(cells := w.cells[id := c]), l);
  }

  function Freed(l: Layout, ids: set<nat>): Layout { l.(owner := l.owner - ids) }

  ghost predicate AllTemp(l: Layout, ids: set<nat>) {
    forall id :: id in ids ==> id in l.owner && l.owner[id] == Temp
  }

  lemma Freeze(w: World, st: M.Store, l: Layout, ids: set<nat>)
    requires Holds(w, st, l) && AllTemp(l, ids)
    ensures Holds(w, st, Freed(l, ids)) && forall id :: id in ids ==> Frozen(w, Freed(l, ids), id)
    ensures Steady(w, l, w, Freed(l, ids))
  {
    hide SymbolsOk, ObjectOk;
    HoldsSame(w, st, l, w, Freed(l, ids));
  }

  /** What happened since (w0, l0) is unchanged below |w0.cells|. */
  ghost predicate Above(n: nat, w: World, l: Layout, w1: World, l1: Layout) {
    && n <= |w.cells| <= |w1.cells| && l.place <= l1.place && l.known <= l1.known && l.leaves <= l1.leaves
    && (forall id: nat {:trigger id in l1.owner} {:trigger w1.cells[id]} :: id < n ==>
          && (id in l1.owner <==> id in l.owner) && (id in l.owner ==> l1.owner[id] == l.owner[id])
          && (id !in l.owner || l.owner[id] == Temp ==> w1.cells[id] == w.cells[id]))
  }

  lemma LaterAbove(w0: World, l0: Layout, w: World, l: Layout, w1: World, l1: Layout)
    requires Later(w0, l0, w, l) && Above(|w0.cells|, w, l, w1, l1)
    ensures Later(w0, l0, w1, l1)
  {
  }

  // ----- Objects -----

  lemma SetPair(w: World, st: M.Store, l: Layout, loc: nat, a: M.V, d: M.V, x: Val, y: Val)
    requires Holds(w, st, l) && loc < |st| && st[loc].Cons? && IsValue(w, l, a, x) && IsValue(w, l, d, y)
    ensures l.place[loc] < |w.cells|
    ensures var w1 := w.(cells := w.cells[l.place[loc] := Pair(x, y)]);
            Holds(w1, st[loc := M.Cons(a, d)], l) && Later(w, l, w1, l) && SameKinds(st, st[loc := M.Cons(a, d)])
  {
    hide SymbolsOk, IsExps, IsNames, IsParams;
    assert ObjectOk(w, st, l, loc);
    var w1, st1 := w.(cells := w.cells[l.place[loc] := Pair(x, y)]), st[loc := M.Cons(a, d)];
    assert Changes(w, l, w1, l, loc);
    ValueKept(w, l, w1, l, a, x);
    ValueKept(w, l, w1, l, d, y);
    HoldsChanged(w, st, l, w1, st1, l, loc);
  }

  function Placed(l: Layout, id: nat, vals: seq<nat>): Layout {
    l.(place := l.place + [id], vals := l.vals + [vals], owner := l.owner[id := Object(|l.place|)])
  }

  lemma NewPair(w: World, st: M.Store, l: Layout, a: M.V, d: M.V, x: Val, y: Val)
    requires Holds(w, st, l) && IsValue(w, l, a, x) && IsValue(w, l, d, y)
    ensures var w1, st1, l1 := LispSpec.Add(w, Pair(x, y)), st + [M.Cons(a, d)], Placed(l, |w.cells|, []);
            && Holds(w1, st1, l1) && Later(w, l, w1, l1) && SameKinds(st, st1) && IsValue(w1, l1, M.At(|st|), Next(w))
  {
    hide SymbolsOk, IsExps, IsNames, IsParams, IsSym;
    var w1, st1, l1 := LispSpec.Add(w, Pair(x, y)), st + [M.Cons(a, d)], Placed(l, |w.cells|, []);
    assert Changes(w, l, w1, l1, |st|) by { hide ObjectOk; }
    ValueKept(w, l, w1, l1, a, x);
    ValueKept(w, l, w1, l1, d, y);
    HoldsChanged(w, st, l, w1, st1, l1, |st|);
  }

  lemma NewProc(w: World, st: M.Store, l: Layout, params: M.Params, body: seq<M.Exp>, scope: nat, p: Val, x: Val)
    requires Holds(w, st, l) && IsSym(l, M.PROCEDURE, p)
    requires FrozenPair(w, l, x) && FrozenPair(w, l, Tl(w, x)) && FrozenPair(w, l, Tl(w, Tl(w, x)))
    requires IsParams(w, l, params, Item(w, x, 0)) && IsExps(w, l, body, Item(w, x, 1)) && InScope(st, l, scope, Item(w, x, 2))
    ensures var w1, st1, l1 := LispSpec.Add(w, Pair(p, x)), st + [M.Proc(params, body, scope)], Placed(l, |w.cells|, []);
            && Holds(w1, st1, l1) && Later(w, l, w1, l1) && SameKinds(st, st1) && IsValue(w1, l1, M.At(|st|), Next(w))
  {
    hide SymbolsOk, IsExps, IsNames, IsParams, IsSym, Hd, Tl, FrozenPair;
    var w1, st1, l1 := LispSpec.Add(w, Pair(p, x)), st + [M.Proc(params, body, scope)], Placed(l, |w.cells|, []);
    assert Changes(w, l, w1, l1, |st|) by { hide ObjectOk; }
    SymKept(w, l, w1, l1, M.PROCEDURE, p);
    PairKept(w, l, w1, l1, x);
    PairKept(w, l, w1, l1, Tl(w, x));
    PairKept(w, l, w1, l1, Tl(w, Tl(w, x)));
    ParamsKept(w, l, w1, l1, params, Item(w, x, 0));
    ExpsKept(w, l, w1, l1, body, Item(w, x, 1));
    HoldsChanged(w, st, l, w1, st1, l1, |st|);
  }

  // ----- Lists being built -----

  /** x is the list of xs, in these cells. */
  ghost predicate Chain(w: World, l: Layout, x: Val, ids: seq<nat>, xs: seq<Val>) {
    && |ids| == |xs| && Distinct(ids) && x == Link(ids, 0)
    && forall i: nat :: i < |ids| ==> ChainAt(w, l, ids, xs, i)
  }

  predicate ChainAt(w: World, l: Layout, ids: seq<nat>, xs: seq<Val>, i: nat)
    requires i < |ids| == |xs|
  {
    ids[i] < |w.cells| && ids[i] in l.owner && l.owner[ids[i]] == Temp && w.cells[ids[i]] == Pair(xs[i], Link(ids, i + 1))
  }

  lemma ChainKept(w0: World, l0: Layout, w1: World, l1: Layout, x: Val, ids: seq<nat>, xs: seq<Val>)
    requires Chain(w0, l0, x, ids, xs) && Later(w0, l0, w1, l1)
    ensures Chain(w1, l1, x, ids, xs)
  {
    forall i: nat | i < |ids| ensures ChainAt(w1, l1, ids, xs, i) {
      assert ChainAt(w0, l0, ids, xs, i);
    }
  }

  /** These values. */
  ghost predicate AreValues(w: World, l: Layout, vs: seq<M.V>, xs: seq<Val>) {
    |vs| == |xs| && forall i :: 0 <= i < |vs| ==> IsValue(w, l, vs[i], xs[i])
  }

  lemma ValuesKept(w0: World, l0: Layout, w1: World, l1: Layout, vs: seq<M.V>, xs: seq<Val>)
    requires AreValues(w0, l0, vs, xs) && Steady(w0, l0, w1, l1)
    ensures AreValues(w1, l1, vs, xs)
  {
    hide Steady, IsValue;
    forall i | 0 <= i < |vs| ensures IsValue(w1, l1, vs[i], xs[i]) {
      ValueKept(w0, l0, w1, l1, vs[i], xs[i]);
    }
  }

  /** The list becomes a scope's values. */
  function Scoped(l: Layout, id: nat, ids: seq<nat>): Layout {
    l.(place := l.place + [id], vals := l.vals + [ids],
       owner := (l.owner + map k | k in ids :: Value(|l.place|))[id := Object(|l.place|)])
  }

  lemma NewScope(w: World, st: M.Store, l: Layout, names: seq<nat>, vs: seq<M.V>, up: M.Up, frame: Val, upper: Val,
                 ids: seq<nat>, xs: seq<Val>)
    requires Holds(w, st, l) && Chain(w, l, Tl(w, frame), ids, xs) && AreValues(w, l, vs, xs) && |names| == |vs|
    requires FrozenPair(w, l, frame) && IsNames(w, l, names, Hd(w, frame)) && IsUp(st, l, |st|, up, upper)
    ensures var w1, st1, l1 := LispSpec.Add(w, Pair(frame, upper)), st + [M.Scope(M.Binds(names, vs), up)], Scoped(l, |w.cells|, ids);
            && Holds(w1, st1, l1) && Steady(w, l, w1, l1) && SameKinds(st, st1) && InScope(st1, l1, |st|, Next(w))
  {
    hide SymbolsOk, IsNames, FrozenPair, Hd, Tl, IsValue;
    var w1, st1, l1 := LispSpec.Add(w, Pair(frame, upper)), st + [M.Scope(M.Binds(names, vs), up)], Scoped(l, |w.cells|, ids);
    var binds := M.Binds(names, vs);
    ScopeChanges(w, st, l, Pair(frame, upper), ids, xs, Tl(w, frame));
    PairKept(w, l, w1, l1, frame);
    assert NamesOf(binds) == names;
    NamesKept(w, l, w1, l1, names, Hd(w, frame));
    ValuesKept(w, l, w1, l1, vs, xs);
    forall k: nat | k < |binds| ensures ValueOk(w1, l1, |st|, binds, k) {
      assert ChainAt(w, l, ids, xs, k);
    }
    assert ObjectOk(w1, st1, l1, |st|);
    HoldsChanged(w, st, l, w1, st1, l1, |st|);
  }

  lemma ScopeChanges(w: World, st: M.Store, l: Layout, c: Cell, ids: seq<nat>, xs: seq<Val>, x: Val)
    requires Holds(w, st, l) && Chain(w, l, x, ids, xs)
    ensures Changes(w, l, LispSpec.Add(w, c), Scoped(l, |w.cells|, ids), |st|)
  {
    hide SymbolsOk, ObjectOk;
    forall k: nat | k < |ids| ensures ids[k] in l.owner && l.owner[ids[k]] == Temp {
      assert ChainAt(w, l, ids, xs, k);
    }
  }

  // ----- Scopes -----

  lemma SetValue(w: World, st: M.Store, l: Layout, at: M.Spot, v: M.V, x: Val)
    requires Holds(w, st, l) && at.Spot? && at.scope < |st| && st[at.scope].Scope? && at.k < |st[at.scope].binds|
    requires IsValue(w, l, v, x)
    ensures at.k < |l.vals[at.scope]| && l.vals[at.scope][at.k] < |w.cells| && w.cells[l.vals[at.scope][at.k]].Pair?
    ensures var id := l.vals[at.scope][at.k];
            var w1, st1 := w.(cells := w.cells[id := Pair(x, w.cells[id].cdr)]), M.Rebind(st, at, v);
            Holds(w1, st1, l) && Later(w, l, w1, l) && SameKinds(st, st1)
  {
    hide SymbolsOk, IsNames, FrozenPair, Hd, Tl, IsValue;
    var loc, binds := at.scope, st[at.scope].binds;
    assert ObjectOk(w, st, l, loc) && ValueOk(w, l, loc, binds, at.k);
    var id := l.vals[loc][at.k];
    var w1, st1 := w.(cells := w.cells[id := Pair(x, w.cells[id].cdr)]), M.Rebind(st, at, v);
    assert Changes(w, l, w1, l, loc);
    var binds1 := st1[loc].binds;
    assert NamesOf(binds1) == NamesOf(binds);
    var c := w.cells[l.place[loc]];
    PairKept(w, l, w1, l, c.car);
    NamesKept(w, l, w1, l, NamesOf(binds), Hd(w, c.car));
    forall k: nat | k < |binds1| ensures ValueOk(w1, l, loc, binds1, k) {
      assert ValueOk(w, l, loc, binds, k);
      if k == at.k {
        ValueKept(w, l, w1, l, v, x);
      } else {
        assert l.vals[loc][k] != id;
        ValueKept(w, l, w1, l, binds[k].v, w.cells[l.vals[loc][k]].car);
      }
    }
    assert ObjectOk(w1, st1, l, loc);
    HoldsChanged(w, st, l, w1, st1, l, loc);
  }

  /** A new binding goes in front; the scope gets another frame. */
  lemma BindNew(w: World, st: M.Store, l: Layout, loc: nat, s: nat, v: M.V, x: Val, y: Val)
    requires Holds(w, st, l) && loc < |st| && st[loc].Scope? && IsSym(l, s, x) && IsValue(w, l, v, y)
    ensures l.place[loc] < |w.cells| && w.cells[l.place[loc]].Pair?
    ensures var n, c := |w.cells|, w.cells[l.place[loc]];
            var more := w.cells + [Pair(x, Hd(w, c.car)), Pair(y, Tl(w, c.car)), Pair(Ref(n), Ref(n + 1))];
            var w1 := w.(cells := more[l.place[loc] := Pair(Ref(n + 2), c.cdr)]);
            var st1 := st[loc := st[loc].(binds := [M.Bind(s, v)] + st[loc].binds)];
            var l1 := l.(vals := l.vals[loc := [n + 1] + l.vals[loc]], owner := l.owner[n + 1 := Value(loc)]);
            Holds(w1, st1, l1) && Later(w, l, w1, l1) && SameKinds(st, st1)
  {
    hide SymbolsOk, IsNames, FrozenPair, Hd, Tl, IsValue, IsSym;
    assert ObjectOk(w, st, l, loc);
    var n, c, binds := |w.cells|, w.cells[l.place[loc]], st[loc].binds;
    var more := w.cells + [Pair(x, Hd(w, c.car)), Pair(y, Tl(w, c.car)), Pair(Ref(n), Ref(n + 1))];
    var w1 := w.(cells := more[l.place[loc] := Pair(Ref(n + 2), c.cdr)]);
    var st1 := st[loc := st[loc].(binds := [M.Bind(s, v)] + binds)];
    var l1 := l.(vals := l.vals[loc := [n + 1] + l.vals[loc]], owner := l.owner[n + 1 := Value(loc)]);
    BindChanges(w, st, l, loc, w1, l1);
    var binds1 := st1[loc].binds;
    SymKept(w, l, w1, l1, s, x);
    ValueKept(w, l, w1, l1, v, y);
    PairKept(w, l, w1, l1, c.car);
    NamesKept(w, l, w1, l1, NamesOf(binds), Hd(w, c.car));
    BindNames(w1, l1, s, binds, x, n, Hd(w, c.car));
    forall k: nat | k < |binds1| ensures ValueOk(w1, l1, loc, binds1, k) {
      if k > 0 {
        assert ValueOk(w, l, loc, binds, k - 1);
        ValueKept(w, l, w1, l1, binds[k - 1].v, w.cells[l.vals[loc][k - 1]].car);
      }
    }
    BindFrame(w1, l1, n, y);
    assert Distinct(l1.vals[loc]) by { OldIds(w, st, l, loc); }
    assert ObjectOk(w1, st1, l1, loc);
    HoldsChanged(w, st, l, w1, st1, l1, loc);
  }

  lemma OldIds(w: World, st: M.Store, l: Layout, loc: nat)
    requires Holds(w, st, l) && loc < |st| && st[loc].Scope?
    ensures Distinct(l.vals[loc]) && forall k :: 0 <= k < |l.vals[loc]| ==> l.vals[loc][k] < |w.cells|
  {
    hide IsNames, FrozenPair, Hd, Tl, IsValue, IsSym;
    assert ObjectOk(w, st, l, loc);
    forall k: nat | k < |l.vals[loc]| ensures l.vals[loc][k] < |w.cells| {
      assert ValueOk(w, l, loc, st[loc].binds, k);
    }
  }

  lemma BindChanges(w: World, st: M.Store, l: Layout, loc: nat, w1: World, l1: Layout)
    requires Holds(w, st, l) && loc < |st| && st[loc].Scope? && |w1.cells| == |w.cells| + 3 && w1.symbols == w.symbols
    requires forall id :: 0 <= id < |w.cells| && id != l.place[loc] ==> w1.cells[id] == w.cells[id]
    requires var n := |w.cells|; l1 == l.(vals := l.vals[loc := [n + 1] + l.vals[loc]], owner := l.owner[n + 1 := Value(loc)])
    ensures Changes(w, l, w1, l1, loc) && Later(w, l, w1, l1)
  {
    hide SymbolsOk, ScopeOk;
    assert ObjectOk(w, st, l, loc);
  }

  lemma BindNames(w: World, l: Layout, s: nat, binds: seq<M.Bind>, x: Val, n: nat, rest: Val)
    requires n < |w.cells| && w.cells[n] == Pair(x, rest) && n !in l.owner && IsSym(l, s, x) && IsNames(w, l, NamesOf(binds), rest)
    ensures forall v :: IsNames(w, l, NamesOf([M.Bind(s, v)] + binds), Ref(n))
  {
    hide IsSym;
    forall v ensures IsNames(w, l, NamesOf([M.Bind(s, v)] + binds), Ref(n)) {
      assert NamesOf([M.Bind(s, v)] + binds)[1..] == NamesOf(binds);
    }
  }

  lemma BindFrame(w: World, l: Layout, n: nat, y: Val)
    requires n + 2 < |w.cells| && w.cells[n + 2] == Pair(Ref(n), Ref(n + 1)) && n + 2 !in l.owner
    ensures FrozenPair(w, l, Ref(n + 2)) && Hd(w, Ref(n + 2)) == Ref(n) && Tl(w, Ref(n + 2)) == Ref(n + 1)
  {
  }

  // ----- Symbols -----

  function Learned(l: Layout, name: nat, n: nat): Layout {
    l.(known := l.known + [name], leaves := l.leaves + [n], spine := l.spine + [n + 1], owner := l.owner[n + 1 := Place(|l.spine|)])
  }

  /** The heap after getsym made a symbol. */
  function WithSymbol(w: World, l: Layout, name: nat): World
    requires l.spine != [] ==> l.spine[|l.spine| - 1] < |w.cells| && w.cells[l.spine[|l.spine| - 1]].Pair?
  {
    var n := |w.cells|;
    var more := w.cells + [Leaf(TAG_SYM, 0, name), Pair(Ref(n), Nil)];
    if l.spine == [] then w.(cells := more, symbols := Ref(n + 1))
    else
      var last := l.spine[|l.spine| - 1];
      w.(cells := more[last := Pair(w.cells[last].car, Ref(n + 1))])
  }

  lemma SpineCells(w: World, l: Layout)
    requires SymbolsOk(w, l)
    ensures l.spine != [] ==> l.spine[|l.spine| - 1] < |w.cells| && w.cells[l.spine[|l.spine| - 1]].Pair?
  {
    if l.spine != [] { assert SpineOk(w, l, |l.spine| - 1); }
  }

  lemma NewSymbol(w: World, st: M.Store, l: Layout, name: nat)
    requires Holds(w, st, l) && name !in l.known
    ensures l.spine != [] ==> l.spine[|l.spine| - 1] < |w.cells| && w.cells[l.spine[|l.spine| - 1]].Pair?
    ensures var w1, l1 := WithSymbol(w, l, name), Learned(l, name, |w.cells|);
            Holds(w1, st, l1) && Later(w, l, w1, l1) && IsSym(l1, name, Next(w))
  {
    hide ObjectOk;
    SpineCells(w, l);
    var w1, l1 := WithSymbol(w, l, name), Learned(l, name, |w.cells|);
    SymbolChanges(w, st, l, name);
    SymbolAdded(w, st, l, name);
    forall k: nat | k < |st| ensures ObjectOk(w1, st, l1, k) {
      ObjectKept(w, st, l, w1, st, l1, |st|, k);
    }
    assert l1.known[|l.known|] == name && Next(w) == Ref(l1.leaves[|l.known|]);
  }

  lemma SymbolChanges(w: World, st: M.Store, l: Layout, name: nat)
    requires Holds(w, st, l) && name !in l.known
    requires l.spine != [] ==> l.spine[|l.spine| - 1] < |w.cells| && w.cells[l.spine[|l.spine| - 1]].Pair?
    ensures var w1, l1 := WithSymbol(w, l, name), Learned(l, name, |w.cells|);
            ChangesAt(w, l, w1, l1, |st|) && Later(w, l, w1, l1)
  {
    hide ObjectOk;
    if l.spine != [] { assert SpineOk(w, l, |l.spine| - 1); }
  }

  lemma SymbolAdded(w: World, st: M.Store, l: Layout, name: nat)
    requires Holds(w, st, l) && name !in l.known
    requires l.spine != [] ==> l.spine[|l.spine| - 1] < |w.cells| && w.cells[l.spine[|l.spine| - 1]].Pair?
    ensures SymbolsOk(WithSymbol(w, l, name), Learned(l, name, |w.cells|))
  {
    hide ObjectOk;
    var w1, l1, n := WithSymbol(w, l, name), Learned(l, name, |w.cells|), |l.spine|;
    forall i: nat | i < n ensures SpineOk(w, l, i) {
    }
    forall i: nat | i < |l1.spine| ensures SpineOk(w1, l1, i) {
      if i < n { assert SpineOk(w, l, i); }
      if n > 0 { assert SpineOk(w, l, n - 1); }
    }
    if n > 0 { assert SpineOk(w, l, n - 1) && SpineOk(w, l, 0); }
  }
}
