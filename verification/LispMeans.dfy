/** The interpreter of lisp/lisp.c gives an expression its meaning: whatever heap represents it, the
    outcome is the one LispMeaning has, in a heap that holds the store LispMeaning ends with. */
module LispMeans {
  import opened Collector
  import opened LispSpec
  import opened LispShape
  import opened LispMoves
  import opened LispSim
  import opened LispLet
  import opened LispOps
  import opened LispSteps
  import M = LispMeaning

  // ----- Procedures -----

  lemma ProcCell(w: World, st: M.Store, l: Layout, loc: nat)
    requires Holds(w, st, l) && loc < |st| && st[loc].Proc?
    ensures loc < |l.place|
    ensures var p := Ref(l.place[loc]);
            && IsPair(w, p) && IsSym(l, M.PROCEDURE, Car(w, p)) && Car(w, p) != Bad && Cadr(w, p) != Bad
            && IsParams(w, l, st[loc].params, Cadr(w, p)) && IsExps(w, l, st[loc].body, Caddr(w, p))
            && Caddr(w, p) != Bad && Cadddr(w, p) != Bad && InScope(st, l, st[loc].scope, Cadddr(w, p))
  {
    hide SymbolsOk;
    assert ObjectOk(w, st, l, loc);
    var c := w.cells[l.place[loc]];
    ListThere2(w, st, l, st[loc].params, st[loc].body, Item(w, c.cdr, 0), Item(w, c.cdr, 1));
    assert Item(w, c.cdr, 1) == Item(w, Tl(w, c.cdr), 0) && Item(w, c.cdr, 2) == Item(w, Tl(w, c.cdr), 1) == Item(w, Tl(w, Tl(w, c.cdr)), 0);
  }

  lemma ListThere2(w: World, st: M.Store, l: Layout, params: M.Params, body: seq<M.Exp>, px: Val, bx: Val)
    requires IsParams(w, l, params, px) && IsExps(w, l, body, bx)
    ensures px != Bad && bx != Bad
  {
  }

  lemma {:induction false} NamesLength(w: World, l: Layout, ns: seq<nat>, x: Val, fuel: nat)
    requires IsNames(w, l, ns, x)
    ensures var r := Length(w, x, fuel); r.Timeout? || r == Ok(w, |ns|)
    decreases fuel
  {
    hide IsSym;
    if fuel > 0 && ns != [] {
      HdTl(w, l, x);
      NamesThere(w, l, ns[1..], Tl(w, x));
      NamesLength(w, l, ns[1..], Tl(w, x), fuel - 1);
    }
  }

  lemma NamesThere(w: World, l: Layout, ns: seq<nat>, x: Val)
    requires IsNames(w, l, ns, x)
    ensures x != Bad
  {
  }

  lemma {:induction false} ChainLength(w: World, l: Layout, x: Val, ids: seq<nat>, xs: seq<Val>, i: nat, fuel: nat)
    requires Chain(w, l, x, ids, xs) && i <= |ids|
    ensures var r := Length(w, Link(ids, i), fuel); r.Timeout? || r == Ok(w, |ids| - i)
    decreases fuel
  {
    if fuel > 0 && i < |ids| {
      assert ChainAt(w, l, ids, xs, i);
      ChainLength(w, l, x, ids, xs, i + 1, fuel - 1);
    }
  }

  /** The list of arguments becomes the values of a scope; n is where its cells begin. */
  lemma ScopedAbove(n: nat, w: World, l: Layout, c: Cell, x: Val, ids: seq<nat>, xs: seq<Val>)
    requires n <= |w.cells| && Chain(w, l, x, ids, xs) && forall i :: 0 <= i < |ids| ==> ids[i] >= n
    ensures Above(n, w, l, LispSpec.Add(w, c), Scoped(l, |w.cells|, ids))
  {
  }

  /** The list of arguments, and where it begins. */
  ghost predicate Fresh(w0: World, ids: seq<nat>) { forall i :: 0 <= i < |ids| ==> ids[i] >= |w0.cells| }

  lemma {:induction false} BodySim(w0: World, st0: M.Store, l0: Layout, w: World, st: M.Store, l: Layout, loc: nat, names: seq<nat>, px: Val,
                                   x: Val, ids: seq<nat>, xs: seq<Val>, vs: seq<M.V>, fuel: nat) returns (l1: Layout)
    requires Holds(w, st, l) && Sim(w0, st0, l0, w, st, l) && loc < |st| && st[loc].Proc? && loc < |l.place| && fuel > 0
    requires IsNames(w, l, names, px) && ArgList(w, l, x, ids, xs, vs) && Fresh(w0, ids)
    ensures var p := st[loc];
            Shows(w0, st0, l0, if |names| != |vs| then M.Error else M.Run(st + [M.Scope(M.Binds(names, vs), M.Up(p.scope))], p.body, |st|, fuel),
                  Body(w, Ref(l.place[loc]), px, x, fuel), l1)
    decreases fuel, 2
  {
    hide Holds, IsSym, IsExps, IsNames, Chain, AreValues, Sequence, M.Run, Later, Steady, SameKinds, FrozenPair, Hd, Tl, Length, Above;
    l1 := l;
    var p, proc := st[loc], Ref(l.place[loc]);
    ArgAt(w, l, x, ids, xs, vs, 0);
    NamesLength(w, l, names, px, fuel);
    ChainLength(w, l, x, ids, xs, 0, fuel);
    ProcCell(w, st, l, loc);
    if |names| == |vs| {
      NewFrame(w0, st0, l0, w, st, l, p.scope, p.body, names, px, x, ids, xs, vs, Cadddr(w, proc), Caddr(w, proc));
      var w1 := LispSpec.Add(w, Pair(px, x));
      var w2, st2, l2 := LispSpec.Add(w1, Pair(Next(w), Cadddr(w, proc))), st + [M.Scope(M.Binds(names, vs), M.Up(p.scope))], Scoped(l, |w1.cells|, ids);
      l1 := SequenceSim(w2, st2, l2, p.body, Caddr(w, proc), |st|, Next(w1), fuel);
      ShowsAfter(w0, st0, l0, w2, st2, l2, M.Run(st2, p.body, |st|, fuel), Sequence(w2, Caddr(w, proc), Next(w1), fuel), l1);
    }
  }

  /** A frame and the environment it is put in front of. */
  lemma NewFrame(w0: World, st0: M.Store, l0: Layout, w: World, st: M.Store, l: Layout, scope: nat, body: seq<M.Exp>, names: seq<nat>, px: Val,
                 x: Val, ids: seq<nat>, xs: seq<Val>, vs: seq<M.V>, env: Val, bx: Val)
    requires Holds(w, st, l) && Sim(w0, st0, l0, w, st, l) && InScope(st, l, scope, env) && IsExps(w, l, body, bx)
    requires IsNames(w, l, names, px) && ArgList(w, l, x, ids, xs, vs) && Fresh(w0, ids) && |names| == |vs|
    ensures var w1 := LispSpec.Add(w, Pair(px, x));
            var w2, st2, l2 := LispSpec.Add(w1, Pair(Next(w), env)), st + [M.Scope(M.Binds(names, vs), M.Up(scope))], Scoped(l, |w1.cells|, ids);
            && Holds(w2, st2, l2) && Sim(w0, st0, l0, w2, st2, l2) && IsExps(w2, l2, body, bx) && InScope(st2, l2, |st|, Next(w1))
  {
    hide Holds, IsSym, IsExps, IsNames, Chain, AreValues, Steady, Later, SameKinds, Above;
    var w1 := LispSpec.Add(w, Pair(px, x));
    AddFrozen(w, st, l, Pair(px, x));
    LaterTrans(w0, l0, w, l, w1, l);
    SteadyOf(w, l, w1, l);
    NamesKept(w, l, w1, l, names, px);
    ChainKept(w, l, w1, l, x, ids, xs);
    ValuesKept(w, l, w1, l, vs, xs);
    ExpsKept(w, l, w1, l, body, bx);
    Sizes(w, st, l);
    NewScope(w1, st, l, names, vs, M.Up(scope), Next(w), env, ids, xs);
    var c, l2 := Pair(Next(w), env), Scoped(l, |w1.cells|, ids);
    var w2, st2 := LispSpec.Add(w1, c), st + [M.Scope(M.Binds(names, vs), M.Up(scope))];
    Longer(w0, l0, w1, l);
    ScopedAbove(|w0.cells|, w1, l, c, x, ids, xs);
    LaterAbove(w0, l0, w1, l, w2, l2);
    ExpsKept(w1, l, w2, l2, body, bx);
    KindsTrans(st0, st, st2);
  }

  lemma Longer(w0: World, l0: Layout, w1: World, l1: Layout)
    requires Later(w0, l0, w1, l1)
    ensures |w0.cells| <= |w1.cells|
  {
  }

  lemma KindsTrans(st0: M.Store, st1: M.Store, st2: M.Store)
    requires SameKinds(st0, st1) && SameKinds(st1, st2)
    ensures SameKinds(st0, st2)
  {
  }

  // ----- A list of all arguments -----

  /** A cell of a list being built becomes a pair of the store. */
  lemma AdoptPair(w: World, st: M.Store, l: Layout, id: nat, a: M.V, d: M.V)
    requires Holds(w, st, l) && id in l.owner && l.owner[id] == Temp && id < |w.cells| && w.cells[id].Pair?
    requires IsValue(w, l, a, w.cells[id].car) && IsValue(w, l, d, w.cells[id].cdr)
    ensures var st1, l1 := st + [M.Cons(a, d)], Placed(l, id, []);
            Holds(w, st1, l1) && Steady(w, l, w, l1) && SameKinds(st, st1) && IsValue(w, l1, M.At(|st|), Ref(id))
  {
    hide SymbolsOk, IsExps, IsNames, IsParams, IsSym;
    var st1, l1 := st + [M.Cons(a, d)], Placed(l, id, []);
    assert Changes(w, l, w, l1, |st|) by { hide ObjectOk; }
    ValueKept(w, l, w, l1, a, w.cells[id].car);
    ValueKept(w, l, w, l1, d, w.cells[id].cdr);
    HoldsChanged(w, st, l, w, st1, l1, |st|);
  }

  lemma {:induction false} ListedSim(n: nat, w: World, st: M.Store, l: Layout, x: Val, ids: seq<nat>, xs: seq<Val>, vs: seq<M.V>, i: nat)
    returns (l1: Layout)
    requires Holds(w, st, l) && ArgList(w, l, x, ids, xs, vs) && i <= |ids| && n <= |w.cells| && forall i :: 0 <= i < |ids| ==> ids[i] >= n
    ensures var (st1, v) := M.Listed(st, vs[i..]);
            && Holds(w, st1, l1) && Steady(w, l, w, l1) && Above(n, w, l, w, l1) && SameKinds(st, st1) && IsValue(w, l1, v, Link(ids, i))
            && forall j :: 0 <= j < i ==> ids[j] in l1.owner && l1.owner[ids[j]] == Temp
    decreases |ids| - i
  {
    hide Holds, IsValue, Steady, Above, SameKinds;
    l1 := l;
    ArgAt(w, l, x, ids, xs, vs, i);
    if i == |ids| {
      NothingListed(n, w, st, l, x, ids, xs);
    } else {
      assert vs[i..][1..] == vs[i + 1..] && vs[i..][0] == vs[i];
      l1 := ListedSim(n, w, st, l, x, ids, xs, vs, i + 1);
      var (st1, v) := M.Listed(st, vs[i + 1..]);
      ValueKept(w, l, w, l1, vs[i], xs[i]);
      assert ChainAt(w, l, ids, xs, i);
      AdoptPair(w, st1, l1, ids[i], vs[i], v);
      var l2 := Placed(l1, ids[i], []);
      PlacedAbove(n, w, l, l1, ids[i]);
      SteadyTrans(w, l, w, l1, w, l2);
      KindsTrans(st, st1, st1 + [M.Cons(vs[i], v)]);
      Sizes(w, st1, l1);
      l1 := l2;
    }
  }

  lemma NothingListed(n: nat, w: World, st: M.Store, l: Layout, x: Val, ids: seq<nat>, xs: seq<Val>)
    requires Chain(w, l, x, ids, xs) && n <= |w.cells|
    ensures Steady(w, l, w, l) && Above(n, w, l, w, l) && SameKinds(st, st) && IsValue(w, l, M.Empty, Nil)
    ensures forall j :: 0 <= j < |ids| ==> ids[j] in l.owner && l.owner[ids[j]] == Temp
  {
    forall j: nat | j < |ids| ensures ids[j] in l.owner && l.owner[ids[j]] == Temp {
      assert ChainAt(w, l, ids, xs, j);
    }
  }

  lemma PlacedAbove(n: nat, w: World, l: Layout, l1: Layout, id: nat)
    requires Above(n, w, l, w, l1) && id >= n
    ensures Above(n, w, l, w, Placed(l1, id, []))
  {
  }

  /** One name for the list of all arguments. */
  lemma {:induction false} RestSim(w0: World, st0: M.Store, l0: Layout, w: World, st: M.Store, l: Layout, loc: nat, name: nat, px: Val,
                                   x: Val, ids: seq<nat>, xs: seq<Val>, vs: seq<M.V>, fuel: nat) returns (l1: Layout)
    requires Holds(w, st, l) && Sim(w0, st0, l0, w, st, l) && loc < |st| && st[loc].Proc? && loc < |l.place| && fuel > 0
    requires IsSym(l, name, px) && ArgList(w, l, x, ids, xs, vs) && Fresh(w0, ids)
    ensures var (st1, v) := M.Listed(st, vs);
            var w2 := LispSpec.Add(w, Pair(px, Nil));
            Shows(w0, st0, l0, M.Run(st1 + [M.Scope([M.Bind(name, v)], M.Up(st[loc].scope))], st[loc].body, |st1|, fuel),
                  Body(LispSpec.Add(w2, Pair(x, Nil)), Ref(l.place[loc]), Next(w), Next(w2), fuel), l1)
    decreases fuel, 3
  {
    hide Holds, IsSym, IsValue, IsExps, Chain, AreValues, Later, Steady, SameKinds, Above, Body, M.Run;
    var (st1, v) := M.Listed(st, vs);
    var p := st[loc];
    ArgAt(w, l, x, ids, xs, vs, 0);
    assert vs[0..] == vs;
    Longer(w0, l0, w, l);
    var l2 := ListedSim(|w0.cells|, w, st, l, x, ids, xs, vs, 0);
    LaterAbove(w0, l0, w, l, w, l2);
    ListedKeeps(st, vs, loc);
    SymKept(w, l, w, l2, name, px);
    KindsTrans(st0, st, st1);
    var w2 := LispSpec.Add(w, Pair(px, Nil));
    AddFrozen(w, st1, l2, Pair(px, Nil));
    LaterTrans(w0, l0, w, l2, w2, l2);
    SteadyOf(w, l2, w2, l2);
    var w3, l3 := LispSpec.Add(w2, Pair(x, Nil)), Using(l2, |w2.cells|, Temp);
    AddTemp(w2, st1, l2, Pair(x, Nil));
    LaterTrans(w0, l0, w2, l2, w3, l3);
    SteadyOf(w2, l2, w3, l3);
    SteadyTrans(w, l2, w2, l2, w3, l3);
    SymKept(w, l2, w3, l3, name, px);
    ValueKept(w, l2, w3, l3, v, x);
    Longer(w0, l0, w2, l2);
    SingleLists(w3, l3, |w.cells|, |w2.cells|, name, px, v, x);
    SteadyPlaces(w, l, w3, l3, w, l2);
    Sizes(w3, st1, l3);
    l1 := BodySim(w0, st0, l0, w3, st1, l3, loc, [name], Next(w), Next(w2), [|w2.cells|], [x], [v], fuel);
    assert M.Binds([name], [v]) == [M.Bind(name, v)];
  }

  lemma SteadyPlaces(w: World, l: Layout, w3: World, l3: Layout, w2: World, l2: Layout)
    requires Steady(w, l, w2, l2) && Steady(w2, l2, w3, l3)
    ensures l.place <= l3.place
  {
  }

  lemma {:induction false} ListedKeeps(st: M.Store, vs: seq<M.V>, loc: nat)
    requires loc < |st|
    ensures var (st1, v) := M.Listed(st, vs); st <= st1 && st1[loc] == st[loc]
    decreases |vs|
  {
    if vs != [] { ListedKeeps(st, vs[1..], loc); }
  }

  lemma SingleLists(w: World, l: Layout, m: nat, n: nat, name: nat, px: Val, v: M.V, x: Val)
    requires m < |w.cells| && m !in l.owner && w.cells[m] == Pair(px, Nil) && IsSym(l, name, px)
    requires n < |w.cells| && n in l.owner && l.owner[n] == Temp && w.cells[n] == Pair(x, Nil) && IsValue(w, l, v, x)
    ensures IsNames(w, l, [name], Ref(m)) && ArgList(w, l, Ref(n), [n], [x], [v])
  {
    assert [name][1..] == [];
    assert Hd(w, Ref(m)) == px && Tl(w, Ref(m)) == Nil;
    assert ChainAt(w, l, [n], [x], 0);
  }

  // ----- Application -----

  lemma {:induction false} CallSim(w0: World, st0: M.Store, l0: Layout, w: World, st: M.Store, l: Layout, f: M.V, y: Val,
                                   x: Val, ids: seq<nat>, xs: seq<Val>, vs: seq<M.V>, fuel: nat) returns (l1: Layout)
    requires Holds(w, st, l) && Sim(w0, st0, l0, w, st, l) && IsValue(w, l, f, y) && ArgList(w, l, x, ids, xs, vs) && Fresh(w0, ids)
    requires fuel > 0 && !(f.Name? && M.Primitive(f.s))
    ensures Shows(w0, st0, l0, M.ApplyTo(st, f, vs, fuel), LispSpec.Call(w, y, x, fuel), l1)
    decreases fuel, 5
  {
    hide Holds, IsSym, IsNum, IsExps, IsNames, Chain, AreValues, Later, SameKinds, Getsym, Body, M.Run, ArgList;
    l1 := l;
    KindOf(w, st, l, f, y);
    var g := Getsym(w, PROCEDURE, fuel);
    if f.At? && f.loc < |st| && !st[f.loc].Scope? {
      l1 := GetsymSim(w, st, l, PROCEDURE, fuel);
      if st[f.loc].Cons? {
        PairCell(w, st, l, f.loc);
        KindOf(w, st, l, st[f.loc].car, Car(w, y));
      } else {
        ProcCell(w, st, l, f.loc);
      }
      if g.Ok? {
        SimTrans(w0, st0, l0, w, st, l, g.w, st, l1);
        SimSteady(w, st, l, g.w, st, l1);
        ArgKept(w, st, l, g.w, st, l1, x, ids, xs, vs);
        if st[f.loc].Cons? {
          ValueKept(w, l, g.w, l1, st[f.loc].car, Car(w, y));
          ValueIsSym(g.w, st, l1, st[f.loc].car, Car(w, y), PROCEDURE, g.v);
        } else {
          HeadKept(w, st, l, g.w, st, l1, f.loc);
          SymKept(w, l, g.w, l1, PROCEDURE, Car(w, y));
          OneSym(g.w, st, l1, PROCEDURE, PROCEDURE, g.v, Car(w, y));
          l1 := ProcSim(w0, st0, l0, w, g.w, st, l1, f.loc, y, g.v, x, ids, xs, vs, fuel);
        }
      }
    } else if f == M.Empty {
      l1 := GetsymSim(w, st, l, PROCEDURE, fuel);
      if g.Ok? { SymNotNil(g.w, l1, PROCEDURE, g.v); }
    }
  }

  lemma SymNotNil(w: World, l: Layout, s: nat, x: Val)
    requires IsSym(l, s, x)
    ensures x != Nil && x != Bad
  {
  }

  /** getsym leaves an object's first cell alone. */
  lemma HeadKept(w: World, st: M.Store, l: Layout, w1: World, st1: M.Store, l1: Layout, loc: nat)
    requires Holds(w, st, l) && Sim(w, st, l, w1, st1, l1) && loc < |st|
    ensures loc < |l.place| <= |l1.place| && l1.place[loc] == l.place[loc]
  {
    hide SymbolsOk, ObjectOk;
  }

  lemma {:induction false} ProcSim(w0: World, st0: M.Store, l0: Layout, w: World, w1: World, st: M.Store, l: Layout, loc: nat, y: Val, p: Val,
                                   x: Val, ids: seq<nat>, xs: seq<Val>, vs: seq<M.V>, fuel: nat) returns (l1: Layout)
    requires Holds(w1, st, l) && Sim(w0, st0, l0, w1, st, l) && ArgList(w1, l, x, ids, xs, vs) && Fresh(w0, ids) && fuel > 0
    requires loc < |st| && st[loc].Proc? && loc < |l.place| && y == Ref(l.place[loc]) && IsSym(l, PROCEDURE, p)
    requires Getsym(w, PROCEDURE, fuel) == Ok(w1, p) && Car(w, y) == p && p != Bad
    ensures Shows(w0, st0, l0, M.ApplyTo(st, M.At(loc), vs, fuel), LispSpec.Call(w, y, x, fuel), l1)
    decreases fuel, 4
  {
    hide Holds, IsSym, IsExps, Chain, AreValues, Later, SameKinds, Getsym, Body, M.Run, ArgList, Sim;
    ProcCell(w1, st, l, loc);
    var params := Cadr(w1, y);
    match st[loc].params {
      case Fixed(names) =>
        NamesNoLeaf(w1, l, names, params);
        l1 := BodySim(w0, st0, l0, w1, st, l, loc, names, params, x, ids, xs, vs, fuel);
      case Rest(name) =>
        SymThere(w1, st, l, name, params);
        l1 := RestSim(w0, st0, l0, w1, st, l, loc, name, params, x, ids, xs, vs, fuel);
    }
  }

  lemma NamesNoLeaf(w: World, l: Layout, ns: seq<nat>, x: Val)
    requires IsNames(w, l, ns, x)
    ensures !IsLeaf(w, x, TAG_SYM)
  {
  }

  lemma {:induction false} ApplySim(w0: World, st0: M.Store, l0: Layout, w: World, st: M.Store, l: Layout, f: M.V, y: Val,
                                    x: Val, ids: seq<nat>, xs: seq<Val>, vs: seq<M.V>, fuel: nat) returns (l1: Layout)
    requires Holds(w, st, l) && Sim(w0, st0, l0, w, st, l) && IsValue(w, l, f, y) && ArgList(w, l, x, ids, xs, vs) && Fresh(w0, ids)
    ensures Shows(w0, st0, l0, M.ApplyTo(st, f, vs, fuel), Apply(w, y, x, fuel), l1)
    decreases fuel, 6
  {
    hide Holds, IsSym, IsValue, Chain, AreValues, Later, SameKinds, Which, LispSpec.Call, Primitive, M.Run, M.Operate, ArgList, Sim;
    l1 := l;
    if fuel > 0 {
      l1 := WhichSim(w, st, l, y, PRIMITIVES, 0, fuel);
      var g := Which(w, y, PRIMITIVES, 0, fuel);
      if g.Ok? {
        SimTrans(w0, st0, l0, w, st, l, g.w, st, l1);
        SimSteady(w, st, l, g.w, st, l1);
        ValueKept(w, l, g.w, l1, f, y);
        ArgKept(w, st, l, g.w, st, l1, x, ids, xs, vs);
        Dispatch(g.w, st, l1, f, y, g.v);
        if g.v == |PRIMITIVES| {
          l1 := CallSim(w0, st0, l0, g.w, st, l1, f, y, x, ids, xs, vs, fuel);
        } else {
          EvalWild(st, vs);
          var l2 := OperateSim(g.w, st, l1, g.v, x, ids, xs, vs, fuel);
          ShowsAfter(w0, st0, l0, g.w, st, l1, M.Operate(st, M.OPS[g.v], vs), Primitive(g.w, g.v, x, fuel), l2);
          l1 := l2;
        }
      }
    }
  }

  lemma EvalWild(st: M.Store, vs: seq<M.V>)
    ensures |M.OPS| == 20 && M.Operate(st, M.OPS[18], vs) == M.Wild
  {
  }

  lemma PrimitiveAt()
    ensures |PRIMITIVES| == 20 && forall s: nat :: M.Primitive(s) ==> PRIMITIVES[s - 10] == s
    ensures forall k :: 0 <= k < 20 ==> PRIMITIVES[k] == 10 + k
  {
  }

  /** The chain of comparisons ends at the primitive's place. */
  lemma Dispatch(w: World, st: M.Store, l: Layout, f: M.V, y: Val, k: nat)
    requires Holds(w, st, l) && IsValue(w, l, f, y) && k <= |PRIMITIVES|
    requires k < |PRIMITIVES| ==> IsSym(l, PRIMITIVES[k], y)
    requires forall j :: 0 <= j < k ==> !IsSym(l, PRIMITIVES[j], y)
    ensures k < |PRIMITIVES| <==> f.Name? && M.Primitive(f.s)
    ensures k < |PRIMITIVES| ==> f == M.Name(10 + k) && |M.OPS| == |PRIMITIVES|
  {
    hide Holds, IsSym;
    PrimitiveAt();
    KindOf(w, st, l, f, y);
    if k < |PRIMITIVES| {
      ValueIsSym(w, st, l, f, y, PRIMITIVES[k], y);
    }
  }

  // ----- Sequences, clauses, arguments -----

  /** A list of expressions: its first, and the rest. */
  lemma ExpsCell(w: World, st: M.Store, l: Layout, es: seq<M.Exp>, x: Val)
    requires Holds(w, st, l) && IsExps(w, l, es, x)
    ensures x != Bad && Cdr(w, x) != Bad && Car(w, x) != Bad && (x == Nil <==> es == [])
    ensures es == [] ==> Car(w, x) == Nil && Cdr(w, x) == Nil
    ensures es != [] ==> IsExp(w, l, es[0], Car(w, x)) && IsExps(w, l, es[1..], Cdr(w, x)) && (Cdr(w, x) == Nil <==> |es| == 1)
    ensures es != [] ==> FrozenPair(w, l, x) && Car(w, x) == Hd(w, x) && Cdr(w, x) == Tl(w, x)
  {
    hide Holds, IsExp;
    if es != [] {
      ExpThere(w, st, l, es[0], Hd(w, x));
      NilExps(w, l, es[1..], Tl(w, x));
    }
  }

  lemma NilExps(w: World, l: Layout, es: seq<M.Exp>, x: Val)
    requires IsExps(w, l, es, x)
    ensures x != Bad && (x == Nil <==> es == [])
  {
  }

  lemma {:induction false} SequenceSim(w: World, st: M.Store, l: Layout, es: seq<M.Exp>, x: Val, scope: nat, env: Val, fuel: nat) returns (l1: Layout)
    requires Holds(w, st, l) && IsExps(w, l, es, x) && InScope(st, l, scope, env)
    ensures Shows(w, st, l, M.Run(st, es, scope, fuel), Sequence(w, x, env, fuel), l1)
    decreases fuel, 1
  {
    hide Holds, IsExp, IsExps, InScope, Eval, M.Mean, Sim, Steady, FrozenPair, Hd, Tl, IsValue;
    l1 := l;
    if fuel > 0 {
      ExpsCell(w, st, l, es, x);
      if es == [] {
        assert IsExp(w, l, M.Null, Nil) by { NullIs(w, l); }
        l1 := EvalSim(w, st, l, M.Null, Nil, scope, env, fuel - 1);
      } else {
        l1 := EvalSim(w, st, l, es[0], Car(w, x), scope, env, fuel - 1);
        var r, m := Eval(w, Car(w, x), env, fuel - 1), M.Mean(st, es[0], scope, fuel - 1);
        if |es| > 1 && r.Ok? && m.Done? {
          SimSteady(w, st, l, r.w, m.st, l1);
          ExpsKept(w, l, r.w, l1, es, x);
          PairKept(w, l, r.w, l1, x);
          ExpsCell(r.w, m.st, l1, es, x);
          ScopeKeeps(w, st, l, r.w, m.st, l1, scope, env);
          var l2 := SequenceSim(r.w, m.st, l1, es[1..], Cdr(r.w, x), scope, env, fuel - 1);
          ShowsAfter(w, st, l, r.w, m.st, l1, M.Run(m.st, es[1..], scope, fuel - 1), Sequence(r.w, Cdr(r.w, x), env, fuel - 1), l2);
          l1 := l2;
        }
      }
    }
  }

  lemma NullIs(w: World, l: Layout)
    ensures IsExp(w, l, M.Null, Nil)
  {
  }

  /** A list of clauses: the first one's parts, and the rest. */
  lemma ClauseCell(w: World, st: M.Store, l: Layout, cs: seq<M.Clause>, x: Val)
    requires Holds(w, st, l) && AreClauses(w, l, cs, x)
    ensures x == Nil <==> cs == []
    ensures cs != [] ==> AreClauses(w, l, cs[1..], Cdr(w, x)) && Cdr(w, x) != Bad
    ensures cs != [] ==>
              && IsExp(w, l, cs[0].test, Car(w, Car(w, x))) && IsExp(w, l, cs[0].val, Cadr(w, Car(w, x)))
              && Car(w, Car(w, x)) != Bad && Cadr(w, Car(w, x)) != Bad
  {
    hide Holds, IsExp;
    if cs != [] {
      var c := Hd(w, x);
      assert IsClause(w, l, cs[0], c);
      HdTl(w, l, c);
      if c != Nil { assert Row(w, l, Tl(w, c), 1); }
      assert Item(w, c, 1) == Item(w, Tl(w, c), 0);
      HdTl(w, l, Tl(w, c));
      ExpThere(w, st, l, cs[0].test, Hd(w, c));
      ExpThere(w, st, l, cs[0].val, Item(w, c, 1));
      ClausesThere(w, l, cs[1..], Tl(w, x));
    }
  }

  lemma ClausesThere(w: World, l: Layout, cs: seq<M.Clause>, x: Val)
    requires AreClauses(w, l, cs, x)
    ensures x != Bad
  {
  }

  lemma {:induction false} CondSim(w: World, st: M.Store, l: Layout, cs: seq<M.Clause>, x: Val, scope: nat, env: Val, fuel: nat) returns (l1: Layout)
    requires Holds(w, st, l) && AreClauses(w, l, cs, x) && InScope(st, l, scope, env)
    ensures Shows(w, st, l, M.Choose(st, cs, scope, fuel), LispSpec.Cond(w, x, env, fuel), l1)
    decreases fuel, 1
  {
    hide Holds, IsExp, InScope, Eval, M.Mean, Sim, Steady, FrozenPair, Hd, Tl, IsSym, IsNum, Getsym, AreClauses;
    l1 := l;
    if fuel > 0 {
      ClauseCell(w, st, l, cs, x);
      if cs == [] {
        l1 := GetsymSim(w, st, l, FALSE, fuel);
      } else {
        l1 := EvalSim(w, st, l, cs[0].test, Car(w, Car(w, x)), scope, env, fuel - 1);
        var r, m := Eval(w, Car(w, Car(w, x)), env, fuel - 1), M.Mean(st, cs[0].test, scope, fuel - 1);
        if r.Ok? && m.Done? {
          SimSteady(w, st, l, r.w, m.st, l1);
          var l2 := GetsymSim(r.w, m.st, l1, TRUE, fuel);
          var g := Getsym(r.w, TRUE, fuel);
          if g.Ok? {
            SimTrans(w, st, l, r.w, m.st, l1, g.w, m.st, l2);
            SimSteady(r.w, m.st, l1, g.w, m.st, l2);
            ValueKept(r.w, l1, g.w, l2, m.v, r.v);
            ValueIsSym(g.w, m.st, l2, m.v, r.v, TRUE, g.v);
            l1 := ClauseSim(w, st, l, g.w, m.st, l2, cs, x, m.v == M.Name(M.TRUE), scope, env, fuel);
          }
        }
      }
    }
  }

  /** After the first test. */
  lemma {:induction false} ClauseSim(w: World, st: M.Store, l: Layout, w1: World, st1: M.Store, l1: Layout, cs: seq<M.Clause>, x: Val, yes: bool,
                                     scope: nat, env: Val, fuel: nat) returns (l2: Layout)
    requires Holds(w, st, l) && Sim(w, st, l, w1, st1, l1) && AreClauses(w, l, cs, x) && cs != [] && InScope(st, l, scope, env) && fuel > 0
    ensures Cadr(w1, Car(w, x)) != Bad && Cdr(w1, x) != Bad && Car(w1, x) == Car(w, x)
    ensures Shows(w, st, l, if yes then M.Mean(st1, cs[0].val, scope, fuel - 1) else M.Choose(st1, cs[1..], scope, fuel - 1),
                  if yes then Eval(w1, Cadr(w1, Car(w, x)), env, fuel - 1) else LispSpec.Cond(w1, Cdr(w1, x), env, fuel - 1), l2)
    decreases fuel, 0
  {
    hide Holds, IsExp, InScope, Eval, M.Mean, M.Choose, LispSpec.Cond, Sim, Steady;
    SimSteady(w, st, l, w1, st1, l1);
    ClausesKept(w, l, w1, l1, cs, x);
    ClauseCell(w1, st1, l1, cs, x);
    ScopeKeeps(w, st, l, w1, st1, l1, scope, env);
    assert Car(w1, x) == Car(w, x) by { PairKept(w, l, w1, l1, x); }
    if yes {
      l2 := EvalSim(w1, st1, l1, cs[0].val, Cadr(w1, Car(w1, x)), scope, env, fuel - 1);
      ShowsAfter(w, st, l, w1, st1, l1, M.Mean(st1, cs[0].val, scope, fuel - 1), Eval(w1, Cadr(w1, Car(w, x)), env, fuel - 1), l2);
    } else {
      l2 := CondSim(w1, st1, l1, cs[1..], Cdr(w1, x), scope, env, fuel - 1);
      ShowsAfter(w, st, l, w1, st1, l1, M.Choose(st1, cs[1..], scope, fuel - 1), LispSpec.Cond(w1, Cdr(w1, x), env, fuel - 1), l2);
    }
  }

  /** What Shows is for a list of values. */
  ghost predicate ShowsAll(w0: World, st0: M.Store, l0: Layout, m: M.Out<seq<M.V>>, r: Res<Val>, l1: Layout, ids: seq<nat>, xs: seq<Val>) {
    match m
    case Done(st1, vs) => r.Timeout? || (r.Ok? && Sim(w0, st0, l0, r.w, st1, l1) && ArgList(r.w, l1, r.v, ids, xs, vs) && Fresh(w0, ids))
    case Error => r.Timeout? || r.Stuck?
    case Wild => true
    case More => r.Timeout?
  }

  /** One value more. */
  lemma ArgMore(w0: World, st0: M.Store, l0: Layout, w: World, st: M.Store, l: Layout, x: Val, ids: seq<nat>, xs: seq<Val>, vs: seq<M.V>,
                v: M.V, y: Val, fuel: nat)
    requires Sim(w0, st0, l0, w, st, l) && ArgList(w, l, x, ids, xs, vs) && Fresh(w0, ids) && IsValue(w, l, v, y)
    ensures var r, l1 := Append(w, x, y, fuel), Using(l, |w.cells|, Temp);
            r.Timeout? ||
            (r.Ok? && Sim(w0, st0, l0, r.w, st, l1) && ArgList(r.w, l1, r.v, ids + [|w.cells|], xs + [y], vs + [v]) && Fresh(w0, ids + [|w.cells|])
             && Steady(w, l, r.w, l1) && l1.place == l.place)
  {
    hide Holds, Chain, IsValue, Append, Steady, Later, Above, SameKinds;
    ValueThere(w, st, l, v, y);
    Longer(w0, l0, w, l);
    AppendSim(w, st, l, x, ids, xs, y, |w0.cells|, fuel);
    var r, l1 := Append(w, x, y, fuel), Using(l, |w.cells|, Temp);
    if r.Ok? {
      LaterAbove(w0, l0, w, l, r.w, l1);
      ValuesKept(w, l, r.w, l1, vs, xs);
      ValueKept(w, l, r.w, l1, v, y);
    }
  }

  lemma {:induction false} ArgsSim(w0: World, st0: M.Store, l0: Layout, w: World, st: M.Store, l: Layout, es: seq<M.Exp>, s: Val, scope: nat, env: Val,
                                   x: Val, ids: seq<nat>, xs: seq<Val>, vs: seq<M.V>, fuel: nat) returns (l1: Layout, ids1: seq<nat>, xs1: seq<Val>)
    requires Holds(w, st, l) && Sim(w0, st0, l0, w, st, l) && IsExps(w, l, es, s) && InScope(st, l, scope, env)
    requires ArgList(w, l, x, ids, xs, vs) && Fresh(w0, ids)
    ensures ShowsAll(w0, st0, l0, M.All(st, es, scope, vs, fuel), Arguments(w, s, env, x, fuel), l1, ids1, xs1)
    decreases fuel, 1
  {
    hide Holds, IsExp, IsExps, InScope, Eval, M.Mean, Sim, Steady, Append, FrozenPair, Hd, Tl, ArgList, IsValue, Fresh;
    l1, ids1, xs1 := l, ids, xs;
    if fuel > 0 {
      ExpsCell(w, st, l, es, s);
      if es != [] {
        l1 := EvalSim(w, st, l, es[0], Car(w, s), scope, env, fuel - 1);
        var r, m := Eval(w, Car(w, s), env, fuel - 1), M.Mean(st, es[0], scope, fuel - 1);
        if r.Ok? && m.Done? {
          SimTrans(w0, st0, l0, w, st, l, r.w, m.st, l1);
          SimSteady(w, st, l, r.w, m.st, l1);
          ExpsKept(w, l, r.w, l1, es, s);
          ScopeKeeps(w, st, l, r.w, m.st, l1, scope, env);
          ArgKept(w, st, l, r.w, m.st, l1, x, ids, xs, vs);
          ArgMore(w0, st0, l0, r.w, m.st, l1, x, ids, xs, vs, m.v, r.v, fuel);
          var a, l2 := Append(r.w, x, r.v, fuel), Using(l1, |r.w.cells|, Temp);
          if a.Ok? {
            ExpsKept(r.w, l1, a.w, l2, es, s);
            SimSteady(w0, st0, l0, a.w, m.st, l2);
            ExpsCell(a.w, m.st, l2, es, s);
            SamePlaces(m.st, l1, l2, scope, env);
            l1, ids1, xs1 := ArgsSim(w0, st0, l0, a.w, m.st, l2, es[1..], Cdr(a.w, s), scope, env, a.v, ids + [|r.w.cells|], xs + [r.v],
                                     vs + [m.v], fuel - 1);
          }
        }
      }
    }
  }

  lemma SamePlaces(st: M.Store, l: Layout, l1: Layout, scope: nat, env: Val)
    requires InScope(st, l, scope, env) && l1.place == l.place
    ensures InScope(st, l1, scope, env)
  {
  }

  // ----- Expressions -----

  /** The place of an expression's keyword; 8 for a call. */
  function KeyOf(e: M.Exp): nat {
    match e
    case Quote(_) => 0
    case Assign(_, _) => 1
    case Def(_, _) => 2
    case DefProc(_, _, _) => 2
    case If(_, _, _) => 3
    case Let(_, _, _) => 4
    case Lambda(_, _) => 5
    case Begin(_) => 6
    case Cond(_) => 7
    case _ => 8
  }

  predicate Listed(e: M.Exp) { !e.Null? && !e.Const? && !e.Var? }

  lemma KeyIs(w: World, st: M.Store, l: Layout, e: M.Exp, x: Val, k: nat)
    requires Holds(w, st, l) && IsExp(w, l, e, x) && Listed(e) && k <= |KEYWORDS|
    requires k < |KEYWORDS| ==> IsSym(l, KEYWORDS[k], Hd(w, x))
    requires forall j :: 0 <= j < k ==> !IsSym(l, KEYWORDS[j], Hd(w, x))
    ensures k == KeyOf(e)
  {
    hide Holds, IsSym, IsNum, IsExps, IsNames, AreClauses, AreBindings, Item;
    assert KEYWORDS[KeyOf(M.Quote(M.Empty))] == M.QUOTE && |KEYWORDS| == 8;
    if e.Call? {
      if k < 8 {
        SymExp(w, st, l, e.op, Hd(w, x), KEYWORDS[k]);
      }
    } else {
      var c := KeyOf(e);
      assert IsSym(l, KEYWORDS[c], Hd(w, x));
      if k < c { OneSym(w, st, l, KEYWORDS[c], KEYWORDS[k], Hd(w, x), Hd(w, x)); }
    }
  }

  /** A symbol is the expression of a variable. */
  lemma SymExp(w: World, st: M.Store, l: Layout, e: M.Exp, x: Val, s: nat)
    requires Holds(w, st, l) && IsExp(w, l, e, x) && IsSym(l, s, x)
    ensures e == M.Var(s)
  {
    hide Holds, IsSym;
    SymThere(w, st, l, s, x);
    if e.Var? { OneSym(w, st, l, e.s, s, x, x); }
  }

  lemma ListCell(w: World, l: Layout, e: M.Exp, x: Val)
    requires IsExp(w, l, e, x) && Listed(e)
    ensures FrozenPair(w, l, x) && IsPair(w, x) && Car(w, x) == Hd(w, x)
  {
  }

  lemma {:induction false} EvalSim(w: World, st: M.Store, l: Layout, e: M.Exp, x: Val, scope: nat, env: Val, fuel: nat) returns (l1: Layout)
    requires Holds(w, st, l) && IsExp(w, l, e, x) && InScope(st, l, scope, env)
    ensures Shows(w, st, l, M.Mean(st, e, scope, fuel), Eval(w, x, env, fuel), l1)
    decreases fuel, 6
  {
    hide Holds, InScope, Which, LispSpec.Form, Sim, Lookup, IsSym, M.Mean, IsExp;
    l1 := l;
    if fuel == 0 {
      MeanLate(st, e, scope);
    } else if !Listed(e) {
      AtomSim(w, st, l, e, x, scope, env, fuel);
    } else {
      ListCell(w, l, e, x);
      l1 := WhichSim(w, st, l, Car(w, x), KEYWORDS, 0, fuel);
      var g := Which(w, Car(w, x), KEYWORDS, 0, fuel);
      if g.Ok? {
        SimSteady(w, st, l, g.w, st, l1);
        ExpKept(w, l, g.w, l1, e, x);
        PairKept(w, l, g.w, l1, x);
        ScopeKeeps(w, st, l, g.w, st, l1, scope, env);
        KeyIs(g.w, st, l1, e, x, g.v);
        var l2 := FormSim(g.w, st, l1, e, x, scope, env, fuel);
        ShowsAfter(w, st, l, g.w, st, l1, M.Mean(st, e, scope, fuel), LispSpec.Form(g.w, g.v, x, env, fuel), l2);
        l1 := l2;
      } else {
        TimeoutOk(w, st, l, M.Mean(st, e, scope, fuel), l1);
      }
    }
  }

  lemma TimeoutOk(w: World, st: M.Store, l: Layout, m: M.Out<M.V>, l1: Layout)
    ensures Shows(w, st, l, m, Timeout, l1)
  {
  }

  lemma MeanLate(st: M.Store, e: M.Exp, scope: nat)
    ensures M.Mean(st, e, scope, 0) == M.More
  {
  }

  lemma AtomSim(w: World, st: M.Store, l: Layout, e: M.Exp, x: Val, scope: nat, env: Val, fuel: nat)
    requires Holds(w, st, l) && IsExp(w, l, e, x) && InScope(st, l, scope, env) && fuel > 0 && !Listed(e)
    ensures Shows(w, st, l, M.Mean(st, e, scope, fuel), Eval(w, x, env, fuel), l)
  {
    hide Holds, InScope, Sim, Lookup, IsSym, Which;
    SimSelf(w, st, l);
    if e.Var? {
      SymThere(w, st, l, e.s, x);
      LookupSim(w, st, l, scope, e.s, x, env, fuel);
      SymNotNil(w, l, e.s, x);
    }
  }

  /** Elements 1 to 3 of a form, read as the interpreter reads them. */
  lemma FormCells(w: World, l: Layout, keyword: nat, x: Val, n: nat)
    requires Headed(w, l, keyword, x, n)
    ensures IsPair(w, x) && Cdr(w, x) == Tl(w, x)
    ensures n >= 2 ==> Cadr(w, x) == Item(w, x, 1) && Cddr(w, x) == Tl(w, Tl(w, x)) && (Tl(w, x) == Nil || FrozenPair(w, l, Tl(w, x)))
    ensures n >= 3 ==> Caddr(w, x) == Item(w, x, 2)
    ensures n >= 4 ==> Cadddr(w, x) == Item(w, x, 3)
  {
    hide IsSym;
    var y := Tl(w, x);
    var z := Tl(w, y);
    if n >= 2 {
      assert Row(w, l, y, n - 1);
      HdTl(w, l, y);
      assert Item(w, x, 1) == Item(w, y, 0);
      if n >= 3 {
        assert z == Nil || Row(w, l, z, n - 2);
        HdTl(w, l, z);
        assert Item(w, x, 2) == Item(w, y, 1) == Item(w, z, 0);
        if n >= 4 {
          assert z == Nil || Tl(w, z) == Nil || Row(w, l, Tl(w, z), n - 3);
          HdTl(w, l, Tl(w, z));
          assert Item(w, x, 3) == Item(w, y, 2) == Item(w, z, 1) == Item(w, Tl(w, z), 0);
        }
      }
    }
  }

  lemma {:induction false} FormSim(w: World, st: M.Store, l: Layout, e: M.Exp, x: Val, scope: nat, env: Val, fuel: nat) returns (l1: Layout)
    requires Holds(w, st, l) && IsExp(w, l, e, x) && Listed(e) && InScope(st, l, scope, env) && fuel > 0
    ensures Shows(w, st, l, M.Mean(st, e, scope, fuel), LispSpec.Form(w, KeyOf(e), x, env, fuel), l1)
    decreases fuel, 5
  {
    hide Holds, InScope, Sim, IsSym, SetBang, Definition, LispSpec.If, Let, Closure, Sequence, LispSpec.Cond, Application, Eval, IsExps, IsNames,
         AreBindings, AreClauses, FrozenPair, Hd, Tl, Item, Headed, M.Run, M.Choose, M.All, M.ApplyTo;
    l1 := l;
    match e {
      case Quote(q) =>
        FormCells(w, l, M.QUOTE, x, 2);
        ValueThere(w, st, l, q, Item(w, x, 1));
        SimSelf(w, st, l);
      case Assign(s, e1) => l1 := SetBangSim(w, st, l, s, e1, x, scope, env, fuel);
      case Def(s, e1) => l1 := DefSim(w, st, l, s, e1, x, scope, env, fuel);
      case DefProc(s, params, body) => l1 := DefProcSim(w, st, l, s, params, body, x, scope, env, fuel);
      case If(test, con, alt) => l1 := IfSim(w, st, l, test, con, alt, x, scope, env, fuel);
      case Let(names, vals, e1) => l1 := LetFormSim(w, st, l, names, vals, e1, x, scope, env, fuel);
      case Lambda(params, body) =>
        FormCells(w, l, M.LAMBDA, x, 2);
        l1 := ClosureSim(w, st, l, params, body, scope, Item(w, x, 1), Tl(w, Tl(w, x)), env, fuel);
      case Begin(body) =>
        FormCells(w, l, M.BEGIN, x, 1);
        l1 := SequenceSim(w, st, l, body, Tl(w, x), scope, env, fuel);
      case Cond(clauses) =>
        FormCells(w, l, M.COND, x, 1);
        l1 := CondSim(w, st, l, clauses, Tl(w, x), scope, env, fuel);
      case Call(op, args) => l1 := ApplicationSim(w, st, l, op, args, x, scope, env, fuel);
    }
  }

  lemma {:induction false} SetBangSim(w: World, st: M.Store, l: Layout, s: nat, e: M.Exp, x: Val, scope: nat, env: Val, fuel: nat) returns (l1: Layout)
    requires Holds(w, st, l) && IsExp(w, l, M.Assign(s, e), x) && InScope(st, l, scope, env) && fuel > 0
    ensures Shows(w, st, l, M.Mean(st, M.Assign(s, e), scope, fuel), SetBang(w, x, env, fuel), l1)
    decreases fuel, 4
  {
    hide Holds, InScope, Sim, IsSym, Eval, FrozenPair, Hd, Tl, Item, Headed, Steady, IsValue, Assign;
    FormCells(w, l, M.SET, x, 3);
    var y := Item(w, x, 2);
    ExpThere(w, st, l, e, y);
    SymNotNil(w, l, s, Item(w, x, 1));
    l1 := EvalSim(w, st, l, e, y, scope, env, fuel - 1);
    var r, m := Eval(w, y, env, fuel - 1), M.Mean(st, e, scope, fuel - 1);
    if r.Ok? && m.Done? {
      SimSteady(w, st, l, r.w, m.st, l1);
      SymKept(w, l, r.w, l1, s, Item(w, x, 1));
      ScopeKeeps(w, st, l, r.w, m.st, l1, scope, env);
      var l2 := AssignSim(r.w, m.st, l1, scope, s, m.v, Item(w, x, 1), r.v, env, fuel);
      ShowsAfter(w, st, l, r.w, m.st, l1, M.SetVar(m.st, s, m.v, scope), Assign(r.w, Item(w, x, 1), r.v, env, fuel), l2);
      l1 := l2;
    }
  }

  lemma {:induction false} DefSim(w: World, st: M.Store, l: Layout, s: nat, e: M.Exp, x: Val, scope: nat, env: Val, fuel: nat) returns (l1: Layout)
    requires Holds(w, st, l) && IsExp(w, l, M.Def(s, e), x) && InScope(st, l, scope, env) && fuel > 0
    ensures Shows(w, st, l, M.Mean(st, M.Def(s, e), scope, fuel), Definition(w, x, env, fuel), l1)
    decreases fuel, 4
  {
    hide Holds, InScope, Sim, IsSym, Eval, FrozenPair, Hd, Tl, Item, Headed, Steady, IsValue, Define, DefineProcedure;
    FormCells(w, l, M.DEFINE, x, 3);
    var y := Item(w, x, 2);
    ExpThere(w, st, l, e, y);
    SymThere(w, st, l, s, Item(w, x, 1));
    l1 := EvalSim(w, st, l, e, y, scope, env, fuel - 1);
    var r, m := Eval(w, y, env, fuel - 1), M.Mean(st, e, scope, fuel - 1);
    if r.Ok? && m.Done? {
      SimSteady(w, st, l, r.w, m.st, l1);
      SymKept(w, l, r.w, l1, s, Item(w, x, 1));
      ScopeKeeps(w, st, l, r.w, m.st, l1, scope, env);
      var l2 := DefineSim(r.w, m.st, l1, scope, s, m.v, Item(w, x, 1), r.v, env, fuel);
      ShowsAfter(w, st, l, r.w, m.st, l1, M.DefVar(m.st, s, m.v, scope), Define(r.w, Item(w, x, 1), r.v, env, fuel), l2);
      l1 := l2;
    }
  }

  /** (lambda params . body), made for a definition. */
  lemma LambdaCells(w: World, st: M.Store, l: Layout, params: M.Params, body: seq<M.Exp>, px: Val, bx: Val, s: Val)
    requires Holds(w, st, l) && IsParams(w, l, params, px) && IsExps(w, l, body, bx) && IsSym(l, LAMBDA, s)
    ensures var w1 := LispSpec.Add(w, Pair(px, bx));
            var w2 := LispSpec.Add(w1, Pair(s, Next(w)));
            Sim(w, st, l, w2, st, l) && IsExp(w2, l, M.Lambda(params, body), Next(w1))
  {
    hide Holds, IsParams, IsExps, Later, IsSym;
    var w1 := LispSpec.Add(w, Pair(px, bx));
    var w2 := LispSpec.Add(w1, Pair(s, Next(w)));
    AddFrozen(w, st, l, Pair(px, bx));
    AddFrozen(w1, st, l, Pair(s, Next(w)));
    LaterTrans(w, l, w1, l, w2, l);
    SteadyOf(w, l, w2, l);
    ParamsKept(w, l, w2, l, params, px);
    ExpsKept(w, l, w2, l, body, bx);
    var x, y := Next(w1), Next(w);
    assert Hd(w2, x) == s && Tl(w2, x) == y && Hd(w2, y) == px && Tl(w2, y) == bx;
    assert Item(w2, x, 1) == Item(w2, y, 0) && Row(w2, l, y, 1);
  }

  lemma {:induction false} DefProcSim(w: World, st: M.Store, l: Layout, s: nat, params: M.Params, body: seq<M.Exp>, x: Val, scope: nat, env: Val,
                                      fuel: nat) returns (l1: Layout)
    requires Holds(w, st, l) && IsExp(w, l, M.DefProc(s, params, body), x) && InScope(st, l, scope, env) && fuel > 0
    ensures Shows(w, st, l, M.Mean(st, M.DefProc(s, params, body), scope, fuel), Definition(w, x, env, fuel), l1)
    decreases fuel, 4
  {
    hide Holds, InScope, Sim, IsSym, Eval, Headed, Steady, IsValue, Define, Getsym, IsParams, IsExps, SymbolsOk;
    FormCells(w, l, M.DEFINE, x, 2);
    var h, bx := Item(w, x, 1), Tl(w, Tl(w, x));
    var px := Tl(w, h);
    ListThere(w, st, l, params, body, px, bx);
    SymNotNil(w, l, s, Hd(w, h));
    assert !IsLeaf(w, h, TAG_SYM) && Car(w, h) == Hd(w, h) && Cdr(w, h) == px;
    l1 := GetsymSim(w, st, l, LAMBDA, fuel);
    var g := Getsym(w, LAMBDA, fuel);
    if g.Ok? {
      SimSteady(w, st, l, g.w, st, l1);
      ParamsKept(w, l, g.w, l1, params, px);
      ExpsKept(w, l, g.w, l1, body, bx);
      SymKept(w, l, g.w, l1, s, Hd(w, h));
      ScopeKeeps(w, st, l, g.w, st, l1, scope, env);
      LambdaCells(g.w, st, l1, params, body, px, bx, g.v);
      var w2 := LispSpec.Add(g.w, Pair(px, bx));
      var w3 := LispSpec.Add(w2, Pair(g.v, Next(g.w)));
      SimTrans(w, st, l, g.w, st, l1, w3, st, l1);
      SimSteady(g.w, st, l1, w3, st, l1);
      SymKept(g.w, l1, w3, l1, s, Hd(w, h));
      ScopeKeeps(g.w, st, l1, w3, st, l1, scope, env);
      var l2 := EvalSim(w3, st, l1, M.Lambda(params, body), Next(w2), scope, env, fuel - 1);
      var r, m := Eval(w3, Next(w2), env, fuel - 1), M.Mean(st, M.Lambda(params, body), scope, fuel - 1);
      if r.Ok? && m.Done? {
        SimTrans(w, st, l, w3, st, l1, r.w, m.st, l2);
        SimSteady(w3, st, l1, r.w, m.st, l2);
        SymKept(w3, l1, r.w, l2, s, Hd(w, h));
        ScopeKeeps(w3, st, l1, r.w, m.st, l2, scope, env);
        var l3 := DefineSim(r.w, m.st, l2, scope, s, m.v, Hd(w, h), r.v, env, fuel);
        ShowsAfter(w, st, l, r.w, m.st, l2, M.DefVar(m.st, s, m.v, scope), Define(r.w, Hd(w, h), r.v, env, fuel), l3);
        l2 := l3;
      }
      l1 := l2;
    }
  }

  /** if: #f chooses the fourth element, any other value the third. */
  lemma {:induction false} IfSim(w: World, st: M.Store, l: Layout, test: M.Exp, con: M.Exp, alt: M.Exp, x: Val, scope: nat, env: Val,
                                 fuel: nat) returns (l1: Layout)
    requires Holds(w, st, l) && IsExp(w, l, M.If(test, con, alt), x) && InScope(st, l, scope, env) && fuel > 0
    ensures Shows(w, st, l, M.Mean(st, M.If(test, con, alt), scope, fuel), LispSpec.If(w, x, env, fuel), l1)
    decreases fuel, 4
  {
    hide Holds, InScope, Sim, IsSym, Eval, Getsym, FrozenPair, Hd, Tl, Item, Headed, Steady, IsValue, Row;
    FormCells(w, l, M.IF, x, 4);
    ExpThere(w, st, l, test, Item(w, x, 1));
    l1 := EvalSim(w, st, l, test, Item(w, x, 1), scope, env, fuel - 1);
    var r, m := Eval(w, Item(w, x, 1), env, fuel - 1), M.Mean(st, test, scope, fuel - 1);
    if r.Ok? && m.Done? {
      SimSteady(w, st, l, r.w, m.st, l1);
      var l2 := GetsymSim(r.w, m.st, l1, FALSE, fuel);
      var g := Getsym(r.w, FALSE, fuel);
      if g.Ok? {
        SimTrans(w, st, l, r.w, m.st, l1, g.w, m.st, l2);
        SimSteady(w, st, l, g.w, m.st, l2);
        SimSteady(r.w, m.st, l1, g.w, m.st, l2);
        ValueKept(r.w, l1, g.w, l2, m.v, r.v);
        ValueIsSym(g.w, m.st, l2, m.v, r.v, FALSE, g.v);
        FormKept(w, l, g.w, l2, M.IF, x, 4);
        FormCells(g.w, l2, M.IF, x, 4);
        var branch, y := if m.v == M.Name(M.FALSE) then alt else con, Item(w, x, if m.v == M.Name(M.FALSE) then 3 else 2);
        ExpKept(w, l, g.w, l2, branch, y);
        ExpThere(g.w, m.st, l2, branch, y);
        ScopeKeeps(w, st, l, g.w, m.st, l2, scope, env);
        var l3 := EvalSim(g.w, m.st, l2, branch, y, scope, env, fuel - 1);
        ShowsAfter(w, st, l, g.w, m.st, l2, M.Mean(m.st, branch, scope, fuel - 1), Eval(g.w, y, env, fuel - 1), l3);
        l2 := l3;
      }
      l1 := l2;
    }
  }

  lemma {:induction false} LetFormSim(w: World, st: M.Store, l: Layout, names: seq<nat>, vals: seq<M.Exp>, e: M.Exp, x: Val, scope: nat, env: Val,
                                      fuel: nat) returns (l1: Layout)
    requires Holds(w, st, l) && IsExp(w, l, M.Let(names, vals, e), x) && InScope(st, l, scope, env) && fuel > 0
    ensures Shows(w, st, l, M.Mean(st, M.Let(names, vals, e), scope, fuel), LispSpec.Form(w, 4, x, env, fuel), l1)
    decreases fuel, 4
  {
    hide Holds, InScope, Sim, Eval, Let, IsExp, Steady, M.All, M.ApplyTo;
    l1 := LetSim(w, st, l, names, vals, e, x, fuel);
    var r := Let(w, Cdr(w, x), fuel);
    var call := M.Call(M.Lambda(M.Fixed(names), [e]), vals);
    if r.Ok? {
      SimSteady(w, st, l, r.w, st, l1);
      ScopeKeeps(w, st, l, r.w, st, l1, scope, env);
      var l2 := EvalSim(r.w, st, l1, call, r.v, scope, env, fuel - 1);
      LetMeans(st, names, vals, e, scope, fuel);
      ShowsAfter(w, st, l, r.w, st, l1, M.Mean(st, call, scope, fuel - 1), Eval(r.w, r.v, env, fuel - 1), l2);
      l1 := l2;
    }
  }

  lemma LetMeans(st: M.Store, names: seq<nat>, vals: seq<M.Exp>, e: M.Exp, scope: nat, fuel: nat)
    requires fuel > 0
    ensures M.Mean(st, M.Let(names, vals, e), scope, fuel) == M.Mean(st, M.Call(M.Lambda(M.Fixed(names), [e]), vals), scope, fuel - 1)
  {
  }

  lemma {:induction false} ApplicationSim(w: World, st: M.Store, l: Layout, op: M.Exp, args: seq<M.Exp>, x: Val, scope: nat, env: Val,
                                          fuel: nat) returns (l1: Layout)
    requires Holds(w, st, l) && IsExp(w, l, M.Call(op, args), x) && InScope(st, l, scope, env) && fuel > 0
    ensures Shows(w, st, l, M.Mean(st, M.Call(op, args), scope, fuel), Application(w, x, env, fuel), l1)
    decreases fuel, 4
  {
    hide Holds, InScope, Sim, IsSym, Eval, Arguments, Apply, Steady, IsValue, ArgList, M.All, M.ApplyTo, Fresh;
    HdTl(w, l, x);
    ExpThere(w, st, l, op, Hd(w, x));
    NilExps(w, l, args, Tl(w, x));
    hide IsExp, IsExps;
    l1 := EvalSim(w, st, l, op, Hd(w, x), scope, env, fuel - 1);
    var r, m := Eval(w, Hd(w, x), env, fuel - 1), M.Mean(st, op, scope, fuel - 1);
    if r.Ok? && m.Done? {
      SimSteady(w, st, l, r.w, m.st, l1);
      ExpsKept(w, l, r.w, l1, args, Tl(w, x));
      ScopeKeeps(w, st, l, r.w, m.st, l1, scope, env);
      NoArgs(r.w, l1);
      SimSelf(r.w, m.st, l1);
      var l2, ids, xs := ArgsSim(r.w, m.st, l1, r.w, m.st, l1, args, Tl(w, x), scope, env, Nil, [], [], [], fuel);
      var a, vs := Arguments(r.w, Tl(w, x), env, Nil, fuel), M.All(m.st, args, scope, [], fuel);
      if a.Ok? && vs.Done? {
        SimTrans(w, st, l, r.w, m.st, l1, a.w, vs.st, l2);
        SimSteady(r.w, m.st, l1, a.w, vs.st, l2);
        ValueKept(r.w, l1, a.w, l2, m.v, r.v);
        l2 := ApplySim(r.w, m.st, l1, a.w, vs.st, l2, m.v, r.v, a.v, ids, xs, vs.v, fuel - 1);
        ShowsAfter(w, st, l, r.w, m.st, l1, M.ApplyTo(vs.st, m.v, vs.v, fuel - 1), Apply(a.w, r.v, a.v, fuel - 1), l2);
      }
      l1 := l2;
    }
  }

  lemma NoArgs(w: World, l: Layout)
    ensures ArgList(w, l, Nil, [], [], []) && Fresh(w, [])
  {
  }

  // ----- The interpreter and the meaning -----

  /** In this heap exp is the expression e, and env this scope of the store. */
  ghost predicate Represents(w: World, st: M.Store, l: Layout, e: M.Exp, exp: Val, scope: nat, env: Val) {
    Holds(w, st, l) && IsExp(w, l, e, exp) && InScope(st, l, scope, env)
  }

  /** The outcome r shows what the expression means, whatever expression and store the heap represents:
      the value, in a heap that holds the store at the end, or the error. */
  ghost predicate GivesMeaning(w: World, exp: Val, env: Val, r: Res<Val>) {
    forall st, l, e, scope | Represents(w, st, l, e, exp, scope, env) ::
      exists m, l1 :: M.Means(st, e, scope, m) && Shows(w, st, l, m, r, l1)
  }

  /** Every outcome of the reference interpreter is the meaning. */
  lemma {:induction false} InterpreterMeans(w: World, exp: Val, env: Val, r: Res<Val>)
    requires Evaluates(w, exp, env, r)
    ensures GivesMeaning(w, exp, env, r)
  {
    hide Holds, IsExp, IsValue, Eval, M.Mean, Later, SameKinds;
    var fuel :| Eval(w, exp, env, fuel) == r && r != Timeout;
    forall st, l, e, scope | Represents(w, st, l, e, exp, scope, env) ensures exists m, l1 :: M.Means(st, e, scope, m) && Shows(w, st, l, m, r, l1)
    {
      var l1 := EvalSim(w, st, l, e, exp, scope, env, fuel);
      var m := M.Mean(st, e, scope, fuel);
      assert M.Means(st, e, scope, m) && Shows(w, st, l, m, r, l1);
    }
  }

  // ----- The start -----

  /** main's first cells: an empty frame, and the global environment. */
  const START: World := World([Pair(Nil, Nil), Pair(Ref(0), Nil)], Nil, Ref(1))

  lemma StartHolds() returns (l: Layout)
    ensures Holds(START, [M.Scope([], M.Top)], l) && InScope([M.Scope([], M.Top)], l, 0, START.global)
  {
    l := Layout([1], [[]], [], [], [], map[1 := Object(0)]);
    assert NamesOf([]) == [];
    assert ObjectOk(START, [M.Scope([], M.Top)], l, 0);
  }

  /** One define of init: a name for nil or for a symbol. */
  function InitOne(w: World, name: nat, v: M.V, env: Val, fuel: nat): Res<Val>
    requires v.Empty? || v.Name?
  {
    match Getsym(w, name, fuel)
    case Ok(w1, x) =>
      if v.Empty? then Define(w1, x, Nil, env, fuel)
      else
        (match Getsym(w1, v.s, fuel)
         case Ok(w2, y) => Define(w2, x, y, env, fuel)
         case other => other)
    case other => other
  }

  /** It binds the name in the scope. */
  lemma InitSim(w: World, st: M.Store, l: Layout, scope: nat, name: nat, v: M.V, env: Val, fuel: nat) returns (l1: Layout)
    requires Holds(w, st, l) && InScope(st, l, scope, env) && (v.Empty? || v.Name?)
    ensures Shows(w, st, l, M.DefVar(st, name, v, scope), InitOne(w, name, v, env, fuel), l1)
  {
    hide Holds, Getsym, Define, Sim, IsSym, Steady, InScope;
    l1 := GetsymSim(w, st, l, name, fuel);
    var g := Getsym(w, name, fuel);
    if g.Ok? {
      SimSteady(w, st, l, g.w, st, l1);
      ScopeKeeps(w, st, l, g.w, st, l1, scope, env);
      var w2, l2, y := g.w, l1, Nil;
      if v.Name? {
        l2 := GetsymSim(g.w, st, l1, v.s, fuel);
        var h := Getsym(g.w, v.s, fuel);
        if h.Timeout? { return; }
        w2, y := h.w, h.v;
        SimTrans(w, st, l, g.w, st, l1, w2, st, l2);
        SimSteady(g.w, st, l1, w2, st, l2);
        SymKept(g.w, l1, w2, l2, name, g.v);
        ScopeKeeps(g.w, st, l1, w2, st, l2, scope, env);
      }
      l1 := DefineSim(w2, st, l2, scope, name, v, g.v, y, env, fuel);
      ShowsAfter(w, st, l, w2, st, l2, M.DefVar(st, name, v, scope), Define(w2, g.v, y, env, fuel), l1);
    }
  }
}
