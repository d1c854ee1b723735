/** The helpers of the interpreter, seen on the store: symbols, environments, procedures and let. */
module LispSim {
  import opened Collector
  import opened LispSpec
  import opened LispShape
  import opened LispMoves
  import M = LispMeaning

  // ----- What a step of the interpreter shows -----

  ghost predicate Sim(w0: World, st0: M.Store, l0: Layout, w1: World, st1: M.Store, l1: Layout) {
    Holds(w1, st1, l1) && Later(w0, l0, w1, l1) && SameKinds(st0, st1)
  }

  /** The interpreter's outcome is that of the meaning, or its bound was too small. */
  ghost predicate Shows(w0: World, st0: M.Store, l0: Layout, m: M.Out<M.V>, r: Res<Val>, l1: Layout) {
    match m
    case Done(st1, v) => r.Timeout? || (r.Ok? && Sim(w0, st0, l0, r.w, st1, l1) && IsValue(r.w, l1, v, r.v))
    case Error => r.Timeout? || r.Stuck?
    case Wild => true
    case More => r.Timeout?
  }

  lemma SimSelf(w: World, st: M.Store, l: Layout)
    requires Holds(w, st, l)
    ensures Sim(w, st, l, w, st, l)
  {
    hide Holds;
  }

  lemma SimTrans(w0: World, st0: M.Store, l0: Layout, w1: World, st1: M.Store, l1: Layout, w2: World, st2: M.Store, l2: Layout)
    requires Sim(w0, st0, l0, w1, st1, l1) && Sim(w1, st1, l1, w2, st2, l2)
    ensures Sim(w0, st0, l0, w2, st2, l2)
  {
    hide Holds, Later;
    LaterTrans(w0, l0, w1, l1, w2, l2);
  }

  lemma ShowsAfter(w0: World, st0: M.Store, l0: Layout, w1: World, st1: M.Store, l1: Layout, m: M.Out<M.V>, r: Res<Val>, l2: Layout)
    requires Sim(w0, st0, l0, w1, st1, l1) && Shows(w1, st1, l1, m, r, l2)
    ensures Shows(w0, st0, l0, m, r, l2)
  {
    hide Sim;
    if m.Done? && r.Ok? {
      SimTrans(w0, st0, l0, w1, st1, l1, r.w, m.st, l2);
    }
  }

  lemma SimSteady(w0: World, st0: M.Store, l0: Layout, w1: World, st1: M.Store, l1: Layout)
    requires Sim(w0, st0, l0, w1, st1, l1)
    ensures Holds(w1, st1, l1) && Steady(w0, l0, w1, l1)
  {
    hide Holds;
  }

  lemma ScopeKeeps(w0: World, st0: M.Store, l0: Layout, w1: World, st1: M.Store, l1: Layout, scope: nat, env: Val)
    requires Sim(w0, st0, l0, w1, st1, l1) && InScope(st0, l0, scope, env)
    ensures InScope(st1, l1, scope, env)
  {
    hide SymbolsOk, ObjectOk;
  }

  // ----- Cells read -----

  /** car and cdr of frozen lists. */
  lemma HdTl(w: World, l: Layout, x: Val)
    requires x == Nil || FrozenPair(w, l, x)
    ensures Car(w, x) == Hd(w, x) && Cdr(w, x) == Tl(w, x)
  {
  }

  /** A value is not Bad, and refers to a cell that is there. */
  lemma ValueThere(w: World, st: M.Store, l: Layout, v: M.V, x: Val)
    requires Holds(w, st, l) && IsValue(w, l, v, x)
    ensures x != Bad && (x.Ref? ==> x.id < |w.cells|)
  {
    if v.At? { assert ObjectOk(w, st, l, v.loc); }
  }

  lemma SymThere(w: World, st: M.Store, l: Layout, s: nat, x: Val)
    requires Holds(w, st, l) && IsSym(l, s, x)
    ensures IsLeaf(w, x, TAG_SYM) && w.cells[x.id] == Symbol(s) && !IsPair(w, x) && !FrozenPair(w, l, x)
  {
  }

  lemma ExpThere(w: World, st: M.Store, l: Layout, e: M.Exp, x: Val)
    requires Holds(w, st, l) && IsExp(w, l, e, x)
    ensures x != Bad && (x.Ref? ==> x.id < |w.cells|)
  {
    hide SymbolsOk, ObjectOk;
    if e.Var? { SymThere(w, st, l, e.s, x); }
  }

  /** Names and symbols correspond. */
  lemma OneSym(w: World, st: M.Store, l: Layout, s: nat, t: nat, x: Val, y: Val)
    requires Holds(w, st, l) && IsSym(l, s, x) && IsSym(l, t, y)
    ensures x == y <==> s == t
  {
    SymThere(w, st, l, s, x);
    SymThere(w, st, l, t, y);
  }

  // ----- Symbols -----

  /** The symbol among the known ones from place i on. */
  function SymIn(l: Layout, name: nat, i: nat): Val
    requires i <= |l.known| == |l.leaves|
    decreases |l.known| - i
  {
    if i == |l.known| then Nil else if l.known[i] == name then Ref(l.leaves[i]) else SymIn(l, name, i + 1)
  }

  lemma {:induction false} SymInIs(l: Layout, name: nat, i: nat)
    requires i <= |l.known| == |l.leaves|
    ensures SymIn(l, name, i) == Nil ==> forall k :: i <= k < |l.known| ==> l.known[k] != name
    ensures SymIn(l, name, i) != Nil ==> IsSym(l, name, SymIn(l, name, i))
    decreases |l.known| - i
  {
    if i < |l.known| && l.known[i] != name { SymInIs(l, name, i + 1); }
  }

  lemma {:induction false} FindSim(w: World, st: M.Store, l: Layout, name: nat, i: nat, fuel: nat)
    requires Holds(w, st, l) && i <= |l.known|
    ensures var r := Find(w, Link(l.spine, i), name, fuel); r.Timeout? || r == Ok(w, SymIn(l, name, i))
    decreases fuel
  {
    hide ObjectOk;
    if fuel > 0 && i < |l.known| {
      assert SpineOk(w, l, i);
      FindSim(w, st, l, name, i + 1, fuel - 1);
    }
  }

  lemma {:induction false} LastSim(w: World, st: M.Store, l: Layout, i: nat, fuel: nat)
    requires Holds(w, st, l) && i < |l.spine|
    ensures var r := Last(w, Ref(l.spine[i]), fuel); r.Timeout? || r == Ok(w, Ref(l.spine[|l.spine| - 1]))
    decreases fuel
  {
    hide ObjectOk;
    if fuel > 0 {
      assert SpineOk(w, l, i);
      if i + 1 < |l.spine| { LastSim(w, st, l, i + 1, fuel - 1); }
    }
  }

  /** getsym of a name not yet known. */
  lemma NewSim(w: World, st: M.Store, l: Layout, name: nat, fuel: nat)
    requires Holds(w, st, l) && name !in l.known
    ensures l.spine != [] ==> l.spine[|l.spine| - 1] < |w.cells| && w.cells[l.spine[|l.spine| - 1]].Pair?
    ensures var r := Append(LispSpec.Add(w, Symbol(name)), w.symbols, Next(w), fuel);
            r.Timeout? || (r.Ok? && r.w.(symbols := r.v) == WithSymbol(w, l, name))
  {
    hide ObjectOk;
    SpineCells(w, l);
    var w1 := LispSpec.Add(w, Symbol(name));
    if l.spine != [] {
      AddFrozen(w, st, l, Symbol(name));
      LastSim(w1, st, l, 0, fuel);
      assert SpineOk(w, l, |l.spine| - 1);
    }
  }

  lemma GetsymSim(w: World, st: M.Store, l: Layout, name: nat, fuel: nat) returns (l1: Layout)
    requires Holds(w, st, l)
    ensures var r := Getsym(w, name, fuel); r.Timeout? || (r.Ok? && Sim(w, st, l, r.w, st, l1) && IsSym(l1, name, r.v))
  {
    hide ObjectOk, Find, Append;
    l1 := l;
    FindSim(w, st, l, name, 0, fuel);
    SymInIs(l, name, 0);
    if SymIn(l, name, 0) == Nil {
      NewSim(w, st, l, name, fuel);
      NewSymbol(w, st, l, name);
      l1 := Learned(l, name, |w.cells|);
    } else {
      SimSelf(w, st, l);
    }
  }

  /** The chain of comparisons finds the first of the names that x is the symbol of. */
  lemma {:induction false} WhichSim(w: World, st: M.Store, l: Layout, x: Val, names: seq<nat>, k: nat, fuel: nat) returns (l1: Layout)
    requires Holds(w, st, l) && k <= |names|
    ensures var r := Which(w, x, names, k, fuel);
            if r.Timeout? then true
            else
              && r.Ok? && Sim(w, st, l, r.w, st, l1) && k <= r.v <= |names| && (r.v < |names| ==> IsSym(l1, names[r.v], x))
              && forall j :: k <= j < r.v ==> !IsSym(l1, names[j], x)
    decreases |names| - k
  {
    hide Holds, Getsym, Sim, IsSym;
    l1 := l;
    if k == |names| {
      SimSelf(w, st, l);
    } else {
      l1 := GetsymSim(w, st, l, names[k], fuel);
      var r := Getsym(w, names[k], fuel);
      if r.Ok? {
        SimSteady(w, st, l, r.w, st, l1);
        if x != r.v {
          var l2 := WhichSim(r.w, st, l1, x, names, k + 1, fuel);
          var r2 := Which(r.w, x, names, k + 1, fuel);
          if r2.Ok? {
            SimTrans(w, st, l, r.w, st, l1, r2.w, st, l2);
            SimSteady(r.w, st, l1, r2.w, st, l2);
            SymKept(r.w, l1, r2.w, l2, names[k], r.v);
            if IsSym(l2, names[k], x) { OneSym(r2.w, st, l2, names[k], names[k], x, r.v); }
          }
          l1 := l2;
        }
      }
    }
  }

  // ----- Environments -----

  lemma Sizes(w: World, st: M.Store, l: Layout)
    requires Holds(w, st, l)
    ensures |l.place| == |l.vals| == |st|
  {
  }

  /** The cell of a value and the one after it. */
  lemma ValueCell(w: World, st: M.Store, l: Layout, loc: nat, k: nat)
    requires Holds(w, st, l) && loc < |st| && st[loc].Scope? && k <= |st[loc].binds|
    ensures loc < |l.vals| && |l.vals[loc]| == |st[loc].binds|
    ensures k < |st[loc].binds| ==> IsPair(w, Link(l.vals[loc], k)) && Cdr(w, Link(l.vals[loc], k)) == Link(l.vals[loc], k + 1)
  {
    hide SymbolsOk, IsNames, IsSym;
    assert ObjectOk(w, st, l, loc);
    if k < |st[loc].binds| { assert ValueOk(w, l, loc, st[loc].binds, k); }
  }

  lemma {:induction false} InFrameSim(w: World, st: M.Store, l: Layout, loc: nat, k: nat, s: nat, x: Val, vars: Val, fuel: nat)
    requires Holds(w, st, l) && loc < |st| && st[loc].Scope? && k <= |st[loc].binds| && IsSym(l, s, x)
    requires loc < |l.vals| && IsNames(w, l, NamesOf(st[loc].binds)[k..], vars)
    ensures var r := InFrame(w, x, vars, Link(l.vals[loc], k), fuel);
            r.Timeout? || r == Ok(w, Link(l.vals[loc], k + M.Place(st[loc].binds[k..], s)))
    decreases fuel
  {
    hide Holds, IsSym, Steady, FrozenPair, Hd, Tl;
    var binds := st[loc].binds;
    var names := NamesOf(binds);
    ValueCell(w, st, l, loc, k);
    if fuel > 0 && k < |binds| {
      assert names[k..][0] == names[k] && names[k..][1..] == names[k + 1..];
      assert binds[k..][0] == binds[k] && binds[k..][1..] == binds[k + 1..];
      HdTl(w, l, vars);
      SymThere(w, st, l, names[k], Hd(w, vars));
      OneSym(w, st, l, s, names[k], x, Hd(w, vars));
      InFrameSim(w, st, l, loc, k + 1, s, x, Tl(w, vars), fuel - 1);
    }
  }

  /** A scope's cell: its frame and what it is in. */
  lemma ScopeCell(w: World, st: M.Store, l: Layout, scope: nat, env: Val)
    requires Holds(w, st, l) && InScope(st, l, scope, env)
    ensures IsPair(w, env) && FrozenPair(w, l, Car(w, env)) && Car(w, Car(w, env)) == Hd(w, Car(w, env))
    ensures IsNames(w, l, NamesOf(st[scope].binds), Car(w, Car(w, env))) && Cdr(w, Car(w, env)) == Link(l.vals[scope], 0)
    ensures IsUp(st, l, scope, st[scope].up, Cdr(w, env)) && w.cells[env.id] == Pair(Car(w, env), Cdr(w, env))
    ensures Car(w, Car(w, env)) != Bad && |l.vals[scope]| == |st[scope].binds|
  {
    hide SymbolsOk;
    assert ObjectOk(w, st, l, scope);
  }

  lemma {:induction false} InEnvSim(w: World, st: M.Store, l: Layout, scope: nat, s: nat, x: Val, env: Val, fuel: nat)
    requires Holds(w, st, l) && InScope(st, l, scope, env) && IsSym(l, s, x)
    ensures var r, at := InEnv(w, x, env, fuel), M.Seek(st, s, scope);
            r.Timeout? || if at.Nowhere? then r.Stuck? else at.k < |l.vals[at.scope]| && r == Ok(w, Ref(l.vals[at.scope][at.k]))
    decreases fuel
  {
    hide SymbolsOk, ObjectOk, IsSym, IsNames, FrozenPair, Hd, InFrame;
    if fuel > 0 {
      ScopeCell(w, st, l, scope, env);
      var binds := st[scope].binds;
      assert NamesOf(binds)[0..] == NamesOf(binds) && binds[0..] == binds;
      InFrameSim(w, st, l, scope, 0, s, x, Car(w, Car(w, env)), fuel);
      match st[scope].up {
        case Top => if fuel > 1 { assert InEnv(w, x, Nil, fuel - 1) == Stuck; }
        case Up(u) => InEnvSim(w, st, l, u, s, x, Cdr(w, env), fuel - 1);
      }
    }
  }

  lemma LookupSim(w: World, st: M.Store, l: Layout, scope: nat, s: nat, x: Val, env: Val, fuel: nat)
    requires Holds(w, st, l) && InScope(st, l, scope, env) && IsSym(l, s, x)
    ensures var r, at := Lookup(w, x, env, fuel), M.Seek(st, s, scope);
            r.Timeout? || if at.Nowhere? then r.Stuck? else r.Ok? && r.w == w && IsValue(w, l, st[at.scope].binds[at.k].v, r.v)
  {
    hide SymbolsOk, IsSym, IsNames, FrozenPair, Hd, InEnv;
    InEnvSim(w, st, l, scope, s, x, env, fuel);
    var at := M.Seek(st, s, scope);
    if at.Spot? {
      assert ObjectOk(w, st, l, at.scope) && ValueOk(w, l, at.scope, st[at.scope].binds, at.k);
      ValueThere(w, st, l, st[at.scope].binds[at.k].v, w.cells[l.vals[at.scope][at.k]].car);
    }
  }

  /** After a change to the store, getsym of ok. */
  lemma OkSim(w: World, st: M.Store, l: Layout, w1: World, st1: M.Store, l1: Layout, fuel: nat) returns (l2: Layout)
    requires Sim(w, st, l, w1, st1, l1)
    ensures Shows(w, st, l, M.Done(st1, M.Name(M.OK)), Getsym(w1, LispSpec.OK, fuel), l2)
  {
    hide Holds, Later, SameKinds, Getsym;
    l2 := GetsymSim(w1, st1, l1, LispSpec.OK, fuel);
    var r := Getsym(w1, LispSpec.OK, fuel);
    if r.Ok? { SimTrans(w, st, l, w1, st1, l1, r.w, st1, l2); }
  }

  lemma AssignSim(w: World, st: M.Store, l: Layout, scope: nat, s: nat, v: M.V, x: Val, y: Val, env: Val, fuel: nat) returns (l1: Layout)
    requires Holds(w, st, l) && InScope(st, l, scope, env) && IsSym(l, s, x) && IsValue(w, l, v, y)
    ensures Shows(w, st, l, M.SetVar(st, s, v, scope), Assign(w, x, y, env, fuel), l1)
  {
    hide Holds, IsSym, InEnv, Getsym, IsValue, Later, Steady, SameKinds;
    l1 := l;
    SymThere(w, st, l, s, x);
    ValueThere(w, st, l, v, y);
    InEnvSim(w, st, l, scope, s, x, env, fuel);
    var at := M.Seek(st, s, scope);
    Sizes(w, st, l);
    if at.Spot? && InEnv(w, x, env, fuel).Ok? {
      SetValue(w, st, l, at, v, y);
      var p := Ref(l.vals[at.scope][at.k]);
      l1 := OkSim(w, st, l, SetCar(w, p, y), M.Rebind(st, at, v), l, fuel);
    }
  }

  lemma DefineSim(w: World, st: M.Store, l: Layout, scope: nat, s: nat, v: M.V, x: Val, y: Val, env: Val, fuel: nat) returns (l1: Layout)
    requires Holds(w, st, l) && InScope(st, l, scope, env) && IsSym(l, s, x) && IsValue(w, l, v, y)
    ensures Shows(w, st, l, M.DefVar(st, s, v, scope), Define(w, x, y, env, fuel), l1)
  {
    hide Holds, IsSym, InFrame, Getsym, IsValue, IsNames, FrozenPair, Later, Steady, SameKinds;
    l1 := l;
    SymThere(w, st, l, s, x);
    ValueThere(w, st, l, v, y);
    Sizes(w, st, l);
    ScopeCell(w, st, l, scope, env);
    var binds := st[scope].binds;
    assert NamesOf(binds)[0..] == NamesOf(binds) && binds[0..] == binds;
    InFrameSim(w, st, l, scope, 0, s, x, Car(w, Car(w, env)), fuel);
    var k := M.Place(binds, s);
    if k < |binds| {
      SetValue(w, st, l, M.Spot(scope, k), v, y);
      var p := Ref(l.vals[scope][k]);
      if InFrame(w, x, Car(w, Car(w, env)), Cdr(w, Car(w, env)), fuel).Ok? {
        l1 := OkSim(w, st, l, SetCar(w, p, y), M.Rebind(st, M.Spot(scope, k), v), l, fuel);
      }
    } else {
      l1 := BindSim(w, st, l, scope, s, v, x, y, env, fuel);
    }
  }

  lemma BindSim(w: World, st: M.Store, l: Layout, scope: nat, s: nat, v: M.V, x: Val, y: Val, env: Val, fuel: nat) returns (l1: Layout)
    requires Holds(w, st, l) && InScope(st, l, scope, env) && IsSym(l, s, x) && IsValue(w, l, v, y)
    ensures var st1 := st[scope := st[scope].(binds := [M.Bind(s, v)] + st[scope].binds)];
            Shows(w, st, l, M.Done(st1, M.Name(M.OK)), Bind(w, x, y, env, Car(w, Car(w, env)), Cdr(w, Car(w, env)), fuel), l1)
  {
    hide Holds, IsSym, Getsym, IsValue, IsNames, Later, Steady, SameKinds;
    ScopeCell(w, st, l, scope, env);
    Sizes(w, st, l);
    BindNew(w, st, l, scope, s, v, x, y);
    var n, c := |w.cells|, w.cells[env.id];
    HdTl(w, l, c.car);
    var more := w.cells + [Pair(x, Hd(w, c.car)), Pair(y, Tl(w, c.car)), Pair(Ref(n), Ref(n + 1))];
    var w1 := w.(cells := more[env.id := Pair(Ref(n + 2), c.cdr)]);
    var st1 := st[scope := st[scope].(binds := [M.Bind(s, v)] + st[scope].binds)];
    var l2 := l.(vals := l.vals[scope := [n + 1] + l.vals[scope]], owner := l.owner[n + 1 := Value(scope)]);
    BindWorld(w, x, y, env);
    l1 := OkSim(w, st, l, w1, st1, l2, fuel);
  }

  lemma BindWorld(w: World, x: Val, y: Val, env: Val)
    requires IsPair(w, env)
    ensures var n, vars, vals := |w.cells|, Car(w, Car(w, env)), Cdr(w, Car(w, env));
            var w1 := LispSpec.Add(w, Pair(x, vars));
            var w2 := LispSpec.Add(w1, Pair(y, vals));
            var w3 := LispSpec.Add(w2, Pair(Next(w), Next(w1)));
            var more := w.cells + [Pair(x, vars), Pair(y, vals), Pair(Ref(n), Ref(n + 1))];
            IsPair(w3, env) && SetCar(w3, env, Next(w2)) == w.(cells := more[env.id := Pair(Ref(n + 2), w.cells[env.id].cdr)])
  {
  }

  // ----- Procedures -----

  /** The three cells after the word procedure. */
  lemma ClosureCells(w: World, st: M.Store, l: Layout, params: M.Params, body: seq<M.Exp>, scope: nat, px: Val, bx: Val, env: Val)
    requires Holds(w, st, l) && InScope(st, l, scope, env) && IsParams(w, l, params, px) && IsExps(w, l, body, bx)
    ensures var w2 := LispSpec.Add(w, Pair(env, Nil));
            var w3 := LispSpec.Add(w2, Pair(bx, Next(w)));
            var w4, x := LispSpec.Add(w3, Pair(px, Next(w2))), Next(w3);
            && Sim(w, st, l, w4, st, l)
            && FrozenPair(w4, l, x) && FrozenPair(w4, l, Tl(w4, x)) && FrozenPair(w4, l, Tl(w4, Tl(w4, x)))
            && IsParams(w4, l, params, Item(w4, x, 0)) && IsExps(w4, l, body, Item(w4, x, 1)) && Item(w4, x, 2) == env
  {
    hide Holds, Later, IsParams, IsExps;
    var w2 := LispSpec.Add(w, Pair(env, Nil));
    var w3 := LispSpec.Add(w2, Pair(bx, Next(w)));
    var w4 := LispSpec.Add(w3, Pair(px, Next(w2)));
    AddFrozen(w, st, l, Pair(env, Nil));
    AddFrozen(w2, st, l, Pair(bx, Next(w)));
    AddFrozen(w3, st, l, Pair(px, Next(w2)));
    LaterTrans(w, l, w2, l, w3, l);
    LaterTrans(w, l, w3, l, w4, l);
    SimSteady(w, st, l, w4, st, l);
    ParamsKept(w, l, w4, l, params, px);
    ExpsKept(w, l, w4, l, body, bx);
    var x, y, z := Next(w3), Next(w2), Next(w);
    assert w4.cells[x.id] == Pair(px, y) && w4.cells[y.id] == Pair(bx, z) && w4.cells[z.id] == Pair(env, Nil);
    assert Tl(w4, x) == y && Tl(w4, y) == z;
    assert Item(w4, x, 1) == Item(w4, y, 0) && Item(w4, x, 2) == Item(w4, y, 1) == Item(w4, z, 0);
  }

  lemma ClosureSim(w: World, st: M.Store, l: Layout, params: M.Params, body: seq<M.Exp>, scope: nat, px: Val, bx: Val, env: Val,
                   fuel: nat) returns (l1: Layout)
    requires Holds(w, st, l) && InScope(st, l, scope, env) && IsParams(w, l, params, px) && IsExps(w, l, body, bx)
    ensures Shows(w, st, l, M.Done(st + [M.Proc(params, body, scope)], M.At(|st|)), Closure(w, px, bx, env, fuel), l1)
  {
    hide Holds, Later, IsParams, IsExps, FrozenPair, Hd, Tl, Getsym, InScope, IsSym, SameKinds;
    ListThere(w, st, l, params, body, px, bx);
    l1 := GetsymSim(w, st, l, PROCEDURE, fuel);
    var r := Getsym(w, PROCEDURE, fuel);
    if r.Ok? {
      SimSteady(w, st, l, r.w, st, l1);
      ParamsKept(w, l, r.w, l1, params, px);
      ExpsKept(w, l, r.w, l1, body, bx);
      ScopeKeeps(w, st, l, r.w, st, l1, scope, env);
      ClosureCells(r.w, st, l1, params, body, scope, px, bx, env);
      var w2 := LispSpec.Add(r.w, Pair(env, Nil));
      var w3 := LispSpec.Add(w2, Pair(bx, Next(r.w)));
      var w4, x := LispSpec.Add(w3, Pair(px, Next(w2))), Next(w3);
      SimSteady(r.w, st, l1, w4, st, l1);
      SymKept(r.w, l1, w4, l1, PROCEDURE, r.v);
      NewProc(w4, st, l1, params, body, scope, r.v, x);
      SimTrans(w, st, l, r.w, st, l1, w4, st, l1);
      var w5, st5, l5 := LispSpec.Add(w4, Pair(r.v, x)), st + [M.Proc(params, body, scope)], Placed(l1, |w4.cells|, []);
      SimTrans(w, st, l, w4, st, l1, w5, st5, l5);
      l1 := l5;
    }
  }

  lemma ListThere(w: World, st: M.Store, l: Layout, params: M.Params, body: seq<M.Exp>, px: Val, bx: Val)
    requires Holds(w, st, l) && IsParams(w, l, params, px) && IsExps(w, l, body, bx)
    ensures px != Bad && bx != Bad
  {
    hide Holds;
  }

  // ----- Appending -----

  lemma {:induction false} LastChain(w: World, l: Layout, x: Val, ids: seq<nat>, xs: seq<Val>, i: nat, fuel: nat)
    requires Chain(w, l, x, ids, xs) && i < |ids|
    ensures var r := Last(w, Ref(ids[i]), fuel); r.Timeout? || r == Ok(w, Ref(ids[|ids| - 1]))
    decreases fuel
  {
    assert ChainAt(w, l, ids, xs, i);
    if fuel > 0 && i + 1 < |ids| { LastChain(w, l, x, ids, xs, i + 1, fuel - 1); }
  }

  /** One element more; n is where the list's cells begin. */
  lemma AppendSim(w: World, st: M.Store, l: Layout, q: Val, ids: seq<nat>, xs: seq<Val>, x: Val, n: nat, fuel: nat)
    requires Holds(w, st, l) && Chain(w, l, q, ids, xs) && x != Bad && n <= |w.cells| && forall i :: 0 <= i < |ids| ==> ids[i] >= n
    ensures var r, l1 := Append(w, q, x, fuel), Using(l, |w.cells|, Temp);
            r.Timeout? ||
            (r.Ok? && Holds(r.w, st, l1) && Steady(w, l, r.w, l1) && Above(n, w, l, r.w, l1) && |r.w.cells| == |w.cells| + 1
             && Chain(r.w, l1, r.v, ids + [|w.cells|], xs + [x])
             && forall id: nat :: id < |w.cells| && id !in ids ==> r.w.cells[id] == w.cells[id])
  {
    hide Holds;
    var c := Pair(x, Nil);
    var w1, l1 := LispSpec.Add(w, c), Using(l, |w.cells|, Temp);
    AddTemp(w, st, l, c);
    if ids == [] {
    } else {
      LastChain(w, l, q, ids, xs, 0, fuel);
      var last := ids[|ids| - 1];
      assert ChainAt(w, l, ids, xs, |ids| - 1);
      SetTemp(w1, st, l1, last, Pair(w.cells[last].car, Next(w)));
      var w2 := w1.(cells := w1.cells[last := Pair(w.cells[last].car, Next(w))]);
      AppendChain(w, l, q, ids, xs, x, w2, l1);
    }
  }

  lemma AppendChain(w: World, l: Layout, q: Val, ids: seq<nat>, xs: seq<Val>, x: Val, w2: World, l1: Layout)
    requires Chain(w, l, q, ids, xs) && ids != [] && l1 == Using(l, |w.cells|, Temp)
    requires ids[|ids| - 1] < |w.cells| && w.cells[ids[|ids| - 1]].Pair?
    requires w2.cells == (w.cells + [Pair(x, Nil)])[ids[|ids| - 1] := Pair(w.cells[ids[|ids| - 1]].car, Next(w))]
    ensures Chain(w2, l1, q, ids + [|w.cells|], xs + [x])
  {
    var more, ys := ids + [|w.cells|], xs + [x];
    forall i: nat | i < |ids| ensures ids[i] < |w.cells| {
      assert ChainAt(w, l, ids, xs, i);
    }
    forall i: nat | i < |more| ensures ChainAt(w2, l1, more, ys, i) {
      if i < |ids| { assert ChainAt(w, l, ids, xs, i); }
    }
  }

  /** Another list stays while one grows. */
  lemma ChainOther(w: World, l: Layout, w1: World, x: Val, ids: seq<nat>, xs: seq<Val>, mine: seq<nat>)
    requires Chain(w, l, x, ids, xs) && |w1.cells| >= |w.cells| && forall i :: 0 <= i < |ids| ==> ids[i] !in mine
    requires forall id: nat :: id < |w.cells| && id !in mine ==> w1.cells[id] == w.cells[id]
    ensures Chain(w1, Using(l, |w.cells|, Temp), x, ids, xs)
  {
    forall i: nat | i < |ids| ensures ChainAt(w1, Using(l, |w.cells|, Temp), ids, xs, i) {
      assert ChainAt(w, l, ids, xs, i);
    }
  }

  // ----- Finished lists -----

  /** A list in cells that no longer change. */
  ghost predicate Settled(w: World, l: Layout, ids: seq<nat>, xs: seq<Val>) {
    |ids| == |xs| && forall i: nat :: i < |ids| ==> SettledAt(w, l, ids, xs, i)
  }

  predicate SettledAt(w: World, l: Layout, ids: seq<nat>, xs: seq<Val>, i: nat)
    requires i < |ids| == |xs|
  {
    Frozen(w, l, ids[i]) && w.cells[ids[i]] == Pair(xs[i], Link(ids, i + 1))
  }

  lemma Settle(w: World, l: Layout, x: Val, ids: seq<nat>, xs: seq<Val>, all: set<nat>)
    requires Chain(w, l, x, ids, xs) && forall i :: 0 <= i < |ids| ==> ids[i] in all
    ensures Settled(w, Freed(l, all), ids, xs)
  {
    forall i: nat | i < |ids| ensures SettledAt(w, Freed(l, all), ids, xs, i) {
      assert ChainAt(w, l, ids, xs, i);
    }
  }

  lemma {:induction false} SettledNames(w: World, l: Layout, ids: seq<nat>, xs: seq<Val>, names: seq<nat>, i: nat)
    requires Settled(w, l, ids, xs) && |names| == |xs| && i <= |ids| && forall k :: 0 <= k < |xs| ==> IsSym(l, names[k], xs[k])
    ensures IsNames(w, l, names[i..], Link(ids, i))
    decreases |ids| - i
  {
    hide IsSym;
    if i < |ids| {
      assert SettledAt(w, l, ids, xs, i);
      assert names[i..][0] == names[i] && names[i..][1..] == names[i + 1..];
      SettledNames(w, l, ids, xs, names, i + 1);
    }
  }

  lemma {:induction false} SettledExps(w: World, l: Layout, ids: seq<nat>, xs: seq<Val>, es: seq<M.Exp>, i: nat)
    requires Settled(w, l, ids, xs) && |es| == |xs| && i <= |ids| && forall k :: 0 <= k < |xs| ==> IsExp(w, l, es[k], xs[k])
    ensures IsExps(w, l, es[i..], Link(ids, i))
    decreases |ids| - i
  {
    hide IsExp;
    if i < |ids| {
      assert SettledAt(w, l, ids, xs, i);
      assert es[i..][0] == es[i] && es[i..][1..] == es[i + 1..];
      SettledExps(w, l, ids, xs, es, i + 1);
    }
  }
}
