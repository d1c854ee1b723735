/** let2lambda of lisp/lisp.c: the list it builds is the call of a lambda that let stands for. */
module LispLet {
  import opened Collector
  import opened LispSpec
  import opened LispShape
  import opened LispMoves
  import opened LispSim
  import M = LispMeaning

  /** Since (w0, l0) two lists have been begun: a of the symbols of these names, and v of these
      expressions. */
  datatype Lists = Lists(a: Val, ia: seq<nat>, xa: seq<Val>, v: Val, iv: seq<nat>, xv: seq<Val>)

  ghost predicate Gathered(w0: World, l0: Layout, w: World, st: M.Store, l: Layout, s: Lists, names: seq<nat>, es: seq<M.Exp>) {
    && Holds(w, st, l) && Later(w0, l0, w, l) && Chain(w, l, s.a, s.ia, s.xa) && Chain(w, l, s.v, s.iv, s.xv)
    && (forall i :: 0 <= i < |s.ia| ==> s.ia[i] >= |w0.cells|) && (forall i :: 0 <= i < |s.iv| ==> s.iv[i] >= |w0.cells|)
    && (forall i, j :: 0 <= i < |s.ia| && 0 <= j < |s.iv| ==> s.ia[i] != s.iv[j])
    && AreSyms(l, names, s.xa) && AreExps(w, l, es, s.xv)
  }

  ghost predicate AreSyms(l: Layout, names: seq<nat>, xs: seq<Val>) {
    |names| == |xs| && forall i :: 0 <= i < |names| ==> IsSym(l, names[i], xs[i])
  }

  ghost predicate AreExps(w: World, l: Layout, es: seq<M.Exp>, xs: seq<Val>) {
    |es| == |xs| && forall i :: 0 <= i < |es| ==> IsExp(w, l, es[i], xs[i])
  }

  lemma AllKept(w0: World, l0: Layout, w1: World, l1: Layout, names: seq<nat>, xa: seq<Val>, es: seq<M.Exp>, xv: seq<Val>)
    requires Steady(w0, l0, w1, l1) && AreSyms(l0, names, xa) && AreExps(w0, l0, es, xv)
    ensures AreSyms(l1, names, xa) && AreExps(w1, l1, es, xv)
  {
    hide Steady, IsSym, IsExp;
    forall i | 0 <= i < |names| ensures IsSym(l1, names[i], xa[i]) {
      SymKept(w0, l0, w1, l1, names[i], xa[i]);
    }
    forall i | 0 <= i < |es| ensures IsExp(w1, l1, es[i], xv[i]) {
      ExpKept(w0, l0, w1, l1, es[i], xv[i]);
    }
  }

  /** One name more. */
  lemma GatherName(w0: World, l0: Layout, w: World, st: M.Store, l: Layout, s: Lists, names: seq<nat>, es: seq<M.Exp>,
                   n: nat, x: Val, fuel: nat)
    requires Gathered(w0, l0, w, st, l, s, names, es) && IsSym(l, n, x)
    ensures var r, l1 := Append(w, s.a, x, fuel), Using(l, |w.cells|, Temp);
            r.Timeout? ||
            (r.Ok? && Steady(w, l, r.w, l1)
             && Gathered(w0, l0, r.w, st, l1, s.(a := r.v, ia := s.ia + [|w.cells|], xa := s.xa + [x]), names + [n], es))
  {
    hide Holds, IsSym, IsExp, Append, Chain, Steady, Later, Above;
    Bounds(w0, l0, w, st, l, s, names, es);
    SymThere(w, st, l, n, x);
    AppendSim(w, st, l, s.a, s.ia, s.xa, x, |w0.cells|, fuel);
    var r, l1 := Append(w, s.a, x, fuel), Using(l, |w.cells|, Temp);
    if r.Ok? {
      LaterAbove(w0, l0, w, l, r.w, l1);
      ChainOther(w, l, r.w, s.v, s.iv, s.xv, s.ia);
      AllKept(w, l, r.w, l1, names, s.xa, es, s.xv);
      SymKept(w, l, r.w, l1, n, x);
    }
  }

  /** One expression more. */
  lemma GatherExp(w0: World, l0: Layout, w: World, st: M.Store, l: Layout, s: Lists, names: seq<nat>, es: seq<M.Exp>,
                  e: M.Exp, x: Val, fuel: nat)
    requires Gathered(w0, l0, w, st, l, s, names, es) && IsExp(w, l, e, x)
    ensures var r, l1 := Append(w, s.v, x, fuel), Using(l, |w.cells|, Temp);
            r.Timeout? ||
            (r.Ok? && Steady(w, l, r.w, l1)
             && Gathered(w0, l0, r.w, st, l1, s.(v := r.v, iv := s.iv + [|w.cells|], xv := s.xv + [x]), names, es + [e]))
  {
    hide Holds, IsSym, IsExp, Append, Chain, Steady, Later, Above;
    Bounds(w0, l0, w, st, l, s, names, es);
    ExpThere(w, st, l, e, x);
    AppendSim(w, st, l, s.v, s.iv, s.xv, x, |w0.cells|, fuel);
    var r, l1 := Append(w, s.v, x, fuel), Using(l, |w.cells|, Temp);
    if r.Ok? {
      LaterAbove(w0, l0, w, l, r.w, l1);
      ChainOther(w, l, r.w, s.a, s.ia, s.xa, s.iv);
      AllKept(w, l, r.w, l1, names, s.xa, es, s.xv);
      ExpKept(w, l, r.w, l1, e, x);
    }
  }

  lemma Bounds(w0: World, l0: Layout, w: World, st: M.Store, l: Layout, s: Lists, names: seq<nat>, es: seq<M.Exp>)
    requires Gathered(w0, l0, w, st, l, s, names, es)
    ensures |w0.cells| <= |w.cells|
    ensures forall i :: 0 <= i < |s.ia| ==> s.ia[i] < |w.cells|
    ensures forall i :: 0 <= i < |s.iv| ==> s.iv[i] < |w.cells|
  {
    hide Holds, IsSym, IsExp;
    forall i: nat | i < |s.ia| ensures s.ia[i] < |w.cells| {
      assert ChainAt(w, l, s.ia, s.xa, i);
    }
    forall i: nat | i < |s.iv| ensures s.iv[i] < |w.cells| {
      assert ChainAt(w, l, s.iv, s.xv, i);
    }
  }

  lemma {:induction false} BindingsSim(w0: World, l0: Layout, w: World, st: M.Store, l: Layout, s: Lists, names: seq<nat>, es: seq<M.Exp>,
                                       ns: seq<nat>, vs: seq<M.Exp>, x: Val, fuel: nat) returns (s1: Lists, l1: Layout)
    requires Gathered(w0, l0, w, st, l, s, names, es) && |ns| == |vs| && AreBindings(w, l, ns, vs, x)
    ensures var r := Bindings(w, x, s.a, s.v, fuel);
            r.Timeout? ||
            (r.Ok? && r.v == (s1.a, s1.v) && Gathered(w0, l0, r.w, st, l1, s1, names + ns, es + vs) && Steady(w, l, r.w, l1))
    decreases fuel
  {
    hide Holds, IsSym, IsExp, Append, Chain, Steady, Later, Gathered;
    s1, l1 := s, l;
    if fuel > 0 {
      if vs == [] {
        assert names + ns == names && es + vs == es;
        SteadySelf(w, l);
      } else {
        var s2, l2 := BindingSim(w0, l0, w, st, l, s, names, es, ns, vs, x, fuel);
        var r := Binding(w, x, s.a, s.v, fuel);
        if r.Ok? {
          BindingsKept(w, l, r.w, l2, ns, vs, x);
          HdTl(r.w, l2, x);
          ListNotBad(r.w, l2, ns[1..], vs[1..], Tl(r.w, x));
          s1, l1 := BindingsSim(w0, l0, r.w, st, l2, s2, names + [ns[0]], es + [vs[0]], ns[1..], vs[1..], Tl(r.w, x), fuel - 1);
          assert names + [ns[0]] + ns[1..] == names + ns && es + [vs[0]] + vs[1..] == es + vs;
          var r2 := Bindings(r.w, Tl(r.w, x), s2.a, s2.v, fuel - 1);
          if r2.Ok? { SteadyTrans(w, l, r.w, l2, r2.w, l1); }
        }
      }
    }
  }

  lemma ListNotBad(w: World, l: Layout, ns: seq<nat>, vs: seq<M.Exp>, x: Val)
    requires |ns| == |vs| && AreBindings(w, l, ns, vs, x)
    ensures x != Bad
  {
  }

  lemma SteadySelf(w: World, l: Layout)
    ensures Steady(w, l, w, l)
  {
  }

  lemma SteadyTrans(w0: World, l0: Layout, w1: World, l1: Layout, w2: World, l2: Layout)
    requires Steady(w0, l0, w1, l1) && Steady(w1, l1, w2, l2)
    ensures Steady(w0, l0, w2, l2)
  {
  }

  lemma BindingSim(w0: World, l0: Layout, w: World, st: M.Store, l: Layout, s: Lists, names: seq<nat>, es: seq<M.Exp>,
                   ns: seq<nat>, vs: seq<M.Exp>, x: Val, fuel: nat) returns (s1: Lists, l1: Layout)
    requires Gathered(w0, l0, w, st, l, s, names, es) && |ns| == |vs| > 0 && AreBindings(w, l, ns, vs, x)
    ensures var r := Binding(w, x, s.a, s.v, fuel);
            r.Timeout? ||
            (r.Ok? && r.v == (s1.a, s1.v) && Gathered(w0, l0, r.w, st, l1, s1, names + [ns[0]], es + [vs[0]]) && Steady(w, l, r.w, l1))
  {
    hide Holds, IsSym, IsExp, Append, Chain, Steady, Later, Gathered, FrozenPair, Hd, Tl;
    s1, l1 := s, l;
    var b := Hd(w, x);
    BindingCells(w, l, ns, vs, x);
    GatherName(w0, l0, w, st, l, s, names, es, ns[0], Hd(w, b), fuel);
    var r := Append(w, s.a, Hd(w, b), fuel);
    if r.Ok? {
      var l2 := Using(l, |w.cells|, Temp);
      var s2 := s.(a := r.v, ia := s.ia + [|w.cells|], xa := s.xa + [Hd(w, b)]);
      BindingsKept(w, l, r.w, l2, ns, vs, x);
      BindingCells(r.w, l2, ns, vs, x);
      var y := Item(r.w, Hd(r.w, x), 1);
      GatherExp(w0, l0, r.w, st, l2, s2, names + [ns[0]], es, vs[0], y, fuel);
      var r2 := Append(r.w, s2.v, y, fuel);
      if r2.Ok? {
        s1 := s2.(v := r2.v, iv := s2.iv + [|r.w.cells|], xv := s2.xv + [y]);
        l1 := Using(l2, |r.w.cells|, Temp);
        SteadyTrans(w, l, r.w, l2, r2.w, l1);
      }
    }
  }

  lemma BindingCells(w: World, l: Layout, ns: seq<nat>, vs: seq<M.Exp>, x: Val)
    requires |ns| == |vs| > 0 && AreBindings(w, l, ns, vs, x)
    ensures Car(w, Car(w, x)) == Hd(w, Hd(w, x)) && Cadr(w, Car(w, x)) == Item(w, Hd(w, x), 1)
    ensures IsSym(l, ns[0], Hd(w, Hd(w, x))) && IsExp(w, l, vs[0], Item(w, Hd(w, x), 1))
  {
    hide IsSym, IsExp;
    var b := Hd(w, x);
    assert Row(w, l, Tl(w, b), 1);
    assert Item(w, b, 1) == Item(w, Tl(w, b), 0);
  }

  // ----- The call -----

  /** (lambda names e). */
  lemma RedexSim(w0: World, l0: Layout, w: World, st: M.Store, l: Layout, s: Lists, names: seq<nat>, vs: seq<M.Exp>,
                 e: M.Exp, body: Val, fuel: nat) returns (l1: Layout)
    requires Gathered(w0, l0, w, st, l, s, names, vs) && (body == Nil || FrozenPair(w, l, body)) && IsExp(w, l, e, Hd(w, body))
    ensures var r := Redex(w, s.a, s.v, body, fuel);
            r.Timeout? ||
            (r.Ok? && Holds(r.w, st, l1) && Later(w0, l0, r.w, l1) && IsExp(r.w, l1, M.Call(M.Lambda(M.Fixed(names), [e]), vs), r.v))
  {
    hide Holds, IsSym, IsExp, Append, Chain, Steady, Later, Above, Getsym, FrozenPair, Hd, Tl;
    l1 := GetsymSim(w, st, l, LAMBDA, fuel);
    var g := Getsym(w, LAMBDA, fuel);
    if g.Ok? {
      var w1 := g.w;
      GatheredLater(w0, l0, w, st, l, s, names, vs, w1, l1);
      Bounds(w0, l0, w1, st, l1, s, names, vs);
      SimSteady(w, st, l, w1, st, l1);
      KeptBody(w, l, w1, l1, e, body);
      var n := |w1.cells|;
      var none: seq<nat>, no: seq<Val> := [], [];
      assert Chain(w1, l1, Nil, none, no) by { EmptyChain(w1, l1); }
      SymThere(w1, st, l1, LAMBDA, g.v);
      AppendSim(w1, st, l1, Nil, none, no, g.v, n, fuel);
      var a := Append(w1, Nil, g.v, fuel);
      if a.Ok? {
        var l2 := Using(l1, n, Temp);
        ChainThere(w1, l1, s.a, s.ia, s.xa);
        AppendSim(a.w, st, l2, a.v, none + [n], no + [g.v], s.a, n, fuel);
        var b := Append(a.w, a.v, s.a, fuel);
        if b.Ok? {
          var l3 := Using(l2, n + 1, Temp);
          SteadyTrans(w1, l1, a.w, l2, b.w, l3);
          KeptBody(w1, l1, b.w, l3, e, body);
          HdTl(b.w, l3, body);
          ExpThere(b.w, st, l3, e, Hd(b.w, body));
          AppendSim(b.w, st, l3, b.v, none + [n] + [n + 1], no + [g.v] + [s.a], Hd(b.w, body), n, fuel);
          var c := Append(b.w, b.v, Hd(b.w, body), fuel);
          if c.Ok? {
            var l4 := Using(l3, n + 2, Temp);
            assert none + [n] + [n + 1] + [n + 2] == [n, n + 1, n + 2];
            assert no + [g.v] + [s.a] + [Hd(b.w, body)] == [g.v, s.a, Hd(b.w, body)];
            ThreeAbove(n, w1, l1, a.w, l2, b.w, l3, c.w, l4);
            ChainAbove(w1, l1, c.w, l4, s.a, s.ia, s.xa);
            ChainAbove(w1, l1, c.w, l4, s.v, s.iv, s.xv);
            SteadyTrans(w1, l1, b.w, l3, c.w, l4);
            AllKept(w1, l1, c.w, l4, names, s.xa, vs, s.xv);
            AboveLess(|w0.cells|, n, w1, l1, c.w, l4);
            LaterAbove(w0, l0, w1, l1, c.w, l4);
            ExpKept(b.w, l3, c.w, l4, e, Hd(b.w, body));
            SymKept(w1, l1, c.w, l4, LAMBDA, g.v);
            ChainThere(c.w, l4, c.v, [n, n + 1, n + 2], [g.v, s.a, Hd(b.w, body)]);
            ChainThere(c.w, l4, s.v, s.iv, s.xv);
            l1 := RedexDone(w0, l0, c.w, st, l4, s, names, vs, e, c.v, n, g.v, Hd(b.w, body));
          }
        }
      }
    }
  }

  lemma EmptyChain(w: World, l: Layout)
    ensures Chain(w, l, Nil, [], [])
  {
  }

  lemma ChainThere(w: World, l: Layout, x: Val, ids: seq<nat>, xs: seq<Val>)
    requires Chain(w, l, x, ids, xs)
    ensures x != Bad && x == Link(ids, 0)
  {
  }

  lemma KeptBody(w: World, l: Layout, w1: World, l1: Layout, e: M.Exp, body: Val)
    requires Steady(w, l, w1, l1) && (body == Nil || FrozenPair(w, l, body)) && IsExp(w, l, e, Hd(w, body))
    ensures (body == Nil || FrozenPair(w1, l1, body)) && Hd(w1, body) == Hd(w, body) && IsExp(w1, l1, e, Hd(w1, body))
  {
    hide Steady, IsExp, FrozenPair;
    if body != Nil { PairKept(w, l, w1, l1, body); }
    ExpKept(w, l, w1, l1, e, Hd(w, body));
  }

  lemma GatheredLater(w0: World, l0: Layout, w: World, st: M.Store, l: Layout, s: Lists, names: seq<nat>, es: seq<M.Exp>, w1: World, l1: Layout)
    requires Gathered(w0, l0, w, st, l, s, names, es) && Sim(w, st, l, w1, st, l1)
    ensures Gathered(w0, l0, w1, st, l1, s, names, es)
  {
    hide Holds, IsSym, IsExp, Chain, Steady, Later, AreSyms, AreExps;
    LaterTrans(w0, l0, w, l, w1, l1);
    SimSteady(w, st, l, w1, st, l1);
    ChainKept(w, l, w1, l1, s.a, s.ia, s.xa);
    ChainKept(w, l, w1, l1, s.v, s.iv, s.xv);
    AllKept(w, l, w1, l1, names, s.xa, es, s.xv);
  }

  lemma ThreeAbove(n: nat, w0: World, l0: Layout, w1: World, l1: Layout, w2: World, l2: Layout, w3: World, l3: Layout)
    requires n == |w0.cells| && Above(n, w0, l0, w1, l1) && Above(n, w1, l1, w2, l2) && Above(n, w2, l2, w3, l3)
    ensures Above(n, w0, l0, w3, l3)
  {
  }

  lemma AboveLess(m: nat, n: nat, w: World, l: Layout, w1: World, l1: Layout)
    requires m <= n && Above(n, w, l, w1, l1)
    ensures Above(m, w, l, w1, l1)
  {
  }

  lemma ChainAbove(w: World, l: Layout, w1: World, l1: Layout, x: Val, ids: seq<nat>, xs: seq<Val>)
    requires Chain(w, l, x, ids, xs) && Above(|w.cells|, w, l, w1, l1)
    ensures Chain(w1, l1, x, ids, xs)
  {
    forall i: nat | i < |ids| ensures ChainAt(w1, l1, ids, xs, i) {
      assert ChainAt(w, l, ids, xs, i);
    }
  }

  function Cells(ids: seq<nat>): set<nat> { set i | 0 <= i < |ids| :: ids[i] }

  /** The last cons; the cells of the lists are settled. */
  lemma RedexDone(w0: World, l0: Layout, w: World, st: M.Store, l: Layout, s: Lists, names: seq<nat>, vs: seq<M.Exp>,
                  e: M.Exp, q: Val, n: nat, x: Val, y: Val) returns (l1: Layout)
    requires Gathered(w0, l0, w, st, l, s, names, vs) && Chain(w, l, q, [n, n + 1, n + 2], [x, s.a, y])
    requires IsSym(l, LAMBDA, x) && IsExp(w, l, e, y) && n >= |w0.cells|
    ensures var w1 := LispSpec.Add(w, Pair(q, s.v));
            Holds(w1, st, l1) && Later(w0, l0, w1, l1) && IsExp(w1, l1, M.Call(M.Lambda(M.Fixed(names), [e]), vs), Next(w))
  {
    hide Holds, IsSym, IsExp, Steady, Later, Above;
    var three := [n, n + 1, n + 2];
    var all := Cells(s.ia) + Cells(s.iv) + Cells(three);
    TempCells(w, l, s.a, s.ia, s.xa);
    TempCells(w, l, s.v, s.iv, s.xv);
    TempCells(w, l, q, three, [x, s.a, y]);
    assert AllTemp(l, all);
    var l2 := Freed(l, all);
    Freeze(w, st, l, all);
    FreedAbove(|w0.cells|, w, l, all);
    LaterAbove(w0, l0, w, l, w, l2);
    Settle(w, l, s.a, s.ia, s.xa, all);
    Settle(w, l, s.v, s.iv, s.xv, all);
    Settle(w, l, q, three, [x, s.a, y], all);
    AllKept(w, l, w, l2, names, s.xa, vs, s.xv);
    SymKept(w, l, w, l2, LAMBDA, x);
    ExpKept(w, l, w, l2, e, y);
    SettledNames(w, l2, s.ia, s.xa, names, 0);
    SettledExps(w, l2, s.iv, s.xv, vs, 0);
    assert names[0..] == names && vs[0..] == vs;
    LambdaIs(w, l2, names, e, n, x, s.a, y);
    AddFrozen(w, st, l2, Pair(q, s.v));
    var w1 := LispSpec.Add(w, Pair(q, s.v));
    LaterTrans(w0, l0, w, l2, w1, l2);
    SteadyOf(w, l2, w1, l2);
    l1 := l2;
    ExpKept(w, l2, w1, l2, M.Lambda(M.Fixed(names), [e]), q);
    ExpsKept(w, l2, w1, l2, vs, s.v);
    CallIs(w1, l2, M.Lambda(M.Fixed(names), [e]), vs, Next(w), q, s.v);
  }

  lemma SteadyOf(w: World, l: Layout, w1: World, l1: Layout)
    requires Later(w, l, w1, l1)
    ensures Steady(w, l, w1, l1)
  {
  }

  lemma CallIs(w: World, l: Layout, op: M.Exp, args: seq<M.Exp>, x: Val, q: Val, v: Val)
    requires x.Ref? && Frozen(w, l, x.id) && w.cells[x.id] == Pair(q, v) && op.Lambda? && IsExp(w, l, op, q) && IsExps(w, l, args, v)
    ensures IsExp(w, l, M.Call(op, args), x)
  {
  }

  lemma TempCells(w: World, l: Layout, x: Val, ids: seq<nat>, xs: seq<Val>)
    requires Chain(w, l, x, ids, xs)
    ensures AllTemp(l, Cells(ids)) && forall i :: 0 <= i < |ids| ==> ids[i] in Cells(ids)
  {
    forall id | id in Cells(ids) ensures id in l.owner && l.owner[id] == Temp {
      var i: nat :| i < |ids| && ids[i] == id;
      assert ChainAt(w, l, ids, xs, i);
    }
  }

  lemma FreedAbove(n: nat, w: World, l: Layout, all: set<nat>)
    requires n <= |w.cells| && forall id :: id in all ==> id >= n
    ensures Above(n, w, l, w, Freed(l, all))
  {
  }

  lemma LambdaIs(w: World, l: Layout, names: seq<nat>, e: M.Exp, n: nat, x: Val, a: Val, y: Val)
    requires Settled(w, l, [n, n + 1, n + 2], [x, a, y]) && IsSym(l, LAMBDA, x) && IsNames(w, l, names, a) && IsExp(w, l, e, y)
    ensures IsExp(w, l, M.Lambda(M.Fixed(names), [e]), Ref(n))
  {
    hide IsSym, IsNames;
    var ids, xs := [n, n + 1, n + 2], [x, a, y];
    assert SettledAt(w, l, ids, xs, 0) && SettledAt(w, l, ids, xs, 1) && SettledAt(w, l, ids, xs, 2);
    assert Tl(w, Ref(n)) == Ref(n + 1) && Tl(w, Ref(n + 1)) == Ref(n + 2);
    assert Item(w, Ref(n), 1) == Item(w, Ref(n + 1), 0) == a;
    assert Row(w, l, Ref(n + 1), 1);
    assert [e][1..] == [];
    assert IsExps(w, l, [e], Ref(n + 2));
  }

  /** let is the call of a lambda. */
  lemma LetSim(w: World, st: M.Store, l: Layout, names: seq<nat>, vs: seq<M.Exp>, e: M.Exp, x: Val, fuel: nat) returns (l1: Layout)
    requires Holds(w, st, l) && IsExp(w, l, M.Let(names, vs, e), x)
    ensures var r := Let(w, Cdr(w, x), fuel);
            r.Timeout? || (r.Ok? && Sim(w, st, l, r.w, st, l1) && IsExp(r.w, l1, M.Call(M.Lambda(M.Fixed(names), [e]), vs), r.v))
  {
    hide Holds, IsSym, Append, Chain, Steady, Later, Redex, Bindings;
    LetCells(w, l, names, vs, e, x);
    var s0 := Lists(Nil, [], [], Nil, [], []);
    var none: seq<nat>, no: seq<M.Exp> := [], [];
    SimSelf(w, st, l);
    EmptyChain(w, l);
    assert Gathered(w, l, w, st, l, s0, none, no);
    hide IsExp, Gathered;
    var s1;
    s1, l1 := BindingsSim(w, l, w, st, l, s0, none, no, names, vs, Item(w, x, 1), fuel);
    assert none + names == names && no + vs == vs;
    var r := Bindings(w, Item(w, x, 1), Nil, Nil, fuel);
    if r.Ok? {
      KeptBody(w, l, r.w, l1, e, Tl(w, Tl(w, x)));
      CdrKept(w, l, r.w, l1, x);
      l1 := RedexSim(w, l, r.w, st, l1, s1, names, vs, e, Tl(w, Tl(w, x)), fuel);
    }
  }

  lemma CdrKept(w: World, l: Layout, w1: World, l1: Layout, x: Val)
    requires Steady(w, l, w1, l1) && FrozenPair(w, l, x) && (Tl(w, x) == Nil || FrozenPair(w, l, Tl(w, x)))
    ensures Cdr(w1, Cdr(w, x)) == Tl(w, Tl(w, x))
  {
  }

  lemma LetCells(w: World, l: Layout, names: seq<nat>, vs: seq<M.Exp>, e: M.Exp, x: Val)
    requires IsExp(w, l, M.Let(names, vs, e), x)
    ensures FrozenPair(w, l, x) && (Tl(w, x) == Nil || FrozenPair(w, l, Tl(w, x))) && Cdr(w, x) == Tl(w, x)
    ensures Car(w, Cdr(w, x)) == Item(w, x, 1) && |names| == |vs| && AreBindings(w, l, names, vs, Item(w, x, 1))
    ensures Item(w, x, 1) != Bad
    ensures var b := Tl(w, Tl(w, x)); (b == Nil || FrozenPair(w, l, b)) && IsExp(w, l, e, Hd(w, b))
  {
    assert Row(w, l, Tl(w, x), 2);
    if Tl(w, x) != Nil { assert Row(w, l, Tl(w, Tl(w, x)), 1); }
    assert Item(w, x, 1) == Item(w, Tl(w, x), 0);
    assert Item(w, x, 2) == Item(w, Tl(w, x), 1) == Item(w, Tl(w, Tl(w, x)), 0);
  }
}
