/** The primitives of lisp/lisp.c compute what LispMeaning says of their arguments' values. */
module LispOps {
  import opened Collector
  import opened LispSpec
  import opened LispShape
  import opened LispMoves
  import opened LispSim
  import M = LispMeaning

  // ----- Kinds of values -----

  lemma ObjectPair(w: World, st: M.Store, l: Layout, loc: nat)
    requires Holds(w, st, l) && loc < |st|
    ensures loc < |l.place| && l.place[loc] < |w.cells| && w.cells[l.place[loc]].Pair?
    ensures l.place[loc] in l.owner && l.owner[l.place[loc]] == Object(loc)
  {
    assert ObjectOk(w, st, l, loc);
  }

  /** Which cell each kind of value has. */
  lemma KindOf(w: World, st: M.Store, l: Layout, v: M.V, x: Val)
    requires Holds(w, st, l) && IsValue(w, l, v, x)
    ensures x == Nil <==> v == M.Empty
    ensures IsLeaf(w, x, TAG_INT) <==> v.Num?
    ensures IsLeaf(w, x, TAG_SYM) <==> v.Name?
    ensures IsPair(w, x) <==> v.At?
    ensures !IsLeaf(w, x, TAG_FLOAT) && x != Bad
  {
    hide SymbolsOk, ObjectOk;
    match v
    case At(loc) => ObjectPair(w, st, l, loc);
    case Name(s) => SymThere(w, st, l, s, x);
    case _ =>
  }

  lemma NumberOf(w: World, st: M.Store, l: Layout, n: int, x: Val)
    requires IsNum(w, l, n, x)
    ensures IsLeaf(w, x, TAG_INT) && Signed(w.cells[x.id].hi, w.cells[x.id].lo) == n
  {
  }

  /** A value is this symbol exactly when it is the name. */
  lemma ValueIsSym(w: World, st: M.Store, l: Layout, v: M.V, x: Val, s: nat, y: Val)
    requires Holds(w, st, l) && IsValue(w, l, v, x) && IsSym(l, s, y)
    ensures x == y <==> v == M.Name(s)
  {
    hide Holds, IsSym;
    KindOf(w, st, l, v, x);
    SymThere(w, st, l, s, y);
    if v.Name? { OneSym(w, st, l, v.s, s, x, y); }
  }

  /** Values are equal exactly when they are the same cell, or numbers with the same words. */
  lemma SameAs(w: World, st: M.Store, l: Layout, v: M.V, x: Val, u: M.V, y: Val)
    requires Holds(w, st, l) && IsValue(w, l, v, x) && IsValue(w, l, u, y)
    ensures v == u <==> x == y || (IsLeaf(w, x, TAG_INT) && IsLeaf(w, y, TAG_INT) && w.cells[x.id] == w.cells[y.id])
  {
    hide Holds, IsSym;
    KindOf(w, st, l, v, x);
    KindOf(w, st, l, u, y);
    if v.At? && u.At? {
      Sizes(w, st, l);
      ObjectPair(w, st, l, v.loc);
      ObjectPair(w, st, l, u.loc);
    } else if v.Name? && u.Name? {
      OneSym(w, st, l, v.s, u.s, x, y);
    } else if v.Num? && u.Num? {
      var c, d := w.cells[x.id], w.cells[y.id];
      Words(c.hi, c.lo, d.hi, d.lo);
    }
  }

  lemma Words(h: nat, k: nat, i: nat, j: nat)
    requires h < WORD && k < WORD && i < WORD && j < WORD
    ensures Signed64(h, k) == Signed64(i, j) <==> h == i && k == j
  {
  }

  // ----- Numbers -----

  lemma WrapWords(n: int)
    ensures var hi, lo := n / LIMIT % LIMIT, n % LIMIT;
            && 0 <= hi < WORD && 0 <= lo < WORD && Signed64(hi, lo) == M.Wrap(n) && (M.Marked(M.Wrap(n)) <==> hi == TAG_MARK)
  {
    var q, lo := n / LIMIT, n % LIMIT;
    var k, hi := q / LIMIT, q % LIMIT;
    assert n == k * (2 * M.HALF) + (hi * WORD + lo);
    WrapIs(n, k, hi, lo);
  }

  lemma WrapIs(n: int, k: int, hi: int, lo: int)
    requires 0 <= hi < WORD && 0 <= lo < WORD && n == k * (2 * M.HALF) + (hi * WORD + lo)
    ensures M.Wrap(n) == Signed64(hi, lo) && (M.Marked(M.Wrap(n)) <==> hi == TAG_MARK)
  {
    var s := Signed64(hi, lo);
    var up := if hi < 0x8000_0000 then hi else hi - WORD;
    assert s == up * WORD + lo;
    assert s / WORD == up;
    Residue(n, s);
  }

  /** Numbers that differ by a multiple of 2^64 wrap to the one in range. */
  lemma Residue(n: int, s: int)
    requires -M.HALF <= s < M.HALF && (n - s) % (2 * M.HALF) == 0
    ensures M.Wrap(n) == s
  {
  }

  /** A new number cell. */
  lemma IntSim(w: World, st: M.Store, l: Layout, n: int)
    requires Holds(w, st, l)
    ensures Shows(w, st, l, M.Number(st, n), Int(w, n), l)
  {
    hide Holds, Later;
    WrapWords(n);
    var hi, lo := n / LIMIT % LIMIT, n % LIMIT;
    AddFrozen(w, st, l, Leaf(TAG_INT, hi, lo));
  }

  lemma SmallInt(w: World, st: M.Store, l: Layout, n: int)
    requires Holds(w, st, l) && (n == 0 || n == 1)
    ensures Shows(w, st, l, M.Done(st, M.Num(n)), Int(w, n), l)
  {
    hide Holds, Later;
    IntSim(w, st, l, n);
    assert M.Number(st, n) == M.Done(st, M.Num(n));
  }

  lemma ArithSim(w: World, st: M.Store, l: Layout, op: nat, v: M.V, x: Val, u: M.V, y: Val)
    requires Holds(w, st, l) && IsValue(w, l, v, x) && IsValue(w, l, u, y) && op < 4
    ensures var r := Arith(w, op, x, y);
            if !v.Num? || !u.Num? || (op == 3 && (u.n == 0 || (v.n == -M.HALF && u.n == -1))) then r.Stuck?
            else Shows(w, st, l, M.Number(st, if op == 0 then v.n + u.n else if op == 1 then v.n - u.n
                                              else if op == 2 then v.n * u.n else M.Truncated(v.n, u.n)), r, l)
  {
    hide Holds, IsSym, Int, Sim, M.Number, M.Truncated, IsNum, Signed;
    KindOf(w, st, l, v, x);
    KindOf(w, st, l, u, y);
    if v.Num? && u.Num? {
      NumberOf(w, st, l, v.n, x);
      NumberOf(w, st, l, u.n, y);
      if op == 3 && u.n != 0 {
        if !(v.n == -M.HALF && u.n == -1) {
          Quotients(v.n, u.n);
          IntSim(w, st, l, M.Truncated(v.n, u.n));
        }
      } else if op != 3 {
        IntSim(w, st, l, if op == 0 then v.n + u.n else if op == 1 then v.n - u.n else v.n * u.n);
      }
    }
  }

  lemma Quotients(x: int, y: int)
    requires y != 0
    ensures Divide(x, y) == M.Truncated(x, y)
  {
    var q, a, b := Divide(x, y), M.Magnitude(x), M.Magnitude(y);
    if y < 0 {
      Opposite(a, b);
    }
  }

  lemma Opposite(a: int, b: int)
    requires a >= 0 && b > 0
    ensures a / -b == -(a / b)
  {
  }

  lemma {:induction false} FoldedNum(st: M.Store, times: bool, vs: seq<M.V>)
    ensures var r := M.Folded(st, times, vs); !r.More? && (r.Done? ==> r.st == st && r.v.Num?)
    decreases |vs|
  {
    if vs != [] { FoldedNum(st, times, vs[1..]); }
  }

  // ----- Arguments -----

  /** x is the list of these values. */
  ghost predicate ArgList(w: World, l: Layout, x: Val, ids: seq<nat>, xs: seq<Val>, vs: seq<M.V>) {
    Chain(w, l, x, ids, xs) && AreValues(w, l, vs, xs)
  }

  lemma ArgKept(w: World, st: M.Store, l: Layout, w1: World, st1: M.Store, l1: Layout, x: Val, ids: seq<nat>, xs: seq<Val>, vs: seq<M.V>)
    requires ArgList(w, l, x, ids, xs, vs) && Sim(w, st, l, w1, st1, l1)
    ensures ArgList(w1, l1, x, ids, xs, vs)
  {
    hide Holds, Chain, AreValues, Later;
    ChainKept(w, l, w1, l1, x, ids, xs);
    SimSteady(w, st, l, w1, st1, l1);
    ValuesKept(w, l, w1, l1, vs, xs);
  }

  lemma ArgAt(w: World, l: Layout, x: Val, ids: seq<nat>, xs: seq<Val>, vs: seq<M.V>, i: nat)
    requires ArgList(w, l, x, ids, xs, vs)
    ensures |ids| == |xs| == |vs| && x == Link(ids, 0)
    ensures i < |ids| ==> Car(w, Link(ids, i)) == xs[i] && Cdr(w, Link(ids, i)) == Link(ids, i + 1) && IsValue(w, l, vs[i], xs[i])
    ensures i < |ids| ==> IsPair(w, Link(ids, i)) && Link(ids, i) != Nil
  {
    hide IsValue;
    if i < |ids| { assert ChainAt(w, l, ids, xs, i); }
  }

  lemma {:induction false} TotalSim(w: World, st: M.Store, l: Layout, op: nat, x: Val, ids: seq<nat>, xs: seq<Val>, vs: seq<M.V>, i: nat, fuel: nat)
    requires Holds(w, st, l) && ArgList(w, l, x, ids, xs, vs) && i <= |vs| && (op == 0 || op == 2)
    ensures Shows(w, st, l, M.Folded(st, op == 2, vs[i..]), Total(w, op, Link(ids, i), fuel), l)
    decreases fuel
  {
    hide Holds, Sim, Arith, Int, IsValue, M.Number, ArgList;
    ArgAt(w, l, x, ids, xs, vs, i);
    FoldedNum(st, op == 2, vs[i..]);
    if fuel > 0 {
      if i == |vs| {
        SmallInt(w, st, l, if op == 2 then 1 else 0);
      } else {
        var rest := vs[i..][1..];
        assert rest == vs[i + 1..] && vs[i..][0] == vs[i];
        TotalSim(w, st, l, op, x, ids, xs, vs, i + 1, fuel - 1);
        FoldedNum(st, op == 2, rest);
        var r, m := Total(w, op, Link(ids, i + 1), fuel - 1), M.Folded(st, op == 2, rest);
        if r.Ok? && m.Done? {
          SimSteady(w, st, l, r.w, st, l);
          ValueKept(w, l, r.w, l, vs[i], xs[i]);
          ArithSim(r.w, st, l, op, vs[i], xs[i], m.v, r.v);
          if vs[i].Num? {
            ShowsAfter(w, st, l, r.w, st, l, M.Number(st, if op == 0 then vs[i].n + m.v.n else vs[i].n * m.v.n), Arith(r.w, op, xs[i], r.v), l);
          }
        }
      }
    }
  }

  /** -, and / by the product of the rest. */
  lemma FirstSim(w: World, st: M.Store, l: Layout, div: bool, x: Val, ids: seq<nat>, xs: seq<Val>, vs: seq<M.V>, fuel: nat)
    requires Holds(w, st, l) && ArgList(w, l, x, ids, xs, vs)
    ensures Shows(w, st, l, M.Operate(st, if div then M.Div else M.Sub, vs), if div then Quotient(w, x, fuel) else Difference(w, x, fuel), l)
  {
    hide Holds, Sim, Arith, Int, IsValue, M.Number, ArgList, M.Folded, Total, Signed;
    ArgAt(w, l, x, ids, xs, vs, 0);
    if |vs| == 0 {
      SmallInt(w, st, l, if div then 1 else 0);
    } else if |vs| == 1 && !div {
      KindOf(w, st, l, vs[0], xs[0]);
      if vs[0].Num? {
        ValueNum(w, l, vs[0], xs[0]);
        NumberOf(w, st, l, vs[0].n, xs[0]);
        IntSim(w, st, l, -vs[0].n);
      }
    } else {
      var op := if div then 2 else 0;
      TotalSim(w, st, l, op, x, ids, xs, vs, 1, fuel);
      FoldedNum(st, div, vs[1..]);
      var r, m := Total(w, op, Link(ids, 1), fuel), M.Folded(st, div, vs[1..]);
      if r.Ok? && m.Done? {
        SimSteady(w, st, l, r.w, st, l);
        ValueKept(w, l, r.w, l, vs[0], xs[0]);
        ArithSim(r.w, st, l, if div then 3 else 1, vs[0], xs[0], m.v, r.v);
        FirstDone(w, st, l, r.w, div, vs[0], m.v, Arith(r.w, if div then 3 else 1, xs[0], r.v));
      }
    }
  }

  lemma ValueNum(w: World, l: Layout, v: M.V, x: Val)
    requires IsValue(w, l, v, x) && v.Num?
    ensures IsNum(w, l, v.n, x)
  {
  }

  lemma FirstDone(w: World, st: M.Store, l: Layout, w1: World, div: bool, v: M.V, u: M.V, r: Res<Val>)
    requires Sim(w, st, l, w1, st, l) && u.Num?
    requires if !v.Num? || (div && (u.n == 0 || (v.n == -M.HALF && u.n == -1))) then r.Stuck?
             else Shows(w1, st, l, M.Number(st, if div then M.Truncated(v.n, u.n) else v.n - u.n), r, l)
    ensures Shows(w, st, l, if !v.Num? || (div && (u.n == 0 || (v.n == -M.HALF && u.n == -1))) then M.Error
                            else M.Number(st, if div then M.Truncated(v.n, u.n) else v.n - u.n), r, l)
  {
    hide Sim, M.Number, M.Truncated;
    if v.Num? && !(div && (u.n == 0 || (v.n == -M.HALF && u.n == -1))) {
      ShowsAfter(w, st, l, w1, st, l, M.Number(st, if div then M.Truncated(v.n, u.n) else v.n - u.n), r, l);
    }
  }

  // ----- Truth values -----

  lemma TruthSim(w: World, st: M.Store, l: Layout, b: bool, fuel: nat) returns (l1: Layout)
    requires Holds(w, st, l)
    ensures Shows(w, st, l, M.Done(st, M.Truth(b)), Truth(w, b, fuel), l1)
  {
    hide Holds, Sim, Getsym;
    l1 := GetsymSim(w, st, l, if b then TRUE else FALSE, fuel);
  }

  /** After other symbols were made. */
  lemma TruthAfter(w: World, st: M.Store, l: Layout, w1: World, l1: Layout, b: bool, fuel: nat) returns (l2: Layout)
    requires Sim(w, st, l, w1, st, l1)
    ensures Shows(w, st, l, M.Done(st, M.Truth(b)), Truth(w1, b, fuel), l2)
  {
    hide Holds, Sim, Getsym, Truth;
    SimSteady(w, st, l, w1, st, l1);
    l2 := TruthSim(w1, st, l1, b, fuel);
    ShowsAfter(w, st, l, w1, st, l1, M.Done(st, M.Truth(b)), Truth(w1, b, fuel), l2);
  }

  lemma {:induction false} LogicSim(w: World, st: M.Store, l: Layout, stop: bool, x: Val, ids: seq<nat>, xs: seq<Val>, vs: seq<M.V>, i: nat, fuel: nat)
    returns (l1: Layout)
    requires Holds(w, st, l) && ArgList(w, l, x, ids, xs, vs) && i <= |vs|
    ensures Shows(w, st, l, M.Done(st, M.Truth(if stop then M.Truth(true) in vs[i..] else M.Truth(false) !in vs[i..])),
                  Logic(w, stop, Link(ids, i), fuel), l1)
    decreases fuel
  {
    hide Holds, Sim, IsValue, ArgList, Truth, Shows;
    l1 := l;
    ArgAt(w, l, x, ids, xs, vs, i);
    if fuel == 0 {
      LateIsMore(w, st, l, M.Done(st, M.Truth(if stop then M.Truth(true) in vs[i..] else M.Truth(false) !in vs[i..])), l1);
    } else if i == |vs| {
      l1 := TruthSim(w, st, l, !stop, fuel);
    } else {
      var rest := vs[i..];
      assert rest[0] == vs[i] && rest[1..] == vs[i + 1..] && rest == [vs[i]] + vs[i + 1..];
      l1 := LogicStep(w, st, l, stop, x, ids, xs, vs, i, fuel);
    }
  }

  lemma LateIsMore(w: World, st: M.Store, l: Layout, m: M.Out<M.V>, l1: Layout)
    requires m.Done?
    ensures Shows(w, st, l, m, Timeout, l1)
  {
  }

  lemma LogicStep(w: World, st: M.Store, l: Layout, stop: bool, x: Val, ids: seq<nat>, xs: seq<Val>, vs: seq<M.V>, i: nat, fuel: nat)
    returns (l1: Layout)
    requires Holds(w, st, l) && ArgList(w, l, x, ids, xs, vs) && i < |vs| == |ids| && fuel > 0
    ensures Shows(w, st, l,
                  M.Done(st, M.Truth(if vs[i] == M.Truth(stop) then stop
                                     else if stop then M.Truth(true) in vs[i + 1..] else M.Truth(false) !in vs[i + 1..])),
                  Logic(w, stop, Link(ids, i), fuel), l1)
    decreases fuel, 0
  {
    hide Holds, Sim, IsValue, ArgList, Getsym;
    ArgAt(w, l, x, ids, xs, vs, i);
    KindOf(w, st, l, vs[i], xs[i]);
    l1 := GetsymSim(w, st, l, if stop then TRUE else FALSE, fuel);
    var g := Truth(w, stop, fuel);
    if g.Ok? {
      SimSteady(w, st, l, g.w, st, l1);
      ArgKept(w, st, l, g.w, st, l1, x, ids, xs, vs);
      ArgAt(g.w, l1, x, ids, xs, vs, i);
      ValueIsSym(g.w, st, l1, vs[i], xs[i], if stop then TRUE else FALSE, g.v);
      if vs[i] == M.Truth(stop) {
        l1 := TruthAfter(w, st, l, g.w, l1, stop, fuel);
      } else {
        var l2 := LogicSim(g.w, st, l1, stop, x, ids, xs, vs, i + 1, fuel - 1);
        var m := M.Done(st, M.Truth(if stop then M.Truth(true) in vs[i + 1..] else M.Truth(false) !in vs[i + 1..]));
        ShowsAfter(w, st, l, g.w, st, l1, m, Logic(g.w, stop, Link(ids, i + 1), fuel - 1), l2);
        l1 := l2;
      }
    }
  }

  lemma NotSim(w: World, st: M.Store, l: Layout, v: M.V, x: Val, fuel: nat) returns (l1: Layout)
    requires Holds(w, st, l) && IsValue(w, l, v, x)
    ensures Shows(w, st, l, M.Done(st, M.Truth(v != M.Name(M.TRUE))), Not(w, x, fuel), l1)
  {
    hide Holds, Sim, IsValue, Getsym;
    l1 := GetsymSim(w, st, l, TRUE, fuel);
    var g := Truth(w, true, fuel);
    if g.Ok? {
      SimSteady(w, st, l, g.w, st, l1);
      ValueKept(w, l, g.w, l1, v, x);
      ValueIsSym(g.w, st, l1, v, x, TRUE, g.v);
      l1 := TruthAfter(w, st, l, g.w, l1, v != M.Name(M.TRUE), fuel);
    }
  }

  lemma CompareSim(w: World, st: M.Store, l: Layout, k: nat, v: M.V, x: Val, u: M.V, y: Val, fuel: nat) returns (l1: Layout)
    requires Holds(w, st, l) && IsValue(w, l, v, x) && IsValue(w, l, u, y) && 4 <= k < 7
    ensures var b := v.Num? && u.Num? && (if k == 4 then v.n == u.n else if k == 5 then v.n < u.n else v.n > u.n);
            Shows(w, st, l, if v.Num? && u.Num? then M.Done(st, M.Truth(b)) else M.Error, Compare(w, k, x, y, fuel), l1)
  {
    hide Holds, Sim, IsValue, Truth, Signed, IsNum;
    l1 := l;
    KindOf(w, st, l, v, x);
    KindOf(w, st, l, u, y);
    if v.Num? && u.Num? {
      ValueNum(w, l, v, x);
      ValueNum(w, l, u, y);
      NumberOf(w, st, l, v.n, x);
      NumberOf(w, st, l, u.n, y);
      l1 := TruthSim(w, st, l, if k == 4 then v.n == u.n else if k == 5 then v.n < u.n else v.n > u.n, fuel);
    }
  }

  lemma EqSim(w: World, st: M.Store, l: Layout, v: M.V, x: Val, u: M.V, y: Val, fuel: nat) returns (l1: Layout)
    requires Holds(w, st, l) && IsValue(w, l, v, x) && IsValue(w, l, u, y)
    ensures Shows(w, st, l, M.Done(st, M.Truth(v == u)), Same(w, x, y, fuel), l1)
  {
    hide Holds, Sim, IsValue, Truth;
    KindOf(w, st, l, v, x);
    KindOf(w, st, l, u, y);
    SameAs(w, st, l, v, x, u, y);
    l1 := TruthSim(w, st, l, v == u, fuel);
  }

  // ----- Pairs -----

  lemma PairCell(w: World, st: M.Store, l: Layout, loc: nat)
    requires Holds(w, st, l) && loc < |st| && st[loc].Cons?
    ensures loc < |l.place| && IsPair(w, Ref(l.place[loc]))
    ensures IsValue(w, l, st[loc].car, Car(w, Ref(l.place[loc]))) && IsValue(w, l, st[loc].cdr, Cdr(w, Ref(l.place[loc])))
  {
    assert ObjectOk(w, st, l, loc);
  }

  /** car and cdr. */
  lemma PartSim(w: World, st: M.Store, l: Layout, v: M.V, x: Val, first: bool)
    requires Holds(w, st, l) && IsValue(w, l, v, x)
    ensures var c := if first then Car(w, x) else Cdr(w, x);
            Shows(w, st, l, M.Part(st, v, first), if c == Bad then Stuck else Ok(w, c), l)
  {
    hide Holds, Sim, IsSym, IsNum;
    SimSelf(w, st, l);
    KindOf(w, st, l, v, x);
    if v.At? && v.loc < |st| && st[v.loc].Cons? {
      PairCell(w, st, l, v.loc);
      KindOf(w, st, l, if first then st[v.loc].car else st[v.loc].cdr, if first then Car(w, x) else Cdr(w, x));
    }
  }

  lemma ChangeSim(w: World, st: M.Store, l: Layout, v: M.V, x: Val, first: bool, u: M.V, y: Val, fuel: nat) returns (l1: Layout)
    requires Holds(w, st, l) && IsValue(w, l, v, x) && IsValue(w, l, u, y)
    ensures Shows(w, st, l, M.Change(st, v, first, u),
                  if IsPair(w, x) then Getsym(if first then SetCar(w, x, y) else SetCdr(w, x, y), LispSpec.OK, fuel) else Stuck, l1)
  {
    hide Holds, IsSym, IsNum, Later, SameKinds, Getsym;
    l1 := l;
    KindOf(w, st, l, v, x);
    if v.At? && v.loc < |st| && st[v.loc].Cons? {
      PairCell(w, st, l, v.loc);
      var a, d := if first then u else st[v.loc].car, if first then st[v.loc].cdr else u;
      var p, q := if first then y else Car(w, x), if first then Cdr(w, x) else y;
      SetPair(w, st, l, v.loc, a, d, p, q);
      var w1 := if first then SetCar(w, x, y) else SetCdr(w, x, y);
      assert w1 == w.(cells := w.cells[l.place[v.loc] := Pair(p, q)]);
      l1 := OkSim(w, st, l, w1, st[v.loc := M.Cons(a, d)], l, fuel);
    }
  }

  lemma ConsSim(w: World, st: M.Store, l: Layout, v: M.V, x: Val, u: M.V, y: Val) returns (l1: Layout)
    requires Holds(w, st, l) && IsValue(w, l, v, x) && IsValue(w, l, u, y)
    ensures Shows(w, st, l, M.Done(st + [M.Cons(v, u)], M.At(|st|)), Cons(w, x, y), l1)
  {
    hide Holds, IsValue, Later, SameKinds;
    KindOf(w, st, l, v, x);
    KindOf(w, st, l, u, y);
    NewPair(w, st, l, v, u, x, y);
    l1 := Placed(l, |w.cells|, []);
  }

  // ----- All of them -----

  lemma OneSim(w: World, st: M.Store, l: Layout, k: nat, v: M.V, x: Val, vs: seq<M.V>, fuel: nat) returns (l1: Layout)
    requires Holds(w, st, l) && IsValue(w, l, v, x) && v == (if |vs| > 0 then vs[0] else M.Empty) && k in {9, 10, 11, 14, 15}
    ensures Shows(w, st, l, M.Operate(st, M.OPS[k], vs), Primitive1(w, k, x, fuel), l1)
  {
    hide Holds, IsValue, Sim, Truth, Not, M.Part;
    KindOf(w, st, l, v, x);
    l1 := l;
    if k == 9 {
      l1 := NotSim(w, st, l, v, x, fuel);
    } else if k == 10 {
      l1 := TruthSim(w, st, l, x == Nil, fuel);
    } else if k == 11 {
      l1 := TruthSim(w, st, l, IsPair(w, x), fuel);
    } else {
      PartSim(w, st, l, v, x, k == 14);
    }
  }

  lemma TwoSim(w: World, st: M.Store, l: Layout, k: nat, v: M.V, x: Val, u: M.V, y: Val, vs: seq<M.V>, fuel: nat) returns (l1: Layout)
    requires Holds(w, st, l) && IsValue(w, l, v, x) && IsValue(w, l, u, y)
    requires v == (if |vs| > 0 then vs[0] else M.Empty) && u == (if |vs| > 1 then vs[1] else M.Empty)
    requires k in {4, 5, 6, 12, 13, 16, 17, 18, 19}
    ensures Shows(w, st, l, M.Operate(st, M.OPS[k], vs), Primitive2(w, k, x, y, fuel), l1)
  {
    hide Holds, IsValue, Sim, Truth, Compare, Same, M.Change, Getsym;
    l1 := l;
    if 4 <= k < 7 {
      l1 := CompareSim(w, st, l, k, v, x, u, y, fuel);
    } else if k == 12 {
      l1 := EqSim(w, st, l, v, x, u, y, fuel);
    } else if k == 13 {
      l1 := ConsSim(w, st, l, v, x, u, y);
    } else if k == 16 || k == 17 {
      l1 := ChangeSim(w, st, l, v, x, k == 16, u, y, fuel);
    }
  }

  /** The first two arguments, nil where there are fewer. */
  lemma FirstTwo(w: World, st: M.Store, l: Layout, x: Val, ids: seq<nat>, xs: seq<Val>, vs: seq<M.V>)
    requires Holds(w, st, l) && ArgList(w, l, x, ids, xs, vs)
    ensures IsValue(w, l, if |vs| > 0 then vs[0] else M.Empty, Car(w, x)) && Car(w, x) != Bad
    ensures IsValue(w, l, if |vs| > 1 then vs[1] else M.Empty, Cadr(w, x)) && Cadr(w, x) != Bad
  {
    hide Holds, ArgList;
    ArgAt(w, l, x, ids, xs, vs, 0);
    ArgAt(w, l, x, ids, xs, vs, 1);
    if |vs| > 0 { KindOf(w, st, l, vs[0], xs[0]); }
    if |vs| > 1 { KindOf(w, st, l, vs[1], xs[1]); }
  }

  lemma OperateSim(w: World, st: M.Store, l: Layout, k: nat, x: Val, ids: seq<nat>, xs: seq<Val>, vs: seq<M.V>, fuel: nat) returns (l1: Layout)
    requires Holds(w, st, l) && ArgList(w, l, x, ids, xs, vs) && k < |M.OPS|
    ensures Shows(w, st, l, M.Operate(st, M.OPS[k], vs), Primitive(w, k, x, fuel), l1)
  {
    hide Holds, IsValue, Sim, ArgList, Total, Difference, Quotient, Logic, Primitive1, Primitive2, Getsym, M.Folded;
    l1 := l;
    ArgAt(w, l, x, ids, xs, vs, 0);
    assert vs[0..] == vs;
    FirstTwo(w, st, l, x, ids, xs, vs);
    var v, u := if |vs| > 0 then vs[0] else M.Empty, if |vs| > 1 then vs[1] else M.Empty;
    if k == 0 || k == 2 {
      TotalSim(w, st, l, k, x, ids, xs, vs, 0, fuel);
    } else if k == 1 || k == 3 {
      FirstSim(w, st, l, k == 3, x, ids, xs, vs, fuel);
    } else if k == 7 || k == 8 {
      l1 := LogicSim(w, st, l, k == 8, x, ids, xs, vs, 0, fuel);
    } else if k in {9, 10, 11, 14, 15} {
      l1 := OneSim(w, st, l, k, v, Car(w, x), vs, fuel);
    } else {
      l1 := TwoSim(w, st, l, k, v, Car(w, x), u, Cadr(w, x), vs, fuel);
    }
  }
}
