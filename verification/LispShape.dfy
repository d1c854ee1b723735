/** How the cells of a heap represent the expressions, values and stores of LispMeaning. */
module LispShape {
  import opened Collector
  import opened LispSpec
  import M = LispMeaning

  // ----- Layouts -----

  /** What a cell that may change is for: an object of the store, a value of a scope, a symbol's place in
      the list of symbols, or a list still being built. */
  datatype Role = Object(loc: nat) | Value(loc: nat) | Place(k: nat) | Temp

  /** Where things are: the first cell of each object, the cells of each scope's values, the names of the
      known symbols with their leaves and places, and the roles of cells. */
  datatype Layout = Layout(place: seq<nat>, vals: seq<seq<nat>>, known: seq<nat>, leaves: seq<nat>, spine: seq<nat>,
                           owner: map<nat, Role>)

  /** A cell that never changes again. */
  predicate Frozen(w: World, l: Layout, id: nat) { id < |w.cells| && id !in l.owner }

  predicate FrozenPair(w: World, l: Layout, x: Val) { x.Ref? && Frozen(w, l, x.id) && w.cells[x.id].Pair? }

  /** The first element of a list and the rest; of the empty list too. */
  function Hd(w: World, x: Val): Val {
    if x.Ref? && x.id < |w.cells| && w.cells[x.id].Pair? then w.cells[x.id].car else Nil
  }

  function Tl(w: World, x: Val): Val {
    if x.Ref? && x.id < |w.cells| && w.cells[x.id].Pair? then w.cells[x.id].cdr else Nil
  }

  /** Element k; nil past the end. */
  function Item(w: World, x: Val, k: nat): Val
    decreases k
  {
    if k == 0 then Hd(w, x) else Item(w, Tl(w, x), k - 1)
  }

  /** The first n links of a list, as far as it goes. */
  predicate Row(w: World, l: Layout, x: Val, n: nat)
    decreases n
  {
    n == 0 || x == Nil || (FrozenPair(w, l, x) && Row(w, l, Tl(w, x), n - 1))
  }

  // ----- Values -----

  /** x is the symbol of that name. */
  predicate IsSym(l: Layout, s: nat, x: Val) {
    exists i :: 0 <= i < |l.known| && i < |l.leaves| && l.known[i] == s && x == Ref(l.leaves[i])
  }

  const WORD: int := 0x1_0000_0000

  /** The number that two words stand for. */
  function Signed64(hi: nat, lo: nat): int {
    if hi < 0x8000_0000 then hi * WORD + lo else hi * WORD + lo - WORD * WORD
  }

  predicate IsNum(w: World, l: Layout, n: int, x: Val) {
    && x.Ref? && Frozen(w, l, x.id) && w.cells[x.id].Leaf? && w.cells[x.id].tag == TAG_INT
    && w.cells[x.id].hi < WORD && w.cells[x.id].lo < WORD && Signed64(w.cells[x.id].hi, w.cells[x.id].lo) == n
  }

  predicate IsValue(w: World, l: Layout, v: M.V, x: Val) {
    match v
    case Empty => x == Nil
    case Num(n) => IsNum(w, l, n, x)
    case Name(s) => IsSym(l, s, x)
    case At(loc) => loc < |l.place| && x == Ref(l.place[loc])
  }

  // ----- Expressions -----

  predicate IsNames(w: World, l: Layout, ns: seq<nat>, x: Val) {
    if ns == [] then x == Nil
    else FrozenPair(w, l, x) && IsSym(l, ns[0], Hd(w, x)) && IsNames(w, l, ns[1..], Tl(w, x))
  }

  predicate IsParams(w: World, l: Layout, p: M.Params, x: Val) {
    match p
    case Fixed(ns) => IsNames(w, l, ns, x)
    case Rest(n) => IsSym(l, n, x)
  }

  /** The list x is the expression e. */
  predicate IsExp(w: World, l: Layout, e: M.Exp, x: Val)
    decreases e
  {
    match e
    case Null => x == Nil
    case Const(n) => IsNum(w, l, n, x)
    case Var(s) => IsSym(l, s, x)
    case Quote(q) => Headed(w, l, M.QUOTE, x, 2) && IsValue(w, l, q, Item(w, x, 1))
    case Assign(s, e1) => Headed(w, l, M.SET, x, 3) && IsSym(l, s, Item(w, x, 1)) && IsExp(w, l, e1, Item(w, x, 2))
    case Def(s, e1) => Headed(w, l, M.DEFINE, x, 3) && IsSym(l, s, Item(w, x, 1)) && IsExp(w, l, e1, Item(w, x, 2))
    case DefProc(s, params, body) =>
      && Headed(w, l, M.DEFINE, x, 2) && FrozenPair(w, l, Item(w, x, 1)) && IsSym(l, s, Hd(w, Item(w, x, 1)))
      && IsParams(w, l, params, Tl(w, Item(w, x, 1))) && IsExps(w, l, body, Tl(w, Tl(w, x)))
    case If(test, con, alt) =>
      && Headed(w, l, M.IF, x, 4)
      && IsExp(w, l, test, Item(w, x, 1)) && IsExp(w, l, con, Item(w, x, 2)) && IsExp(w, l, alt, Item(w, x, 3))
    case Let(names, vals, e1) =>
      Headed(w, l, M.LET, x, 3) && |names| == |vals| && AreBindings(w, l, names, vals, Item(w, x, 1)) && IsExp(w, l, e1, Item(w, x, 2))
    case Lambda(params, body) =>
      Headed(w, l, M.LAMBDA, x, 2) && IsParams(w, l, params, Item(w, x, 1)) && IsExps(w, l, body, Tl(w, Tl(w, x)))
    case Begin(body) => Headed(w, l, M.BEGIN, x, 1) && IsExps(w, l, body, Tl(w, x))
    case Cond(clauses) => Headed(w, l, M.COND, x, 1) && AreClauses(w, l, clauses, Tl(w, x))
    case Call(op, args) =>
      && FrozenPair(w, l, x) && !(op.Var? && M.Keyword(op.s))
      && IsExp(w, l, op, Hd(w, x)) && IsExps(w, l, args, Tl(w, x))
  }

  /** A list that begins with this keyword. */
  predicate Headed(w: World, l: Layout, keyword: nat, x: Val, n: nat) {
    FrozenPair(w, l, x) && IsSym(l, keyword, Hd(w, x)) && Row(w, l, x, n)
  }

  predicate IsExps(w: World, l: Layout, es: seq<M.Exp>, x: Val)
    decreases es
  {
    if es == [] then x == Nil
    else FrozenPair(w, l, x) && IsExp(w, l, es[0], Hd(w, x)) && IsExps(w, l, es[1..], Tl(w, x))
  }

  /** ((name value) ...). */
  predicate AreBindings(w: World, l: Layout, names: seq<nat>, vals: seq<M.Exp>, x: Val)
    requires |names| == |vals|
    decreases vals
  {
    if vals == [] then x == Nil
    else
      && FrozenPair(w, l, x) && FrozenPair(w, l, Hd(w, x)) && Row(w, l, Hd(w, x), 2)
      && IsSym(l, names[0], Hd(w, Hd(w, x))) && IsExp(w, l, vals[0], Item(w, Hd(w, x), 1))
      && AreBindings(w, l, names[1..], vals[1..], Tl(w, x))
  }

  /** ((test value) ...). */
  predicate AreClauses(w: World, l: Layout, cs: seq<M.Clause>, x: Val)
    decreases cs
  {
    if cs == [] then x == Nil
    else FrozenPair(w, l, x) && IsClause(w, l, cs[0], Hd(w, x)) && AreClauses(w, l, cs[1..], Tl(w, x))
  }

  predicate IsClause(w: World, l: Layout, c: M.Clause, x: Val)
    decreases c
  {
    Row(w, l, x, 2) && IsExp(w, l, c.test, Hd(w, x)) && IsExp(w, l, c.val, Item(w, x, 1))
  }

  // ----- Stores -----

  /** The reference to cell k of these, or nil past the end. */
  function Link(ids: seq<nat>, k: nat): Val {
    if k < |ids| then Ref(ids[k]) else Nil
  }

  predicate Distinct(ids: seq<nat>) { forall i, j :: 0 <= i < j < |ids| ==> ids[i] != ids[j] }

  predicate SymbolsOk(w: World, l: Layout) {
    && |l.known| == |l.leaves| == |l.spine|
    && (forall i :: 0 <= i < |l.known| ==> Frozen(w, l, l.leaves[i]) && w.cells[l.leaves[i]] == Leaf(TAG_SYM, 0, l.known[i]))
    && (forall i, j :: 0 <= i < j < |l.known| ==> l.known[i] != l.known[j])
    && (forall i: nat :: i < |l.spine| ==> SpineOk(w, l, i))
    && w.symbols == Link(l.spine, 0)
  }

  predicate SpineOk(w: World, l: Layout, i: nat)
    requires i < |l.spine| == |l.leaves|
  {
    && l.spine[i] < |w.cells| && l.spine[i] in l.owner && l.owner[l.spine[i]] == Place(i)
    && w.cells[l.spine[i]] == Pair(Ref(l.leaves[i]), Link(l.spine, i + 1))
  }

  function NamesOf(binds: seq<M.Bind>): (r: seq<nat>)
    ensures |r| == |binds| && forall k :: 0 <= k < |r| ==> r[k] == binds[k].name
  {
    seq(|binds|, k requires 0 <= k < |binds| => binds[k].name)
  }

  /** The environment a scope is in. */
  predicate IsUp(st: M.Store, l: Layout, loc: nat, up: M.Up, x: Val) {
    match up
    case Top => x == Nil
    case Up(scope) => scope < loc && scope < |st| && st[scope].Scope? && scope < |l.place| && x == Ref(l.place[scope])
  }

  /** Value k of a scope and its cell. */
  predicate ValueOk(w: World, l: Layout, loc: nat, binds: seq<M.Bind>, k: nat)
    requires loc < |l.vals| && k < |binds| == |l.vals[loc]|
  {
    var id := l.vals[loc][k];
    && id < |w.cells| && id in l.owner && l.owner[id] == Value(loc)
    && w.cells[id].Pair? && IsValue(w, l, binds[k].v, w.cells[id].car) && w.cells[id].cdr == Link(l.vals[loc], k + 1)
  }

  predicate ScopeOk(w: World, st: M.Store, l: Layout, loc: nat, binds: seq<M.Bind>, up: M.Up)
    requires loc < |l.place| == |l.vals| && l.place[loc] < |w.cells|
  {
    var c := w.cells[l.place[loc]];
    && c.Pair? && FrozenPair(w, l, c.car) && IsNames(w, l, NamesOf(binds), Hd(w, c.car))
    && |l.vals[loc]| == |binds| && Distinct(l.vals[loc]) && Tl(w, c.car) == Link(l.vals[loc], 0)
    && (forall k: nat :: k < |binds| ==> ValueOk(w, l, loc, binds, k))
    && IsUp(st, l, loc, up, c.cdr)
  }

  /** (procedure params body env). */
  predicate ProcOk(w: World, st: M.Store, l: Layout, loc: nat, params: M.Params, body: seq<M.Exp>, scope: nat)
    requires loc < |l.place| && l.place[loc] < |w.cells|
  {
    var c := w.cells[l.place[loc]];
    && c.Pair? && IsSym(l, M.PROCEDURE, c.car)
    && FrozenPair(w, l, c.cdr) && FrozenPair(w, l, Tl(w, c.cdr)) && FrozenPair(w, l, Tl(w, Tl(w, c.cdr)))
    && IsParams(w, l, params, Item(w, c.cdr, 0)) && IsExps(w, l, body, Item(w, c.cdr, 1))
    && scope < loc && scope < |st| && st[scope].Scope? && Item(w, c.cdr, 2) == Ref(l.place[scope])
  }

  predicate ObjectOk(w: World, st: M.Store, l: Layout, loc: nat)
    requires loc < |st| == |l.place| == |l.vals|
  {
    && l.place[loc] < |w.cells| && l.place[loc] in l.owner && l.owner[l.place[loc]] == Object(loc)
    && match st[loc]
       case Cons(a, d) =>
         var c := w.cells[l.place[loc]];
         c.Pair? && IsValue(w, l, a, c.car) && IsValue(w, l, d, c.cdr) && l.vals[loc] == []
       case Proc(params, body, scope) => ProcOk(w, st, l, loc, params, body, scope) && l.vals[loc] == []
       case Scope(binds, up) => ScopeOk(w, st, l, loc, binds, up)
  }

  /** The heap holds the store, laid out like this. */
  ghost predicate Holds(w: World, st: M.Store, l: Layout) {
    && |st| == |l.place| == |l.vals| && SymbolsOk(w, l)
    && (forall id :: id in l.owner ==> id < |w.cells|)
    && (forall loc: nat :: loc < |st| ==> ObjectOk(w, st, l, loc))
  }

  /** env is this scope. */
  predicate InScope(st: M.Store, l: Layout, scope: nat, env: Val) {
    scope < |st| && st[scope].Scope? && scope < |l.place| && env == Ref(l.place[scope])
  }

  // ----- What later heaps keep -----

  /** Frozen cells stay as they are, and what has a place keeps it. */
  ghost predicate Steady(w0: World, l0: Layout, w1: World, l1: Layout) {
    && |w0.cells| <= |w1.cells| && l0.place <= l1.place && l0.known <= l1.known && l0.leaves <= l1.leaves
    && forall id: nat {:trigger id in l1.owner} {:trigger w1.cells[id]} ::
         id < |w0.cells| && id !in l0.owner ==> id !in l1.owner && w1.cells[id] == w0.cells[id]
  }

  /** ...and lists being built stay as they are too. */
  ghost predicate Later(w0: World, l0: Layout, w1: World, l1: Layout) {
    && Steady(w0, l0, w1, l1)
    && forall id: nat {:trigger id in l1.owner} {:trigger w1.cells[id]} ::
         id < |w0.cells| && id in l0.owner && l0.owner[id] == Temp ==>
           id in l1.owner && l1.owner[id] == Temp && w1.cells[id] == w0.cells[id]
  }

  /** Objects stay what they are. */
  predicate SameKinds(st0: M.Store, st1: M.Store) {
    |st0| <= |st1| && forall k :: 0 <= k < |st0| ==> (st1[k].Cons? <==> st0[k].Cons?) && (st1[k].Scope? <==> st0[k].Scope?)
  }

  lemma LaterTrans(w0: World, l0: Layout, w1: World, l1: Layout, w2: World, l2: Layout)
    requires Later(w0, l0, w1, l1) && Later(w1, l1, w2, l2)
    ensures Later(w0, l0, w2, l2)
  {
  }

  lemma SymKept(w0: World, l0: Layout, w1: World, l1: Layout, s: nat, x: Val)
    requires Steady(w0, l0, w1, l1) && IsSym(l0, s, x)
    ensures IsSym(l1, s, x)
  {
    var i :| 0 <= i < |l0.known| && i < |l0.leaves| && l0.known[i] == s && x == Ref(l0.leaves[i]);
    assert l1.known[i] == s && l1.leaves[i] == l0.leaves[i];
  }

  lemma ValueKept(w0: World, l0: Layout, w1: World, l1: Layout, v: M.V, x: Val)
    requires Steady(w0, l0, w1, l1) && IsValue(w0, l0, v, x)
    ensures IsValue(w1, l1, v, x)
  {
    if v.Name? { SymKept(w0, l0, w1, l1, v.s, x); }
  }

  lemma PairKept(w0: World, l0: Layout, w1: World, l1: Layout, x: Val)
    requires Steady(w0, l0, w1, l1) && FrozenPair(w0, l0, x)
    ensures FrozenPair(w1, l1, x) && Hd(w1, x) == Hd(w0, x) && Tl(w1, x) == Tl(w0, x)
  {
  }

  lemma {:induction false} RowKept(w0: World, l0: Layout, w1: World, l1: Layout, x: Val, n: nat)
    requires Steady(w0, l0, w1, l1) && Row(w0, l0, x, n)
    ensures Row(w1, l1, x, n) && forall k: nat :: k < n ==> Item(w1, x, k) == Item(w0, x, k)
    decreases n
  {
    hide Steady, FrozenPair, Hd, Tl;
    if n == 0 {
    } else if x == Nil {
      forall k: nat | k < n ensures Item(w1, x, k) == Item(w0, x, k) {
        NilItem(w0, k);
        NilItem(w1, k);
      }
    } else {
      PairKept(w0, l0, w1, l1, x);
      RowKept(w0, l0, w1, l1, Tl(w0, x), n - 1);
    }
  }

  lemma {:induction false} NilItem(w: World, k: nat)
    ensures Item(w, Nil, k) == Nil
  {
    if k > 0 { NilItem(w, k - 1); }
  }

  lemma {:induction false} NamesKept(w0: World, l0: Layout, w1: World, l1: Layout, ns: seq<nat>, x: Val)
    requires Steady(w0, l0, w1, l1) && IsNames(w0, l0, ns, x)
    ensures IsNames(w1, l1, ns, x)
    decreases |ns|
  {
    hide Steady, IsSym, FrozenPair, Hd, Tl;
    if ns != [] {
      PairKept(w0, l0, w1, l1, x);
      SymKept(w0, l0, w1, l1, ns[0], Hd(w0, x));
      NamesKept(w0, l0, w1, l1, ns[1..], Tl(w0, x));
    }
  }

  lemma ParamsKept(w0: World, l0: Layout, w1: World, l1: Layout, p: M.Params, x: Val)
    requires Steady(w0, l0, w1, l1) && IsParams(w0, l0, p, x)
    ensures IsParams(w1, l1, p, x)
  {
    hide Steady;
    match p
    case Fixed(ns) => NamesKept(w0, l0, w1, l1, ns, x);
    case Rest(n) => SymKept(w0, l0, w1, l1, n, x);
  }

  lemma FormKept(w0: World, l0: Layout, w1: World, l1: Layout, keyword: nat, x: Val, n: nat)
    requires Steady(w0, l0, w1, l1) && Headed(w0, l0, keyword, x, n)
    ensures Headed(w1, l1, keyword, x, n) && Hd(w1, x) == Hd(w0, x) && Tl(w1, x) == Tl(w0, x)
    ensures forall k: nat :: k < n ==> Item(w1, x, k) == Item(w0, x, k)
    ensures n >= 2 ==> Tl(w1, Tl(w1, x)) == Tl(w0, Tl(w0, x))
  {
    hide Steady, IsSym;
    PairKept(w0, l0, w1, l1, x);
    SymKept(w0, l0, w1, l1, keyword, Hd(w0, x));
    RowKept(w0, l0, w1, l1, x, n);
    if n >= 2 && Tl(w0, x) != Nil { PairKept(w0, l0, w1, l1, Tl(w0, x)); }
  }

  lemma {:induction false} ExpKept(w0: World, l0: Layout, w1: World, l1: Layout, e: M.Exp, x: Val)
    requires Steady(w0, l0, w1, l1) && IsExp(w0, l0, e, x)
    ensures IsExp(w1, l1, e, x)
    decreases e
  {
    hide Steady, IsSym, FrozenPair, Hd, Tl, Item, Row, Headed, IsNum;
    match e
    case Null =>
    case Const(n) => ValueKept(w0, l0, w1, l1, M.Num(n), x);
    case Var(s) => SymKept(w0, l0, w1, l1, s, x);
    case Quote(q) =>
      FormKept(w0, l0, w1, l1, M.QUOTE, x, 2);
      ValueKept(w0, l0, w1, l1, q, Item(w0, x, 1));
    case Assign(s, e1) =>
      FormKept(w0, l0, w1, l1, M.SET, x, 3);
      SymKept(w0, l0, w1, l1, s, Item(w0, x, 1));
      ExpKept(w0, l0, w1, l1, e1, Item(w0, x, 2));
    case Def(s, e1) =>
      FormKept(w0, l0, w1, l1, M.DEFINE, x, 3);
      SymKept(w0, l0, w1, l1, s, Item(w0, x, 1));
      ExpKept(w0, l0, w1, l1, e1, Item(w0, x, 2));
    case DefProc(s, params, body) =>
      FormKept(w0, l0, w1, l1, M.DEFINE, x, 2);
      PairKept(w0, l0, w1, l1, Item(w0, x, 1));
      SymKept(w0, l0, w1, l1, s, Hd(w0, Item(w0, x, 1)));
      ParamsKept(w0, l0, w1, l1, params, Tl(w0, Item(w0, x, 1)));
      ExpsKept(w0, l0, w1, l1, body, Tl(w0, Tl(w0, x)));
    case If(test, con, alt) =>
      FormKept(w0, l0, w1, l1, M.IF, x, 4);
      ExpKept(w0, l0, w1, l1, test, Item(w0, x, 1));
      ExpKept(w0, l0, w1, l1, con, Item(w0, x, 2));
      ExpKept(w0, l0, w1, l1, alt, Item(w0, x, 3));
    case Let(names, vals, e1) =>
      FormKept(w0, l0, w1, l1, M.LET, x, 3);
      BindingsKept(w0, l0, w1, l1, names, vals, Item(w0, x, 1));
      ExpKept(w0, l0, w1, l1, e1, Item(w0, x, 2));
    case Lambda(params, body) =>
      FormKept(w0, l0, w1, l1, M.LAMBDA, x, 2);
      ParamsKept(w0, l0, w1, l1, params, Item(w0, x, 1));
      ExpsKept(w0, l0, w1, l1, body, Tl(w0, Tl(w0, x)));
    case Begin(body) =>
      FormKept(w0, l0, w1, l1, M.BEGIN, x, 1);
      ExpsKept(w0, l0, w1, l1, body, Tl(w0, x));
    case Cond(clauses) =>
      FormKept(w0, l0, w1, l1, M.COND, x, 1);
      ClausesKept(w0, l0, w1, l1, clauses, Tl(w0, x));
    case Call(op, args) =>
      PairKept(w0, l0, w1, l1, x);
      ExpKept(w0, l0, w1, l1, op, Hd(w0, x));
      ExpsKept(w0, l0, w1, l1, args, Tl(w0, x));
  }

  lemma {:induction false} ExpsKept(w0: World, l0: Layout, w1: World, l1: Layout, es: seq<M.Exp>, x: Val)
    requires Steady(w0, l0, w1, l1) && IsExps(w0, l0, es, x)
    ensures IsExps(w1, l1, es, x)
    decreases es
  {
    hide Steady, FrozenPair, Hd, Tl;
    if es != [] {
      PairKept(w0, l0, w1, l1, x);
      ExpKept(w0, l0, w1, l1, es[0], Hd(w0, x));
      ExpsKept(w0, l0, w1, l1, es[1..], Tl(w0, x));
    }
  }

  lemma {:induction false} BindingsKept(w0: World, l0: Layout, w1: World, l1: Layout, names: seq<nat>, vals: seq<M.Exp>, x: Val)
    requires |names| == |vals| && Steady(w0, l0, w1, l1) && AreBindings(w0, l0, names, vals, x)
    ensures AreBindings(w1, l1, names, vals, x)
    decreases vals
  {
    hide Steady, FrozenPair, Hd, Tl, Item, Row, IsSym;
    if vals != [] {
      PairKept(w0, l0, w1, l1, x);
      PairKept(w0, l0, w1, l1, Hd(w0, x));
      RowKept(w0, l0, w1, l1, Hd(w0, x), 2);
      SymKept(w0, l0, w1, l1, names[0], Hd(w0, Hd(w0, x)));
      ExpKept(w0, l0, w1, l1, vals[0], Item(w0, Hd(w0, x), 1));
      BindingsKept(w0, l0, w1, l1, names[1..], vals[1..], Tl(w0, x));
    }
  }

  lemma {:induction false} ClausesKept(w0: World, l0: Layout, w1: World, l1: Layout, cs: seq<M.Clause>, x: Val)
    requires Steady(w0, l0, w1, l1) && AreClauses(w0, l0, cs, x)
    ensures AreClauses(w1, l1, cs, x)
    decreases cs
  {
    hide Steady, FrozenPair, Hd, Tl, IsClause;
    if cs != [] {
      PairKept(w0, l0, w1, l1, x);
      ClauseKept(w0, l0, w1, l1, cs[0], Hd(w0, x));
      ClausesKept(w0, l0, w1, l1, cs[1..], Tl(w0, x));
    }
  }

  lemma {:induction false} ClauseKept(w0: World, l0: Layout, w1: World, l1: Layout, c: M.Clause, x: Val)
    requires Steady(w0, l0, w1, l1) && IsClause(w0, l0, c, x)
    ensures IsClause(w1, l1, c, x)
    decreases c
  {
    hide Steady, FrozenPair, Hd, Tl, Row;
    RowKept(w0, l0, w1, l1, x, 2);
    assert Item(w0, x, 0) == Hd(w0, x) && Item(w1, x, 0) == Hd(w1, x);
    ExpKept(w0, l0, w1, l1, c.test, Hd(w0, x));
    ExpKept(w0, l0, w1, l1, c.val, Item(w0, x, 1));
  }
}
