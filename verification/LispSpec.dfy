/** What lisp/lisp.c computes, on a heap that is never collected: cells are only ever added, and a
    reference is the cell's number for good. */
module LispSpec {

  import opened Collector

  /** Bad is what the raw words of a leaf would be if taken for references. */
  datatype Val = Nil | Ref(id: nat) | Bad

  /** A symbol's words stand for its name, a number's for its value. */
  datatype Cell = Pair(car: Val, cdr: Val) | Leaf(tag: nat, hi: nat, lo: nat)

  datatype World = World(cells: seq<Cell>, symbols: Val, global: Val)

  /** Stuck: an error exit, or an operation whose outcome here is not modelled.  Timeout: the bound on
      the number of steps was too small. */
  datatype Res<T> = Ok(w: World, v: T) | Stuck | Timeout

  // ----- Cells -----

  predicate IsPair(w: World, v: Val) { v.Ref? && v.id < |w.cells| && w.cells[v.id].Pair? }

  predicate IsLeaf(w: World, v: Val, tag: nat) { v.Ref? && v.id < |w.cells| && w.cells[v.id].Leaf? && w.cells[v.id].tag == tag }

  function Car(w: World, v: Val): Val {
    if v == Nil then Nil else if IsPair(w, v) then w.cells[v.id].car else Bad
  }

  function Cdr(w: World, v: Val): Val {
    if v == Nil then Nil else if IsPair(w, v) then w.cells[v.id].cdr else Bad
  }

  function Add(w: World, c: Cell): World { w.(cells := w.cells + [c]) }

  /** The reference to the next cell. */
  function Next(w: World): Val { Ref(|w.cells|) }

  function SetCar(w: World, v: Val, x: Val): World
    requires IsPair(w, v)
  {
    w.(cells := w.cells[v.id := Pair(x, w.cells[v.id].cdr)])
  }

  function SetCdr(w: World, v: Val, x: Val): World
    requires IsPair(w, v)
  {
    w.(cells := w.cells[v.id := Pair(w.cells[v.id].car, x)])
  }

  function Cons(w: World, a: Val, d: Val): Res<Val> {
    if a == Bad || d == Bad then Stuck else Ok(Add(w, Pair(a, d)), Next(w))
  }

  // ----- Lists and symbols -----

  /** The last pair of a list. */
  function Last(w: World, q: Val, fuel: nat): Res<Val>
    decreases fuel
  {
    if fuel == 0 then Timeout
    else if !IsPair(w, q) || Cdr(w, q) == Bad then Stuck
    else if Cdr(w, q) == Nil then Ok(w, q)
    else Last(w, Cdr(w, q), fuel - 1)
  }

  function Append(w: World, q: Val, x: Val, fuel: nat): Res<Val> {
    if x == Bad then Stuck
    else if q == Nil then Cons(w, x, Nil)
    else
      match Last(w, q, fuel)
      case Ok(_, l) =>
        var w1 := Add(w, Pair(x, Nil));
        if IsPair(w1, l) then Ok(SetCdr(w1, l, Next(w)), q) else Stuck
      case Stuck => Stuck
      case Timeout => Timeout
  }

  function Symbol(name: nat): Cell { Leaf(TAG_SYM, 0, name) }

  /** The symbol of that name in a list of symbols; Nil if there is none. */
  function Find(w: World, sym: Val, name: nat, fuel: nat): Res<Val>
    decreases fuel
  {
    if fuel == 0 then Timeout
    else if sym == Nil then Ok(w, Nil)
    else if !IsLeaf(w, Car(w, sym), TAG_SYM) then Stuck
    else if w.cells[Car(w, sym).id] == Symbol(name) then Ok(w, Car(w, sym))
    else Find(w, Cdr(w, sym), name, fuel - 1)
  }

  function Getsym(w: World, name: nat, fuel: nat): Res<Val> {
    match Find(w, w.symbols, name, fuel)
    case Ok(_, c) =>
      if c != Nil then Ok(w, c)
      else
        (match Append(Add(w, Symbol(name)), w.symbols, Next(w), fuel)
         case Ok(w2, l) => Ok(w2.(symbols := l), Next(w))
         case Stuck => Stuck
         case Timeout => Timeout)
    case Stuck => Stuck
    case Timeout => Timeout
  }

  /** The chain of comparisons with getsym of each name in turn; |names| if none is v. */
  function Which(w: World, v: Val, names: seq<nat>, k: nat, fuel: nat): Res<nat>
    requires k <= |names|
    decreases |names| - k
  {
    if k == |names| then Ok(w, k)
    else
      match Getsym(w, names[k], fuel)
      case Ok(w1, c) => if v == c then Ok(w1, k) else Which(w1, v, names, k + 1, fuel)
      case Stuck => Stuck
      case Timeout => Timeout
  }

  // ----- Environments -----

  /** The pair of the values whose car is the variable's, in one frame; Nil if it is not there. */
  function InFrame(w: World, x: Val, vars: Val, vals: Val, fuel: nat): Res<Val>
    decreases fuel
  {
    if fuel == 0 then Timeout
    else if vars == Nil then Ok(w, Nil)
    else if Car(w, vars) == Bad || !IsPair(w, vals) then Stuck
    else if x == Car(w, vars) then Ok(w, vals)
    else InFrame(w, x, Cdr(w, vars), Cdr(w, vals), fuel - 1)
  }

  /** The same through all frames of an environment; an unbound variable is an error. */
  function InEnv(w: World, x: Val, env: Val, fuel: nat): Res<Val>
    decreases fuel
  {
    if fuel == 0 then Timeout
    else if env == Nil || Car(w, env) == Bad || Cdr(w, Car(w, env)) == Bad then Stuck
    else
      match InFrame(w, x, Car(w, Car(w, env)), Cdr(w, Car(w, env)), fuel)
      case Ok(_, p) => if p != Nil then Ok(w, p) else InEnv(w, x, Cdr(w, env), fuel - 1)
      case Stuck => Stuck
      case Timeout => Timeout
  }

  function Lookup(w: World, x: Val, env: Val, fuel: nat): Res<Val> {
    match InEnv(w, x, env, fuel)
    case Ok(_, p) => if Car(w, p) == Bad then Stuck else Ok(w, Car(w, p))
    case Stuck => Stuck
    case Timeout => Timeout
  }

  const OK: nat := 50

  function Assign(w: World, x: Val, v: Val, env: Val, fuel: nat): Res<Val> {
    if !IsLeaf(w, x, TAG_SYM) || v == Bad then Stuck
    else
      match InEnv(w, x, env, fuel)
      case Ok(_, p) => if IsPair(w, p) then Getsym(SetCar(w, p, v), OK, fuel) else Stuck
      case Stuck => Stuck
      case Timeout => Timeout
  }

  function Define(w: World, x: Val, v: Val, env: Val, fuel: nat): Res<Val> {
    if !IsLeaf(w, x, TAG_SYM) || v == Bad || !IsPair(w, env) || Car(w, env) == Bad
       || Car(w, Car(w, env)) == Bad || Cdr(w, Car(w, env)) == Bad then Stuck
    else
      var vars := Car(w, Car(w, env));
      var vals := Cdr(w, Car(w, env));
      match InFrame(w, x, vars, vals, fuel)
      case Ok(_, p) =>
        if IsPair(w, p) then Getsym(SetCar(w, p, v), OK, fuel)
        else if p != Nil then Stuck
        else Bind(w, x, v, env, vars, vals, fuel)
      case Stuck => Stuck
      case Timeout => Timeout
  }

  /** A new variable at the front of the first frame. */
  function Bind(w: World, x: Val, v: Val, env: Val, vars: Val, vals: Val, fuel: nat): Res<Val> {
    var w1 := Add(w, Pair(x, vars));
    var w2 := Add(w1, Pair(v, vals));
    var w3 := Add(w2, Pair(Next(w), Next(w1)));
    if IsPair(w3, env) then Getsym(SetCar(w3, env, Next(w2)), OK, fuel) else Stuck
  }

  // ----- eval and apply -----

  const LAMBDA: nat := 6
  const PROCEDURE: nat := 40
  const FALSE: nat := 41
  const TRUE: nat := 42
  const KEYWORDS: seq<nat> := [1, 2, 3, 4, 5, LAMBDA, 7, 8]      // quote set! define if let lambda begin cond
  /** + - * / = < > and or not null? pair? eq? cons car cdr set-car! set-cdr! eval display */
  const PRIMITIVES: seq<nat> := [10, 11, 12, 13, 14, 15, 16, 17, 18, 19, 20, 21, 22, 23, 24, 25, 26, 27, 28, 29]

  function Cadr(w: World, v: Val): Val { Car(w, Cdr(w, v)) }
  function Cddr(w: World, v: Val): Val { Cdr(w, Cdr(w, v)) }
  function Caddr(w: World, v: Val): Val { Car(w, Cddr(w, v)) }
  function Cadddr(w: World, v: Val): Val { Car(w, Cdr(w, Cddr(w, v))) }

  function Eval(w: World, exp: Val, env: Val, fuel: nat): Res<Val>
    decreases fuel, 4
  {
    if fuel == 0 then Timeout
    else if exp == Nil then Ok(w, Nil)
    else if IsLeaf(w, exp, TAG_SYM) then Lookup(w, exp, env, fuel)
    else if !IsPair(w, exp) then (if exp.Ref? && exp.id < |w.cells| then Ok(w, exp) else Stuck)
    else
      match Which(w, Car(w, exp), KEYWORDS, 0, fuel)
      case Ok(w1, k) => Form(w1, k, exp, env, fuel)
      case Stuck => Stuck
      case Timeout => Timeout
  }

  function Form(w: World, k: nat, exp: Val, env: Val, fuel: nat): Res<Val>
    requires fuel > 0
    decreases fuel, 3
  {
    if k == 0 then (if Cadr(w, exp) == Bad then Stuck else Ok(w, Cadr(w, exp)))
    else if k == 1 then SetBang(w, exp, env, fuel)
    else if k == 2 then Definition(w, exp, env, fuel)
    else if k == 3 then If(w, exp, env, fuel)
    else if k == 4 then
      match Let(w, Cdr(w, exp), fuel)
      case Ok(w1, l) => Eval(w1, l, env, fuel - 1)
      case Stuck => Stuck
      case Timeout => Timeout
    else if k == 5 then Closure(w, Cadr(w, exp), Cddr(w, exp), env, fuel)
    else if k == 6 then Sequence(w, Cdr(w, exp), env, fuel)
    else if k == 7 then Cond(w, Cdr(w, exp), env, fuel)
    else Application(w, exp, env, fuel)
  }

  function SetBang(w: World, exp: Val, env: Val, fuel: nat): Res<Val>
    requires fuel > 0
    decreases fuel, 1
  {
    if Cadr(w, exp) == Bad || Caddr(w, exp) == Bad then Stuck
    else
      match Eval(w, Caddr(w, exp), env, fuel - 1)
      case Ok(w1, v) => Assign(w1, Cadr(w, exp), v, env, fuel)
      case Stuck => Stuck
      case Timeout => Timeout
  }

  function Definition(w: World, exp: Val, env: Val, fuel: nat): Res<Val>
    requires fuel > 0
    decreases fuel, 2
  {
    if IsLeaf(w, Cadr(w, exp), TAG_SYM) then
      if Caddr(w, exp) == Bad then Stuck
      else
        match Eval(w, Caddr(w, exp), env, fuel - 1)
        case Ok(w1, v) => Define(w1, Cadr(w, exp), v, env, fuel)
        case Stuck => Stuck
        case Timeout => Timeout
    else if IsPair(w, Cadr(w, exp)) && Cddr(w, exp) != Bad then DefineProcedure(w, Cadr(w, exp), Cddr(w, exp), env, fuel)
    else Stuck
  }

  function If(w: World, exp: Val, env: Val, fuel: nat): Res<Val>
    requires fuel > 0
    decreases fuel, 1
  {
    if Cadr(w, exp) == Bad then Stuck
    else
      match Eval(w, Cadr(w, exp), env, fuel - 1)
      case Ok(w1, p) =>
        (match Getsym(w1, FALSE, fuel)
         case Ok(w2, f) =>
           var branch := if p != f then Caddr(w2, exp) else Cadddr(w2, exp);
           if branch == Bad then Stuck else Eval(w2, branch, env, fuel - 1)
         case Stuck => Stuck
         case Timeout => Timeout)
      case Stuck => Stuck
      case Timeout => Timeout
  }

  function Application(w: World, exp: Val, env: Val, fuel: nat): Res<Val>
    requires fuel > 0
    decreases fuel, 2
  {
    if Car(w, exp) == Bad || Cdr(w, exp) == Bad then Stuck
    else
      match Eval(w, Car(w, exp), env, fuel - 1)
      case Ok(w1, op) =>
        (match Arguments(w1, Cdr(w, exp), env, Nil, fuel)
         case Ok(w2, args) => Apply(w2, op, args, fuel - 1)
         case Stuck => Stuck
         case Timeout => Timeout)
      case Stuck => Stuck
      case Timeout => Timeout
  }

  /** (define (f . par) . body). */
  function DefineProcedure(w: World, head: Val, body: Val, env: Val, fuel: nat): Res<Val>
    requires fuel > 0
    decreases fuel, 1
  {
    if Car(w, head) == Bad || Cdr(w, head) == Bad || body == Bad then Stuck
    else
      match Getsym(w, LAMBDA, fuel)
      case Ok(w1, l) =>
        var w2 := Add(w1, Pair(Cdr(w, head), body));
        (match Eval(Add(w2, Pair(l, Next(w1))), Next(w2), env, fuel - 1)
         case Ok(w4, p) => Define(w4, Car(w, head), p, env, fuel)
         case Stuck => Stuck
         case Timeout => Timeout)
      case Stuck => Stuck
      case Timeout => Timeout
  }

  /** (procedure params body env). */
  function Closure(w: World, params: Val, body: Val, env: Val, fuel: nat): Res<Val> {
    if params == Bad || body == Bad then Stuck
    else
      match Getsym(w, PROCEDURE, fuel)
      case Ok(w1, p) =>
        var w2 := Add(w1, Pair(env, Nil));
        var w3 := Add(w2, Pair(body, Next(w1)));
        var w4 := Add(w3, Pair(params, Next(w2)));
        Ok(Add(w4, Pair(p, Next(w3))), Next(w4))
      case Stuck => Stuck
      case Timeout => Timeout
  }

  /** The loop of begin and of a procedure's body. */
  function Sequence(w: World, s: Val, env: Val, fuel: nat): Res<Val>
    decreases fuel, 1
  {
    if fuel == 0 then Timeout
    else if Cdr(w, s) == Bad then Stuck
    else if Cdr(w, s) == Nil then Eval(w, Car(w, s), env, fuel - 1)
    else
      match Eval(w, Car(w, s), env, fuel - 1)
      case Ok(w1, _) => if Cdr(w1, s) == Bad then Stuck else Sequence(w1, Cdr(w1, s), env, fuel - 1)
      case Stuck => Stuck
      case Timeout => Timeout
  }

  function Cond(w: World, s: Val, env: Val, fuel: nat): Res<Val>
    decreases fuel, 1
  {
    if fuel == 0 then Timeout
    else if s == Nil then Getsym(w, FALSE, fuel)
    else if Car(w, Car(w, s)) == Bad then Stuck
    else
      match Eval(w, Car(w, Car(w, s)), env, fuel - 1)
      case Ok(w1, r) =>
        (match Getsym(w1, TRUE, fuel)
         case Ok(w2, t) =>
           if r == t then (if Cadr(w2, Car(w, s)) == Bad then Stuck else Eval(w2, Cadr(w2, Car(w, s)), env, fuel - 1))
           else if Cdr(w2, s) == Bad then Stuck
           else Cond(w2, Cdr(w2, s), env, fuel - 1)
         case Stuck => Stuck
         case Timeout => Timeout)
      case Stuck => Stuck
      case Timeout => Timeout
  }

  function Arguments(w: World, s: Val, env: Val, args: Val, fuel: nat): Res<Val>
    decreases fuel, 1
  {
    if fuel == 0 then Timeout
    else if s == Nil then Ok(w, args)
    else if Car(w, s) == Bad then Stuck
    else
      match Eval(w, Car(w, s), env, fuel - 1)
      case Ok(w1, r) =>
        (match Append(w1, args, r, fuel)
         case Ok(w2, args2) => if Cdr(w2, s) == Bad then Stuck else Arguments(w2, Cdr(w2, s), env, args2, fuel - 1)
         case Stuck => Stuck
         case Timeout => Timeout)
      case Stuck => Stuck
      case Timeout => Timeout
  }

  /** let2lambda, of the bindings and the body. */
  function Let(w: World, exp: Val, fuel: nat): Res<Val> {
    if Car(w, exp) == Bad then Stuck
    else match Bindings(w, Car(w, exp), Nil, Nil, fuel)
    case Ok(w1, av) => Redex(w1, av.0, av.1, Cdr(w, exp), fuel)
    case Stuck => Stuck
    case Timeout => Timeout
  }

  /** ((lambda args body) . vals), the first expression of a body only. */
  function Redex(w: World, args: Val, vals: Val, body: Val, fuel: nat): Res<Val> {
    match Getsym(w, LAMBDA, fuel)
    case Ok(w1, l) =>
      (match Append(w1, Nil, l, fuel)
       case Ok(w2, l1) =>
         (match Append(w2, l1, args, fuel)
          case Ok(w3, l2) =>
            (match Append(w3, l2, Car(w3, body), fuel)
             case Ok(w4, l3) => Cons(w4, l3, vals)
             case Stuck => Stuck
             case Timeout => Timeout)
          case Stuck => Stuck
          case Timeout => Timeout)
       case Stuck => Stuck
       case Timeout => Timeout)
    case Stuck => Stuck
    case Timeout => Timeout
  }

  /** The lists of the names and of the expressions of the bindings. */
  function Bindings(w: World, s: Val, args: Val, vals: Val, fuel: nat): Res<(Val, Val)>
    decreases fuel
  {
    if fuel == 0 then Timeout
    else if s == Nil then Ok(w, (args, vals))
    else
      match Binding(w, s, args, vals, fuel)
      case Ok(w2, av) => if Cdr(w2, s) == Bad then Stuck else Bindings(w2, Cdr(w2, s), av.0, av.1, fuel - 1)
      case Stuck => Stuck
      case Timeout => Timeout
  }

  /** One binding: its name and its expression, each at the end of its list. */
  function Binding(w: World, s: Val, args: Val, vals: Val, fuel: nat): Res<(Val, Val)> {
    match Append(w, args, Car(w, Car(w, s)), fuel)
    case Ok(w1, a) =>
      (match Append(w1, vals, Cadr(w1, Car(w1, s)), fuel)
       case Ok(w2, v) => Ok(w2, (a, v))
       case Stuck => Stuck
       case Timeout => Timeout)
    case Stuck => Stuck
    case Timeout => Timeout
  }

  /** consint, but for numbers that would look like forwarding marks. */
  function Number(w: World, hi: nat, lo: nat): Res<Val> {
    if hi == TAG_MARK then Stuck else Ok(Add(w, Leaf(TAG_INT, hi, lo)), Next(w))
  }

  const LIMIT: nat := 0x1_0000_0000

  /** getint, of 64 bits in two's complement. */
  function Signed(hi: nat, lo: nat): int {
    var n := hi * LIMIT + lo;
    if n < LIMIT * LIMIT / 2 then n else n - LIMIT * LIMIT
  }

  function Int(w: World, n: int): Res<Val> { Number(w, n / LIMIT % LIMIT, n % LIMIT) }

  /** Division that drops the fraction, of a positive and of a negative number. */
  function Divide(x: int, y: int): (q: int)
    requires y != 0
    ensures Size(x - q * y) < Size(y) && (x - q * y == 0 || (x - q * y < 0 <==> x < 0))
  {
    if x >= 0 then x / y else -(-x / y)
  }

  function Size(x: int): nat { if x < 0 then -x else x }

  /** Quotients C leaves undefined: by zero, and of the least number by -1. */
  predicate Undefined(op: nat, x: int, y: int) {
    op == 3 && (y == 0 || (x + LIMIT * LIMIT / 2 == 0 && y == -1))
  }

  /** The operations + - * / by their place among the primitives. */
  function Compute(op: nat, x: int, y: int): int
    requires !Undefined(op, x, y)
  {
    if op == 0 then x + y else if op == 1 then x - y else if op == 3 then Divide(x, y) else x * y
  }

  /** f_add and f_mul on integers. */
  function Total(w: World, op: nat, l: Val, fuel: nat): Res<Val>
    decreases fuel
  {
    if fuel == 0 then Timeout
    else if l == Nil then Int(w, if op == 2 then 1 else 0)
    else if Cdr(w, l) == Bad then Stuck
    else
      match Total(w, op, Cdr(w, l), fuel - 1)
      case Ok(w1, b) => Arith(w1, op, Car(w, l), b)
      case Stuck => Stuck
      case Timeout => Timeout
  }

  function Arith(w: World, op: nat, a: Val, b: Val): Res<Val> {
    if IsLeaf(w, a, TAG_INT) && IsLeaf(w, b, TAG_INT) then
      var x, y := Signed(w.cells[a.id].hi, w.cells[a.id].lo), Signed(w.cells[b.id].hi, w.cells[b.id].lo);
      if Undefined(op, x, y) then Stuck else Int(w, Compute(op, x, y))
    else Stuck
  }

  /** f_sub on integers. */
  function Difference(w: World, l: Val, fuel: nat): Res<Val> {
    if l == Nil then Int(w, 0)
    else if Cdr(w, l) == Bad then Stuck
    else if Cdr(w, l) == Nil then
      if IsLeaf(w, Car(w, l), TAG_INT) then
        var x := w.cells[Car(w, l).id];
        Int(w, -Signed(x.hi, x.lo))
      else Stuck
    else
      match Total(w, 0, Cdr(w, l), fuel)
      case Ok(w1, b) => Arith(w1, 1, Car(w, l), b)
      case Stuck => Stuck
      case Timeout => Timeout
  }

  /** f_div on integers: the first by the product of the others. */
  function Quotient(w: World, l: Val, fuel: nat): Res<Val> {
    if l == Nil then Int(w, 1)
    else if Cdr(w, l) == Bad then Stuck
    else
      match Total(w, 2, Cdr(w, l), fuel)
      case Ok(w1, b) => Arith(w1, 3, Car(w, l), b)
      case Stuck => Stuck
      case Timeout => Timeout
  }

  /** eq, lt and gt on integers, as = < >. */
  function Compare(w: World, k: nat, a: Val, b: Val, fuel: nat): Res<Val> {
    if IsLeaf(w, a, TAG_INT) && IsLeaf(w, b, TAG_INT) then
      var c, d := w.cells[a.id], w.cells[b.id];
      var x, y := Signed(c.hi, c.lo), Signed(d.hi, d.lo);
      Truth(w, if k == 4 then x == y else if k == 5 then x < y else x > y, fuel)
    else Stuck
  }

  /** and (stop at #f) and or (stop at #t). */
  function Logic(w: World, stop: bool, l: Val, fuel: nat): Res<Val>
    decreases fuel
  {
    if fuel == 0 then Timeout
    else if l == Nil then Truth(w, !stop, fuel)
    else if Car(w, l) == Bad then Stuck
    else
      match Truth(w, stop, fuel)
      case Ok(w1, s) =>
        if Car(w, l) == s then Truth(w1, stop, fuel)
        else if Cdr(w1, l) == Bad then Stuck
        else Logic(w1, stop, Cdr(w1, l), fuel - 1)
      case Stuck => Stuck
      case Timeout => Timeout
  }

  function Not(w: World, a: Val, fuel: nat): Res<Val> {
    match Truth(w, true, fuel)
    case Ok(w1, t) => Truth(w1, a != t, fuel)
    case Stuck => Stuck
    case Timeout => Timeout
  }

  function Truth(w: World, b: bool, fuel: nat): Res<Val> { Getsym(w, if b then TRUE else FALSE, fuel) }

  /** eqq; floats are not modelled. */
  function Same(w: World, a: Val, b: Val, fuel: nat): Res<Val> {
    if a == Bad || b == Bad then Stuck
    else if a == b then Truth(w, true, fuel)
    else if IsLeaf(w, a, TAG_FLOAT) && IsLeaf(w, b, TAG_FLOAT) then Stuck
    else if IsLeaf(w, a, TAG_INT) && IsLeaf(w, b, TAG_INT) then Truth(w, w.cells[a.id] == w.cells[b.id], fuel)
    else Truth(w, false, fuel)
  }

  function Length(w: World, l: Val, fuel: nat): Res<nat>
    decreases fuel
  {
    if fuel == 0 then Timeout
    else if l == Nil then Ok(w, 0)
    else if Cdr(w, l) == Bad then Stuck
    else
      match Length(w, Cdr(w, l), fuel - 1)
      case Ok(_, n) => Ok(w, n + 1)
      case Stuck => Stuck
      case Timeout => Timeout
  }

  function Apply(w: World, proc: Val, args: Val, fuel: nat): Res<Val>
    decreases fuel, 4
  {
    if fuel == 0 then Timeout
    else
      match Which(w, proc, PRIMITIVES, 0, fuel)
      case Ok(w1, k) =>
        if k == |PRIMITIVES| then Call(w1, proc, args, fuel)
        else if k == 18 then (if Car(w1, args) == Bad then Stuck else Eval(w1, Car(w1, args), w1.global, fuel - 1))
        else Primitive(w1, k, args, fuel)
      case Stuck => Stuck
      case Timeout => Timeout
  }

  /** The primitives, but for display. */
  function Primitive(w: World, k: nat, args: Val, fuel: nat): Res<Val> {
    if k == 0 || k == 2 then Total(w, k, args, fuel)
    else if k == 1 then Difference(w, args, fuel)
    else if k == 3 then Quotient(w, args, fuel)
    else if k == 7 || k == 8 then Logic(w, k == 8, args, fuel)
    else if Car(w, args) == Bad then Stuck
    else if k in {9, 10, 11, 14, 15} then Primitive1(w, k, Car(w, args), fuel)
    else if Cadr(w, args) == Bad then Stuck
    else Primitive2(w, k, Car(w, args), Cadr(w, args), fuel)
  }

  function Primitive1(w: World, k: nat, a: Val, fuel: nat): Res<Val> {
    if k == 9 then Not(w, a, fuel)
    else if k == 10 then Truth(w, a == Nil, fuel)
    else if k == 11 then Truth(w, IsPair(w, a), fuel)
    else if k == 14 then (if Car(w, a) == Bad then Stuck else Ok(w, Car(w, a)))
    else (if Cdr(w, a) == Bad then Stuck else Ok(w, Cdr(w, a)))
  }

  function Primitive2(w: World, k: nat, a: Val, b: Val, fuel: nat): Res<Val> {
    if 4 <= k < 7 then Compare(w, k, a, b, fuel)
    else if k == 12 then Same(w, a, b, fuel)
    else if k == 13 then Cons(w, a, b)
    else if k == 16 then (if IsPair(w, a) then Getsym(SetCar(w, a, b), OK, fuel) else Stuck)
    else if k == 17 then (if IsPair(w, a) then Getsym(SetCdr(w, a, b), OK, fuel) else Stuck)
    else Stuck
  }

  /** A procedure made by lambda. */
  function Call(w: World, proc: Val, args: Val, fuel: nat): Res<Val>
    requires fuel > 0
    decreases fuel, 3
  {
    if Car(w, proc) == Bad then Stuck
    else
      match Getsym(w, PROCEDURE, fuel)
      case Ok(w1, p) =>
        if Car(w, proc) != p || Cadr(w1, proc) == Bad then Stuck
        else
          var params := Cadr(w1, proc);
          if IsLeaf(w1, params, TAG_SYM) then
            var w2 := Add(w1, Pair(params, Nil));
            Body(Add(w2, Pair(args, Nil)), proc, Next(w1), Next(w2), fuel)
          else Body(w1, proc, params, args, fuel)
      case Stuck => Stuck
      case Timeout => Timeout
  }

  function Body(w: World, proc: Val, params: Val, args: Val, fuel: nat): Res<Val>
    requires fuel > 0
    decreases fuel, 2
  {
    match Length(w, params, fuel)
    case Ok(_, n) =>
      (match Length(w, args, fuel)
       case Ok(_, k) =>
         if n != k || Caddr(w, proc) == Bad || Cadddr(w, proc) == Bad then Stuck
         else
           var w1 := Add(w, Pair(params, args));
           Sequence(Add(w1, Pair(Next(w), Cadddr(w, proc))), Caddr(w, proc), Next(w1), fuel)
       case Stuck => Stuck
       case Timeout => Timeout)
    case Stuck => Stuck
    case Timeout => Timeout
  }
}
