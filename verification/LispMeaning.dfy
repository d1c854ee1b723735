/** The language of lisp/lisp.c: expressions, values, and what an expression means in a store of pairs,
    procedures and scopes.  Nothing here is about cells, lists or words. */
module LispMeaning {

  // ----- Names -----

  const QUOTE: nat := 1
  const SET: nat := 2
  const DEFINE: nat := 3
  const IF: nat := 4
  const LET: nat := 5
  const LAMBDA: nat := 6
  const BEGIN: nat := 7
  const COND: nat := 8
  const PROCEDURE: nat := 40
  const FALSE: nat := 41    // #f
  const TRUE: nat := 42     // #t
  const OK: nat := 50

  predicate Keyword(s: nat) { s in {QUOTE, SET, DEFINE, IF, LET, LAMBDA, BEGIN, COND} }

  /** + - * / = < > and or not null? pair? eq? cons car cdr set-car! set-cdr! eval display, which are
      the names from 10 on. */
  datatype Op =
    | Add | Sub | Mul | Div | Eq | Lt | Gt | And | Or | Not | NullQ | PairQ | EqQ | ConsOp | CarOp | CdrOp
    | SetCarOp | SetCdrOp | EvalOp | DisplayOp

  const OPS: seq<Op> := [Add, Sub, Mul, Div, Eq, Lt, Gt, And, Or, Not, NullQ, PairQ, EqQ, ConsOp, CarOp, CdrOp,
                         SetCarOp, SetCdrOp, EvalOp, DisplayOp]

  predicate Primitive(s: nat) { 10 <= s < 30 }

  // ----- Expressions, values, stores -----

  /** At is a pair or a procedure. */
  datatype V = Empty | Num(n: int) | Name(s: nat) | At(loc: nat)

  /** A list of names, or one name for the list of all arguments. */
  datatype Params = Fixed(names: seq<nat>) | Rest(name: nat)

  datatype Clause = Clause(test: Exp, val: Exp)

  datatype Exp =
    | Null
    | Const(n: int)
    | Var(s: nat)
    | Quote(q: V)
    | Assign(s: nat, e: Exp)
    | Def(s: nat, e: Exp)
    | DefProc(s: nat, params: Params, body: seq<Exp>)
    | If(test: Exp, con: Exp, alt: Exp)
    | Let(names: seq<nat>, vals: seq<Exp>, e: Exp)
    | Lambda(params: Params, body: seq<Exp>)
    | Begin(body: seq<Exp>)
    | Cond(clauses: seq<Clause>)
    | Call(op: Exp, args: seq<Exp>)

  datatype Bind = Bind(name: nat, v: V)

  datatype Up = Top | Up(scope: nat)

  datatype Obj =
    | Cons(car: V, cdr: V)
    | Proc(params: Params, body: seq<Exp>, scope: nat)
    | Scope(binds: seq<Bind>, up: Up)

  type Store = seq<Obj>

  /** Error: the program stops with a message.  Wild: eval and display, a procedure taken apart as the
      list it is made of, and numbers that the collector takes for marks, of which nothing is said.
      More: the bound on the number of steps was too small. */
  datatype Out<T> = Done(st: Store, v: T) | Error | Wild | More

  // ----- Scopes -----

  /** The first binding of the name, or the end. */
  function Place(binds: seq<Bind>, s: nat): (k: nat)
    ensures k <= |binds| && (k < |binds| ==> binds[k].name == s) && forall j :: 0 <= j < k ==> binds[j].name != s
  {
    if binds == [] || binds[0].name == s then 0 else 1 + Place(binds[1..], s)
  }

  datatype Spot = Nowhere | Spot(scope: nat, k: nat)

  /** The innermost binding of the name. */
  function Seek(st: Store, s: nat, scope: nat): (r: Spot)
    ensures r.Spot? ==> r.scope < |st| && st[r.scope].Scope? && r.k < |st[r.scope].binds| && st[r.scope].binds[r.k].name == s
    decreases scope
  {
    if scope >= |st| || !st[scope].Scope? then Nowhere
    else
      var k := Place(st[scope].binds, s);
      if k < |st[scope].binds| then Spot(scope, k)
      else if st[scope].up.Up? && st[scope].up.scope < scope then Seek(st, s, st[scope].up.scope)
      else Nowhere
  }

  function Rebind(st: Store, at: Spot, v: V): Store
    requires at.Spot? && at.scope < |st| && st[at.scope].Scope? && at.k < |st[at.scope].binds|
  {
    var b := st[at.scope].binds;
    st[at.scope := st[at.scope].(binds := b[at.k := b[at.k].(v := v)])]
  }

  /** set! */
  function SetVar(st: Store, s: nat, v: V, scope: nat): Out<V> {
    var at := Seek(st, s, scope);
    if at.Nowhere? then Error else Done(Rebind(st, at, v), Name(OK))
  }

  /** define: in this scope only. */
  function DefVar(st: Store, s: nat, v: V, scope: nat): Out<V> {
    if scope >= |st| || !st[scope].Scope? then Error
    else
      var k := Place(st[scope].binds, s);
      if k < |st[scope].binds| then Done(Rebind(st, Spot(scope, k), v), Name(OK))
      else Done(st[scope := st[scope].(binds := [Bind(s, v)] + st[scope].binds)], Name(OK))
  }

  // ----- Meaning -----

  function Truth(b: bool): V { Name(if b then TRUE else FALSE) }

  function Mean(st: Store, e: Exp, scope: nat, fuel: nat): Out<V>
    decreases fuel, 2
  {
    if fuel == 0 then More
    else
      match e
      case Null => Done(st, Empty)
      case Const(n) => Done(st, Num(n))
      case Quote(q) => Done(st, q)
      case Var(s) =>
        var at := Seek(st, s, scope);
        if at.Nowhere? then Error else Done(st, st[at.scope].binds[at.k].v)
      case Assign(s, e1) =>
        (match Mean(st, e1, scope, fuel - 1)
         case Done(st1, v) => SetVar(st1, s, v, scope)
         case other => other)
      case Def(s, e1) =>
        (match Mean(st, e1, scope, fuel - 1)
         case Done(st1, v) => DefVar(st1, s, v, scope)
         case other => other)
      case DefProc(s, params, body) =>
        (match Mean(st, Lambda(params, body), scope, fuel - 1)
         case Done(st1, v) => DefVar(st1, s, v, scope)
         case other => other)
      case If(test, con, alt) =>
        (match Mean(st, test, scope, fuel - 1)
         case Done(st1, v) => if v == Name(FALSE) then Mean(st1, alt, scope, fuel - 1) else Mean(st1, con, scope, fuel - 1)
         case other => other)
      case Let(names, vals, e1) => Mean(st, Call(Lambda(Fixed(names), [e1]), vals), scope, fuel - 1)
      case Lambda(params, body) => Done(st + [Proc(params, body, scope)], At(|st|))
      case Begin(body) => Run(st, body, scope, fuel)
      case Cond(clauses) => Choose(st, clauses, scope, fuel)
      case Call(op, args) =>
        (match Mean(st, op, scope, fuel - 1)
         case Done(st1, f) =>
           (match All(st1, args, scope, [], fuel)
            case Done(st2, vs) => ApplyTo(st2, f, vs, fuel - 1)
            case Error => Error
            case Wild => Wild
            case More => More)
         case other => other)
  }

  /** One after the other; the value of the last. */
  function Run(st: Store, es: seq<Exp>, scope: nat, fuel: nat): Out<V>
    decreases fuel, 1
  {
    if fuel == 0 then More
    else if es == [] then Mean(st, Null, scope, fuel - 1)
    else if |es| == 1 then Mean(st, es[0], scope, fuel - 1)
    else
      match Mean(st, es[0], scope, fuel - 1)
      case Done(st1, _) => Run(st1, es[1..], scope, fuel - 1)
      case other => other
  }

  /** The first clause whose test gives #t; #f if there is none. */
  function Choose(st: Store, cs: seq<Clause>, scope: nat, fuel: nat): Out<V>
    decreases fuel, 1
  {
    if fuel == 0 then More
    else if cs == [] then Done(st, Name(FALSE))
    else
      match Mean(st, cs[0].test, scope, fuel - 1)
      case Done(st1, v) => if v == Name(TRUE) then Mean(st1, cs[0].val, scope, fuel - 1) else Choose(st1, cs[1..], scope, fuel - 1)
      case other => other
  }

  /** The values of all, from left to right, after those of `before`. */
  function All(st: Store, es: seq<Exp>, scope: nat, before: seq<V>, fuel: nat): Out<seq<V>>
    decreases fuel, 1
  {
    if fuel == 0 then More
    else if es == [] then Done(st, before)
    else
      match Mean(st, es[0], scope, fuel - 1)
      case Done(st1, v) => All(st1, es[1..], scope, before + [v], fuel - 1)
      case Error => Error
      case Wild => Wild
      case More => More
  }

  function ApplyTo(st: Store, f: V, vs: seq<V>, fuel: nat): Out<V>
    decreases fuel, 2
  {
    if fuel == 0 then More
    else if f.Name? && Primitive(f.s) then Operate(st, OPS[f.s - 10], vs)
    else if !f.At? then Error
    else if f.loc >= |st| || st[f.loc].Scope? then Wild
    else if st[f.loc].Cons? then (if st[f.loc].car == Name(PROCEDURE) then Wild else Error)
    else
      var Proc(params, body, scope) := st[f.loc];
      match params
      case Fixed(names) =>
        if |names| != |vs| then Error
        else Run(st + [Scope(Binds(names, vs), Up(scope))], body, |st|, fuel)
      case Rest(name) =>
        var (st1, l) := Listed(st, vs);
        Run(st1 + [Scope([Bind(name, l)], Up(scope))], body, |st1|, fuel)
  }

  function Binds(names: seq<nat>, vs: seq<V>): (r: seq<Bind>)
    requires |names| == |vs|
    ensures |r| == |names| && forall k :: 0 <= k < |r| ==> r[k] == Bind(names[k], vs[k])
  {
    seq(|names|, k requires 0 <= k < |names| => Bind(names[k], vs[k]))
  }

  /** A list of the values, in new pairs. */
  function Listed(st: Store, vs: seq<V>): (Store, V) {
    if vs == [] then (st, Empty)
    else
      var (st1, l) := Listed(st, vs[1..]);
      (st1 + [Cons(vs[0], l)], At(|st1|))
  }

  // ----- Primitives -----

  const HALF: int := 0x8000_0000_0000_0000

  /** 64 bits in two's complement. */
  function Wrap(n: int): (r: int)
    ensures -HALF <= r < HALF && (r - n) % (2 * HALF) == 0
  {
    (n + HALF) % (2 * HALF) - HALF
  }

  /** The upper word is 0xff000000. */
  predicate Marked(n: int) { n / 0x1_0000_0000 == -0x100_0000 }

  function Number(st: Store, n: int): Out<V> {
    if Marked(Wrap(n)) then Wild else Done(st, Num(Wrap(n)))
  }

  /** x + (y + (... + 0)), or with * and 1. */
  function Folded(st: Store, times: bool, vs: seq<V>): Out<V> {
    if vs == [] then Done(st, Num(if times then 1 else 0))
    else
      match Folded(st, times, vs[1..])
      case Done(_, r) =>
        if !r.Num? || !vs[0].Num? then Error else Number(st, if times then vs[0].n * r.n else vs[0].n + r.n)
      case other => other
  }

  function Magnitude(n: int): nat { if n < 0 then -n else n }

  /** The fraction is dropped. */
  function Truncated(x: int, y: int): int
    requires y != 0
  {
    var q := Magnitude(x) / Magnitude(y);
    if (x < 0) == (y < 0) then q else -q
  }

  function Operate(st: Store, op: Op, vs: seq<V>): Out<V> {
    var a := if |vs| > 0 then vs[0] else Empty;
    var b := if |vs| > 1 then vs[1] else Empty;
    match op
    case Add => Folded(st, false, vs)
    case Mul => Folded(st, true, vs)
    case Sub =>
      if |vs| == 0 then Done(st, Num(0))
      else if |vs| == 1 then (if a.Num? then Number(st, -a.n) else Error)
      else
        (match Folded(st, false, vs[1..])
         case Done(_, r) => if a.Num? && r.Num? then Number(st, a.n - r.n) else Error
         case other => other)
    case Div =>
      if |vs| == 0 then Done(st, Num(1))
      else
        (match Folded(st, true, vs[1..])
         case Done(_, r) =>
           if !a.Num? || !r.Num? || r.n == 0 || (a.n == -HALF && r.n == -1) then Error else Number(st, Truncated(a.n, r.n))
         case other => other)
    case Eq => if a.Num? && b.Num? then Done(st, Truth(a.n == b.n)) else Error
    case Lt => if a.Num? && b.Num? then Done(st, Truth(a.n < b.n)) else Error
    case Gt => if a.Num? && b.Num? then Done(st, Truth(a.n > b.n)) else Error
    case And => Done(st, Truth(Name(FALSE) !in vs))
    case Or => Done(st, Truth(Name(TRUE) in vs))
    case Not => Done(st, Truth(a != Name(TRUE)))
    case NullQ => Done(st, Truth(a == Empty))
    case PairQ => Done(st, Truth(a.At?))
    case EqQ => Done(st, Truth(a == b))
    case ConsOp => Done(st + [Cons(a, b)], At(|st|))
    case CarOp => Part(st, a, true)
    case CdrOp => Part(st, a, false)
    case SetCarOp => Change(st, a, true, b)
    case SetCdrOp => Change(st, a, false, b)
    case EvalOp => Wild
    case DisplayOp => Wild
  }

  /** car and cdr; of the empty list too. */
  function Part(st: Store, a: V, first: bool): Out<V> {
    if a == Empty then Done(st, Empty)
    else if !a.At? then Error
    else if a.loc >= |st| || !st[a.loc].Cons? then Wild
    else Done(st, if first then st[a.loc].car else st[a.loc].cdr)
  }

  function Change(st: Store, a: V, first: bool, b: V): Out<V> {
    if !a.At? then Error
    else if a.loc >= |st| || !st[a.loc].Cons? then Wild
    else Done(st[a.loc := if first then Cons(b, st[a.loc].cdr) else Cons(st[a.loc].car, b)], Name(OK))
  }

  // ----- The bound does not matter -----

  /** A larger bound gives the same meaning. */
  lemma {:induction false} MeanMore(st: Store, e: Exp, scope: nat, f: nat, g: nat)
    requires f <= g && !Mean(st, e, scope, f).More?
    ensures Mean(st, e, scope, g) == Mean(st, e, scope, f)
    decreases f, 2
  {
    match e {
      case Assign(_, e1) => MeanMore(st, e1, scope, f - 1, g - 1);
      case Def(_, e1) => MeanMore(st, e1, scope, f - 1, g - 1);
      case DefProc(_, params, body) => MeanMore(st, Lambda(params, body), scope, f - 1, g - 1);
      case If(test, con, alt) =>
        MeanMore(st, test, scope, f - 1, g - 1);
        var m := Mean(st, test, scope, f - 1);
        if m.Done? { MeanMore(m.st, if m.v == Name(FALSE) then alt else con, scope, f - 1, g - 1); }
      case Let(names, vals, e1) => MeanMore(st, Call(Lambda(Fixed(names), [e1]), vals), scope, f - 1, g - 1);
      case Begin(body) => RunMore(st, body, scope, f, g);
      case Cond(clauses) => ChooseMore(st, clauses, scope, f, g);
      case Call(op, args) => CallMore(st, op, args, scope, f, g);
      case _ =>
    }
  }

  lemma {:induction false} CallMore(st: Store, op: Exp, args: seq<Exp>, scope: nat, f: nat, g: nat)
    requires f <= g && !Mean(st, Call(op, args), scope, f).More?
    ensures Mean(st, Call(op, args), scope, g) == Mean(st, Call(op, args), scope, f)
    decreases f, 1
  {
    MeanMore(st, op, scope, f - 1, g - 1);
    var m := Mean(st, op, scope, f - 1);
    if m.Done? {
      AllMore(m.st, args, scope, [], f, g);
      var vs := All(m.st, args, scope, [], f);
      if vs.Done? { ApplyMore(vs.st, m.v, vs.v, f - 1, g - 1); }
    }
  }

  lemma {:induction false} RunMore(st: Store, es: seq<Exp>, scope: nat, f: nat, g: nat)
    requires f <= g && !Run(st, es, scope, f).More?
    ensures Run(st, es, scope, g) == Run(st, es, scope, f)
    decreases f, 1
  {
    var e := if es == [] then Null else es[0];
    MeanMore(st, e, scope, f - 1, g - 1);
    var m := Mean(st, e, scope, f - 1);
    if |es| > 1 && m.Done? { RunMore(m.st, es[1..], scope, f - 1, g - 1); }
  }

  lemma {:induction false} ChooseMore(st: Store, cs: seq<Clause>, scope: nat, f: nat, g: nat)
    requires f <= g && !Choose(st, cs, scope, f).More?
    ensures Choose(st, cs, scope, g) == Choose(st, cs, scope, f)
    decreases f, 1
  {
    if cs != [] {
      MeanMore(st, cs[0].test, scope, f - 1, g - 1);
      var m := Mean(st, cs[0].test, scope, f - 1);
      if m.Done? {
        if m.v == Name(TRUE) {
          MeanMore(m.st, cs[0].val, scope, f - 1, g - 1);
        } else {
          ChooseMore(m.st, cs[1..], scope, f - 1, g - 1);
        }
      }
    }
  }

  lemma {:induction false} AllMore(st: Store, es: seq<Exp>, scope: nat, before: seq<V>, f: nat, g: nat)
    requires f <= g && !All(st, es, scope, before, f).More?
    ensures All(st, es, scope, before, g) == All(st, es, scope, before, f)
    decreases f, 0
  {
    if es != [] {
      MeanMore(st, es[0], scope, f - 1, g - 1);
      var m := Mean(st, es[0], scope, f - 1);
      if m.Done? { AllMore(m.st, es[1..], scope, before + [m.v], f - 1, g - 1); }
    }
  }

  lemma {:induction false} ApplyMore(st: Store, p: V, vs: seq<V>, f: nat, g: nat)
    requires f <= g && !ApplyTo(st, p, vs, f).More?
    ensures ApplyTo(st, p, vs, g) == ApplyTo(st, p, vs, f)
    decreases f, 2
  {
    if p.At? && p.loc < |st| && st[p.loc].Proc? {
      var Proc(params, body, scope) := st[p.loc];
      match params {
        case Fixed(names) =>
          if |names| == |vs| { RunMore(st + [Scope(Binds(names, vs), Up(scope))], body, |st|, f, g); }
        case Rest(name) =>
          var (st1, l) := Listed(st, vs);
          RunMore(st1 + [Scope([Bind(name, l)], Up(scope))], body, |st1|, f, g);
      }
    }
  }

  /** The expression has this meaning. */
  ghost predicate Means(st: Store, e: Exp, scope: nat, m: Out<V>) {
    !m.More? && exists fuel :: Mean(st, e, scope, fuel) == m
  }

  lemma OneMeaning(st: Store, e: Exp, scope: nat, m: Out<V>, n: Out<V>)
    requires Means(st, e, scope, m) && Means(st, e, scope, n)
    ensures m == n
  {
    var f: nat :| Mean(st, e, scope, f) == m;
    var g: nat :| Mean(st, e, scope, g) == n;
    if f <= g { MeanMore(st, e, scope, f, g); } else { MeanMore(st, e, scope, g, f); }
  }
}
