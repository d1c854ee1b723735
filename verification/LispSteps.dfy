/** The bound on steps decides nothing but whether there is an outcome. */
module LispSteps {
  import opened LispSpec

  // ----- Lists, symbols and environments -----

  lemma {:induction false} LastMore(w: World, q: Val, f: nat, g: nat)
    requires f <= g && Last(w, q, f) != Timeout
    ensures Last(w, q, g) == Last(w, q, f)
    decreases f
  {
    if IsPair(w, q) && Cdr(w, q) != Bad && Cdr(w, q) != Nil {
      LastMore(w, Cdr(w, q), f - 1, g - 1);
    }
  }

  lemma AppendMore(w: World, q: Val, x: Val, f: nat, g: nat)
    requires f <= g && Append(w, q, x, f) != Timeout
    ensures Append(w, q, x, g) == Append(w, q, x, f)
  {
    if x != Bad && q != Nil {
      LastMore(w, q, f, g);
    }
  }

  lemma {:induction false} FindMore(w: World, sym: Val, name: nat, f: nat, g: nat)
    requires f <= g && Find(w, sym, name, f) != Timeout
    ensures Find(w, sym, name, g) == Find(w, sym, name, f)
    decreases f
  {
    if sym != Nil && IsLeaf(w, Car(w, sym), Collector.TAG_SYM) && w.cells[Car(w, sym).id] != Symbol(name) {
      FindMore(w, Cdr(w, sym), name, f - 1, g - 1);
    }
  }

  lemma GetsymMore(w: World, name: nat, f: nat, g: nat)
    requires f <= g && Getsym(w, name, f) != Timeout
    ensures Getsym(w, name, g) == Getsym(w, name, f)
  {
    hide Find, Append;
    FindMore(w, w.symbols, name, f, g);
    if Find(w, w.symbols, name, f).Ok? && Find(w, w.symbols, name, f).v == Nil {
      AppendMore(Add(w, Symbol(name)), w.symbols, Next(w), f, g);
    }
  }

  lemma {:induction false} WhichMore(w: World, v: Val, names: seq<nat>, k: nat, f: nat, g: nat)
    requires f <= g && k <= |names| && Which(w, v, names, k, f) != Timeout
    ensures Which(w, v, names, k, g) == Which(w, v, names, k, f)
    decreases |names| - k
  {
    hide Getsym;
    if k < |names| {
      GetsymMore(w, names[k], f, g);
      var r := Getsym(w, names[k], f);
      if r.Ok? && v != r.v {
        WhichMore(r.w, v, names, k + 1, f, g);
      }
    }
  }

  lemma {:induction false} InFrameMore(w: World, x: Val, vars: Val, vals: Val, f: nat, g: nat)
    requires f <= g && InFrame(w, x, vars, vals, f) != Timeout
    ensures InFrame(w, x, vars, vals, g) == InFrame(w, x, vars, vals, f)
    decreases f
  {
    if vars != Nil && Car(w, vars) != Bad && IsPair(w, vals) && x != Car(w, vars) {
      InFrameMore(w, x, Cdr(w, vars), Cdr(w, vals), f - 1, g - 1);
    }
  }

  lemma {:induction false} InEnvMore(w: World, x: Val, env: Val, f: nat, g: nat)
    requires f <= g && InEnv(w, x, env, f) != Timeout
    ensures InEnv(w, x, env, g) == InEnv(w, x, env, f)
    decreases f
  {
    hide InFrame;
    if env != Nil && Car(w, env) != Bad && Cdr(w, Car(w, env)) != Bad {
      InFrameMore(w, x, Car(w, Car(w, env)), Cdr(w, Car(w, env)), f, g);
      var r := InFrame(w, x, Car(w, Car(w, env)), Cdr(w, Car(w, env)), f);
      if r.Ok? && r.v == Nil {
        InEnvMore(w, x, Cdr(w, env), f - 1, g - 1);
      }
    }
  }

  lemma LookupMore(w: World, x: Val, env: Val, f: nat, g: nat)
    requires f <= g && Lookup(w, x, env, f) != Timeout
    ensures Lookup(w, x, env, g) == Lookup(w, x, env, f)
  {
    InEnvMore(w, x, env, f, g);
  }

  lemma AssignMore(w: World, x: Val, v: Val, env: Val, f: nat, g: nat)
    requires f <= g && Assign(w, x, v, env, f) != Timeout
    ensures Assign(w, x, v, env, g) == Assign(w, x, v, env, f)
  {
    hide InEnv, Getsym;
    if IsLeaf(w, x, Collector.TAG_SYM) && v != Bad {
      InEnvMore(w, x, env, f, g);
      var r := InEnv(w, x, env, f);
      if r.Ok? && IsPair(w, r.v) {
        GetsymMore(SetCar(w, r.v, v), OK, f, g);
      }
    }
  }

  lemma DefineMore(w: World, x: Val, v: Val, env: Val, f: nat, g: nat)
    requires f <= g && Define(w, x, v, env, f) != Timeout
    ensures Define(w, x, v, env, g) == Define(w, x, v, env, f)
  {
    hide InFrame, Getsym;
    if IsLeaf(w, x, Collector.TAG_SYM) && v != Bad && IsPair(w, env) && Car(w, env) != Bad
       && Car(w, Car(w, env)) != Bad && Cdr(w, Car(w, env)) != Bad {
      var vars, vals := Car(w, Car(w, env)), Cdr(w, Car(w, env));
      InFrameMore(w, x, vars, vals, f, g);
      var r := InFrame(w, x, vars, vals, f);
      if r.Ok? && IsPair(w, r.v) {
        GetsymMore(SetCar(w, r.v, v), OK, f, g);
      } else if r.Ok? && r.v == Nil {
        BindMore(w, x, v, env, vars, vals, f, g);
      }
    }
  }

  lemma BindMore(w: World, x: Val, v: Val, env: Val, vars: Val, vals: Val, f: nat, g: nat)
    requires f <= g && Bind(w, x, v, env, vars, vals, f) != Timeout
    ensures Bind(w, x, v, env, vars, vals, g) == Bind(w, x, v, env, vars, vals, f)
  {
    hide Getsym;
    var w1 := Add(w, Pair(x, vars));
    var w2 := Add(w1, Pair(v, vals));
    var w3 := Add(w2, Pair(Next(w), Next(w1)));
    if IsPair(w3, env) {
      GetsymMore(SetCar(w3, env, Next(w2)), OK, f, g);
    }
  }

  // ----- let2lambda and the primitives -----

  lemma {:induction false} BindingsMore(w: World, s: Val, args: Val, vals: Val, f: nat, g: nat)
    requires f <= g && Bindings(w, s, args, vals, f) != Timeout
    ensures Bindings(w, s, args, vals, g) == Bindings(w, s, args, vals, f)
    decreases f
  {
    hide Binding;
    if s != Nil {
      BindingMore(w, s, args, vals, f, g);
      var r := Binding(w, s, args, vals, f);
      if r.Ok? && Cdr(r.w, s) != Bad {
        BindingsMore(r.w, Cdr(r.w, s), r.v.0, r.v.1, f - 1, g - 1);
      }
    }
  }

  lemma BindingMore(w: World, s: Val, args: Val, vals: Val, f: nat, g: nat)
    requires f <= g && Binding(w, s, args, vals, f) != Timeout
    ensures Binding(w, s, args, vals, g) == Binding(w, s, args, vals, f)
  {
    hide Append;
    AppendMore(w, args, Car(w, Car(w, s)), f, g);
    var r := Append(w, args, Car(w, Car(w, s)), f);
    if r.Ok? {
      AppendMore(r.w, vals, Cadr(r.w, Car(r.w, s)), f, g);
    }
  }

  lemma RedexMore(w: World, args: Val, vals: Val, body: Val, f: nat, g: nat)
    requires f <= g && Redex(w, args, vals, body, f) != Timeout
    ensures Redex(w, args, vals, body, g) == Redex(w, args, vals, body, f)
  {
    hide Append, Getsym;
    GetsymMore(w, LAMBDA, f, g);
    var r := Getsym(w, LAMBDA, f);
    if r.Ok? {
      AppendMore(r.w, Nil, r.v, f, g);
      var r1 := Append(r.w, Nil, r.v, f);
      if r1.Ok? {
        AppendMore(r1.w, r1.v, args, f, g);
        var r2 := Append(r1.w, r1.v, args, f);
        if r2.Ok? {
          AppendMore(r2.w, r2.v, Car(r2.w, body), f, g);
        }
      }
    }
  }

  lemma LetMore(w: World, exp: Val, f: nat, g: nat)
    requires f <= g && Let(w, exp, f) != Timeout
    ensures Let(w, exp, g) == Let(w, exp, f)
  {
    hide Bindings, Redex;
    if Car(w, exp) != Bad {
      BindingsMore(w, Car(w, exp), Nil, Nil, f, g);
      var r := Bindings(w, Car(w, exp), Nil, Nil, f);
      if r.Ok? {
        RedexMore(r.w, r.v.0, r.v.1, Cdr(w, exp), f, g);
      }
    }
  }

  lemma {:induction false} TotalMore(w: World, op: nat, l: Val, f: nat, g: nat)
    requires f <= g && Total(w, op, l, f) != Timeout
    ensures Total(w, op, l, g) == Total(w, op, l, f)
    decreases f
  {
    hide Arith, Int;
    if l != Nil && Cdr(w, l) != Bad {
      TotalMore(w, op, Cdr(w, l), f - 1, g - 1);
    }
  }

  lemma DifferenceMore(w: World, l: Val, f: nat, g: nat)
    requires f <= g && Difference(w, l, f) != Timeout
    ensures Difference(w, l, g) == Difference(w, l, f)
  {
    hide Total, Arith, Int, Signed;
    if l != Nil && Cdr(w, l) != Bad && Cdr(w, l) != Nil {
      TotalMore(w, 0, Cdr(w, l), f, g);
    }
  }

  lemma QuotientMore(w: World, l: Val, f: nat, g: nat)
    requires f <= g && Quotient(w, l, f) != Timeout
    ensures Quotient(w, l, g) == Quotient(w, l, f)
  {
    hide Total, Arith, Int;
    if l != Nil && Cdr(w, l) != Bad {
      TotalMore(w, 2, Cdr(w, l), f, g);
    }
  }

  lemma TruthMore(w: World, b: bool, f: nat, g: nat)
    requires f <= g && Truth(w, b, f) != Timeout
    ensures Truth(w, b, g) == Truth(w, b, f)
  {
    GetsymMore(w, if b then TRUE else FALSE, f, g);
  }

  lemma {:induction false} LogicMore(w: World, stop: bool, l: Val, f: nat, g: nat)
    requires f <= g && Logic(w, stop, l, f) != Timeout
    ensures Logic(w, stop, l, g) == Logic(w, stop, l, f)
    decreases f
  {
    hide Truth;
    if l == Nil {
      TruthMore(w, !stop, f, g);
    } else if Car(w, l) != Bad {
      TruthMore(w, stop, f, g);
      var r := Truth(w, stop, f);
      if r.Ok? && Car(w, l) == r.v {
        TruthMore(r.w, stop, f, g);
      } else if r.Ok? && Cdr(r.w, l) != Bad {
        LogicMore(r.w, stop, Cdr(r.w, l), f - 1, g - 1);
      }
    }
  }

  lemma {:induction false} LengthMore(w: World, l: Val, f: nat, g: nat)
    requires f <= g && Length(w, l, f) != Timeout
    ensures Length(w, l, g) == Length(w, l, f)
    decreases f
  {
    if l != Nil && Cdr(w, l) != Bad {
      LengthMore(w, Cdr(w, l), f - 1, g - 1);
    }
  }

  lemma PrimitiveMore(w: World, k: nat, args: Val, f: nat, g: nat)
    requires f <= g && Primitive(w, k, args, f) != Timeout
    ensures Primitive(w, k, args, g) == Primitive(w, k, args, f)
  {
    hide Total, Difference, Quotient, Logic, Primitive1, Primitive2;
    if k == 0 || k == 2 {
      TotalMore(w, k, args, f, g);
    } else if k == 1 {
      DifferenceMore(w, args, f, g);
    } else if k == 3 {
      QuotientMore(w, args, f, g);
    } else if k == 7 || k == 8 {
      LogicMore(w, k == 8, args, f, g);
    } else if Car(w, args) == Bad {
    } else if k in {9, 10, 11, 14, 15} {
      Primitive1More(w, k, Car(w, args), f, g);
    } else if Cadr(w, args) != Bad {
      Primitive2More(w, k, Car(w, args), Cadr(w, args), f, g);
    }
  }

  lemma Primitive1More(w: World, k: nat, a: Val, f: nat, g: nat)
    requires f <= g && Primitive1(w, k, a, f) != Timeout
    ensures Primitive1(w, k, a, g) == Primitive1(w, k, a, f)
  {
    hide Truth;
    if k == 9 {
      TruthMore(w, true, f, g);
      var r := Truth(w, true, f);
      if r.Ok? {
        TruthMore(r.w, a != r.v, f, g);
      }
    } else if k == 10 {
      TruthMore(w, a == Nil, f, g);
    } else if k == 11 {
      TruthMore(w, IsPair(w, a), f, g);
    }
  }

  lemma CompareMore(w: World, k: nat, a: Val, b: Val, f: nat, g: nat)
    requires f <= g && Compare(w, k, a, b, f) != Timeout
    ensures Compare(w, k, a, b, g) == Compare(w, k, a, b, f)
  {
    hide Truth, Signed;
    if IsLeaf(w, a, Collector.TAG_INT) && IsLeaf(w, b, Collector.TAG_INT) {
      var c, d := w.cells[a.id], w.cells[b.id];
      var x, y := Signed(c.hi, c.lo), Signed(d.hi, d.lo);
      TruthMore(w, if k == 4 then x == y else if k == 5 then x < y else x > y, f, g);
    }
  }

  lemma SameMore(w: World, a: Val, b: Val, f: nat, g: nat)
    requires f <= g && Same(w, a, b, f) != Timeout
    ensures Same(w, a, b, g) == Same(w, a, b, f)
  {
    hide Truth;
    var bothInt := IsLeaf(w, a, Collector.TAG_INT) && IsLeaf(w, b, Collector.TAG_INT);
    var bothFloat := IsLeaf(w, a, Collector.TAG_FLOAT) && IsLeaf(w, b, Collector.TAG_FLOAT);
    if a != Bad && b != Bad && (a == b || !bothFloat) {
      TruthMore(w, a == b || (bothInt && w.cells[a.id] == w.cells[b.id]), f, g);
    }
  }

  lemma Primitive2More(w: World, k: nat, a: Val, b: Val, f: nat, g: nat)
    requires f <= g && Primitive2(w, k, a, b, f) != Timeout
    ensures Primitive2(w, k, a, b, g) == Primitive2(w, k, a, b, f)
  {
    hide Getsym, Compare, Same;
    if 4 <= k < 7 {
      CompareMore(w, k, a, b, f, g);
    } else if k == 12 {
      SameMore(w, a, b, f, g);
    } else if k == 16 && IsPair(w, a) {
      GetsymMore(SetCar(w, a, b), OK, f, g);
    } else if k == 17 && IsPair(w, a) {
      GetsymMore(SetCdr(w, a, b), OK, f, g);
    }
  }

  lemma ClosureMore(w: World, params: Val, body: Val, env: Val, f: nat, g: nat)
    requires f <= g && Closure(w, params, body, env, f) != Timeout
    ensures Closure(w, params, body, env, g) == Closure(w, params, body, env, f)
  {
    hide Getsym;
    if params != Bad && body != Bad {
      GetsymMore(w, PROCEDURE, f, g);
    }
  }

  // ----- eval and apply -----

  /** An outcome other than Timeout is the outcome for every greater bound. */
  lemma {:induction false} EvalMore(w: World, exp: Val, env: Val, f: nat, g: nat)
    requires f <= g && Eval(w, exp, env, f) != Timeout
    ensures Eval(w, exp, env, g) == Eval(w, exp, env, f)
    decreases f, 4
  {
    hide Which, Form, Lookup;
    if exp != Nil && IsLeaf(w, exp, Collector.TAG_SYM) {
      LookupMore(w, exp, env, f, g);
    } else if IsPair(w, exp) {
      WhichMore(w, Car(w, exp), KEYWORDS, 0, f, g);
      var r := Which(w, Car(w, exp), KEYWORDS, 0, f);
      if r.Ok? {
        FormMore(r.w, r.v, exp, env, f, g);
      }
    }
  }

  lemma {:induction false} FormMore(w: World, k: nat, exp: Val, env: Val, f: nat, g: nat)
    requires 0 < f <= g && Form(w, k, exp, env, f) != Timeout
    ensures Form(w, k, exp, env, g) == Form(w, k, exp, env, f)
    decreases f, 3
  {
    hide SetBang, Definition, If, Let, Eval, Closure, Sequence, Cond, Application;
    if k == 0 {
    } else if k == 1 {
      SetBangMore(w, exp, env, f, g);
    } else if k == 2 {
      DefinitionMore(w, exp, env, f, g);
    } else if k == 3 {
      IfMore(w, exp, env, f, g);
    } else if k == 4 {
      LetMore(w, Cdr(w, exp), f, g);
      var r := Let(w, Cdr(w, exp), f);
      if r.Ok? {
        EvalMore(r.w, r.v, env, f - 1, g - 1);
      }
    } else if k == 5 {
      ClosureMore(w, Cadr(w, exp), Cddr(w, exp), env, f, g);
    } else if k == 6 {
      SequenceMore(w, Cdr(w, exp), env, f, g);
    } else if k == 7 {
      CondMore(w, Cdr(w, exp), env, f, g);
    } else {
      ApplicationMore(w, exp, env, f, g);
    }
  }

  lemma {:induction false} SetBangMore(w: World, exp: Val, env: Val, f: nat, g: nat)
    requires 0 < f <= g && SetBang(w, exp, env, f) != Timeout
    ensures SetBang(w, exp, env, g) == SetBang(w, exp, env, f)
    decreases f, 1
  {
    hide Eval, Assign;
    if Cadr(w, exp) != Bad && Caddr(w, exp) != Bad {
      EvalMore(w, Caddr(w, exp), env, f - 1, g - 1);
      var r := Eval(w, Caddr(w, exp), env, f - 1);
      if r.Ok? {
        AssignMore(r.w, Cadr(w, exp), r.v, env, f, g);
      }
    }
  }

  lemma {:induction false} DefinitionMore(w: World, exp: Val, env: Val, f: nat, g: nat)
    requires 0 < f <= g && Definition(w, exp, env, f) != Timeout
    ensures Definition(w, exp, env, g) == Definition(w, exp, env, f)
    decreases f, 2
  {
    hide Eval, Define, DefineProcedure;
    if IsLeaf(w, Cadr(w, exp), Collector.TAG_SYM) {
      if Caddr(w, exp) != Bad {
        EvalMore(w, Caddr(w, exp), env, f - 1, g - 1);
        var r := Eval(w, Caddr(w, exp), env, f - 1);
        if r.Ok? {
          DefineMore(r.w, Cadr(w, exp), r.v, env, f, g);
        }
      }
    } else if IsPair(w, Cadr(w, exp)) && Cddr(w, exp) != Bad {
      DefineProcedureMore(w, Cadr(w, exp), Cddr(w, exp), env, f, g);
    }
  }

  lemma {:induction false} DefineProcedureMore(w: World, head: Val, body: Val, env: Val, f: nat, g: nat)
    requires 0 < f <= g && DefineProcedure(w, head, body, env, f) != Timeout
    ensures DefineProcedure(w, head, body, env, g) == DefineProcedure(w, head, body, env, f)
    decreases f, 1
  {
    hide Eval, Define, Getsym;
    if Car(w, head) != Bad && Cdr(w, head) != Bad && body != Bad {
      GetsymMore(w, LAMBDA, f, g);
      var l := Getsym(w, LAMBDA, f);
      if l.Ok? {
        var w2 := Add(l.w, Pair(Cdr(w, head), body));
        var w3, p := Add(w2, Pair(l.v, Next(l.w))), Next(w2);
        EvalMore(w3, p, env, f - 1, g - 1);
        var r := Eval(w3, p, env, f - 1);
        if r.Ok? {
          DefineMore(r.w, Car(w, head), r.v, env, f, g);
        }
      }
    }
  }

  lemma {:induction false} IfMore(w: World, exp: Val, env: Val, f: nat, g: nat)
    requires 0 < f <= g && If(w, exp, env, f) != Timeout
    ensures If(w, exp, env, g) == If(w, exp, env, f)
    decreases f, 1
  {
    hide Eval, Getsym;
    if Cadr(w, exp) != Bad {
      EvalMore(w, Cadr(w, exp), env, f - 1, g - 1);
      var p := Eval(w, Cadr(w, exp), env, f - 1);
      if p.Ok? {
        GetsymMore(p.w, FALSE, f, g);
        var r := Getsym(p.w, FALSE, f);
        if r.Ok? {
          var branch := if p.v != r.v then Caddr(r.w, exp) else Cadddr(r.w, exp);
          if branch != Bad {
            EvalMore(r.w, branch, env, f - 1, g - 1);
          }
        }
      }
    }
  }

  lemma {:induction false} SequenceMore(w: World, s: Val, env: Val, f: nat, g: nat)
    requires f <= g && Sequence(w, s, env, f) != Timeout
    ensures Sequence(w, s, env, g) == Sequence(w, s, env, f)
    decreases f, 1
  {
    hide Eval;
    if Cdr(w, s) != Bad {
      EvalMore(w, Car(w, s), env, f - 1, g - 1);
      var r := Eval(w, Car(w, s), env, f - 1);
      if Cdr(w, s) != Nil && r.Ok? && Cdr(r.w, s) != Bad {
        SequenceMore(r.w, Cdr(r.w, s), env, f - 1, g - 1);
      }
    }
  }

  lemma {:induction false} CondMore(w: World, s: Val, env: Val, f: nat, g: nat)
    requires f <= g && Cond(w, s, env, f) != Timeout
    ensures Cond(w, s, env, g) == Cond(w, s, env, f)
    decreases f, 1
  {
    hide Eval, Getsym;
    if s == Nil {
      GetsymMore(w, FALSE, f, g);
    } else if Car(w, Car(w, s)) != Bad {
      EvalMore(w, Car(w, Car(w, s)), env, f - 1, g - 1);
      var r := Eval(w, Car(w, Car(w, s)), env, f - 1);
      if r.Ok? {
        GetsymMore(r.w, TRUE, f, g);
        var t := Getsym(r.w, TRUE, f);
        if t.Ok? && r.v == t.v && Cadr(t.w, Car(w, s)) != Bad {
          EvalMore(t.w, Cadr(t.w, Car(w, s)), env, f - 1, g - 1);
        } else if t.Ok? && r.v != t.v && Cdr(t.w, s) != Bad {
          CondMore(t.w, Cdr(t.w, s), env, f - 1, g - 1);
        }
      }
    }
  }

  lemma {:induction false} ApplicationMore(w: World, exp: Val, env: Val, f: nat, g: nat)
    requires 0 < f <= g && Application(w, exp, env, f) != Timeout
    ensures Application(w, exp, env, g) == Application(w, exp, env, f)
    decreases f, 2
  {
    hide Eval, Arguments, Apply;
    if Car(w, exp) != Bad && Cdr(w, exp) != Bad {
      EvalMore(w, Car(w, exp), env, f - 1, g - 1);
      var op := Eval(w, Car(w, exp), env, f - 1);
      if op.Ok? {
        ArgumentsMore(op.w, Cdr(w, exp), env, Nil, f, g);
        var args := Arguments(op.w, Cdr(w, exp), env, Nil, f);
        if args.Ok? {
          ApplyMore(args.w, op.v, args.v, f - 1, g - 1);
        }
      }
    }
  }

  lemma {:induction false} ArgumentsMore(w: World, s: Val, env: Val, args: Val, f: nat, g: nat)
    requires f <= g && Arguments(w, s, env, args, f) != Timeout
    ensures Arguments(w, s, env, args, g) == Arguments(w, s, env, args, f)
    decreases f, 1
  {
    hide Eval, Append;
    if s != Nil && Car(w, s) != Bad {
      EvalMore(w, Car(w, s), env, f - 1, g - 1);
      var r := Eval(w, Car(w, s), env, f - 1);
      if r.Ok? {
        AppendMore(r.w, args, r.v, f, g);
        var a := Append(r.w, args, r.v, f);
        if a.Ok? && Cdr(a.w, s) != Bad {
          ArgumentsMore(a.w, Cdr(a.w, s), env, a.v, f - 1, g - 1);
        }
      }
    }
  }

  lemma {:induction false} ApplyMore(w: World, proc: Val, args: Val, f: nat, g: nat)
    requires f <= g && Apply(w, proc, args, f) != Timeout
    ensures Apply(w, proc, args, g) == Apply(w, proc, args, f)
    decreases f, 4
  {
    hide Which, Call, Eval, Primitive;
    WhichMore(w, proc, PRIMITIVES, 0, f, g);
    var r := Which(w, proc, PRIMITIVES, 0, f);
    if r.Ok? {
      if r.v == |PRIMITIVES| {
        CallMore(r.w, proc, args, f, g);
      } else if r.v == 18 {
        if Car(r.w, args) != Bad {
          EvalMore(r.w, Car(r.w, args), r.w.global, f - 1, g - 1);
        }
      } else {
        PrimitiveMore(r.w, r.v, args, f, g);
      }
    }
  }

  lemma {:induction false} CallMore(w: World, proc: Val, args: Val, f: nat, g: nat)
    requires 0 < f <= g && Call(w, proc, args, f) != Timeout
    ensures Call(w, proc, args, g) == Call(w, proc, args, f)
    decreases f, 3
  {
    hide Body, Getsym;
    if Car(w, proc) != Bad {
      GetsymMore(w, PROCEDURE, f, g);
      var r := Getsym(w, PROCEDURE, f);
      if r.Ok? && Car(w, proc) == r.v && Cadr(r.w, proc) != Bad {
        var params := Cadr(r.w, proc);
        if IsLeaf(r.w, params, Collector.TAG_SYM) {
          var w2 := Add(r.w, Pair(params, Nil));
          BodyMore(Add(w2, Pair(args, Nil)), proc, Next(r.w), Next(w2), f, g);
        } else {
          BodyMore(r.w, proc, params, args, f, g);
        }
      }
    }
  }

  lemma {:induction false} BodyMore(w: World, proc: Val, params: Val, args: Val, f: nat, g: nat)
    requires 0 < f <= g && Body(w, proc, params, args, f) != Timeout
    ensures Body(w, proc, params, args, g) == Body(w, proc, params, args, f)
    decreases f, 2
  {
    hide Length, Sequence;
    LengthMore(w, params, f, g);
    var n := Length(w, params, f);
    if n.Ok? {
      LengthMore(w, args, f, g);
      var k := Length(w, args, f);
      if k.Ok? && n.v == k.v && Caddr(w, proc) != Bad && Cadddr(w, proc) != Bad {
        var w1 := Add(w, Pair(params, args));
        SequenceMore(Add(w1, Pair(Next(w), Cadddr(w, proc))), Caddr(w, proc), Next(w1), f, g);
      }
    }
  }

  // ----- Evaluation without a bound -----

  /** Evaluation ends, with this outcome. */
  ghost predicate Evaluates(w: World, exp: Val, env: Val, r: Res<Val>) {
    r != Timeout && exists f: nat :: Eval(w, exp, env, f) == r
  }

  /** There is at most one outcome. */
  lemma OneOutcome(w: World, exp: Val, env: Val, r1: Res<Val>, r2: Res<Val>)
    requires Evaluates(w, exp, env, r1) && Evaluates(w, exp, env, r2)
    ensures r1 == r2
  {
    hide Eval;
    var f: nat :| Eval(w, exp, env, f) == r1;
    var g: nat :| Eval(w, exp, env, g) == r2;
    if f <= g {
      EvalMore(w, exp, env, f, g);
    } else {
      EvalMore(w, exp, env, g, f);
    }
  }
}
