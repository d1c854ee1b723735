/** eval and apply of lisp/lisp.c, with a collection at any entries of eval: what they return does not
    depend on where. */
module LispEval {
  import opened Collector
  import opened LispSpec
  import opened LispHeap
  import opened LispCode
  import opened LispSteps
  import opened LispMeans

  // ----- Environments -----

  /** The inner loop of lookup, set and define: the pair of the value, or 0. */
  method InFrameOf(s: Lisp, x: nat, vars0: nat, vals0: nat, fuel: nat) returns (out: Out)
    requires s.Valid() && s.Live(x) && s.Live(vars0) && s.Live(vals0)
    ensures s.Gives(out, InFrame(s.W(), s.Of(x), s.Of(vars0), s.Of(vals0), fuel))
  {
    hide Lisp.Valid, Lisp.W, Lisp.Of, Lisp.Live, Lisp.StackVals, Lisp.Full;
    var vars, vals, f := vars0, vals0, fuel;
    s.Nothing();
    while true
      invariant s.Valid() && s.Live(vars) && s.Live(vals)
      invariant InFrame(s.W(), s.Of(x), s.Of(vars), s.Of(vals), f) == InFrame(s.W(), s.Of(x), s.Of(vars0), s.Of(vals0), fuel)
      decreases f
    {
      if f == 0 {
        return NoFuel;
      }
      s.Word(vars);
      if vars == 0 {
        return Value(0);
      }
      var ok, y := s.CarOf(vars);
      var pairs := s.Pairs(vals);
      if !ok || !pairs {
        return Stops;
      }
      s.Words(x, y);
      if x == y {
        return Value(vals);
      }
      s.Child(vals);
      s.Child(vars);
      var ok1, a := s.CdrOf(vars);
      var ok2, b := s.CdrOf(vals);
      vars, vals, f := a, b, f - 1;
    }
  }

  /** The frames of an environment in turn. */
  method InEnvOf(s: Lisp, x: nat, env: nat, fuel: nat) returns (out: Out)
    requires s.Valid() && s.Live(x) && s.Live(env)
    ensures s.Gives(out, InEnv(s.W(), s.Of(x), s.Of(env), fuel))
    decreases fuel
  {
    hide Lisp.Valid, Lisp.W, Lisp.Of, Lisp.Live, Lisp.StackVals, Lisp.Full, InFrame;
    if fuel == 0 {
      return NoFuel;
    }
    s.Word(env);
    if env == 0 {
      return Stops;
    }
    var ok, frame := s.CarOf(env);
    if !ok {
      return Stops;
    }
    var ok1, vars := s.CarOf(frame);
    var ok2, vals := s.CdrOf(frame);
    if !ok2 {
      return Stops;
    }
    s.Frame(frame);
    out := InFrameOf(s, x, vars, vals, fuel);
    if !out.Value? {
      return;
    }
    s.Word(out.r);
    if out.r == 0 {
      s.Child(env);
      var ok3, rest := s.CdrOf(env);
      out := InEnvOf(s, x, rest, fuel - 1);
    }
  }

  method LookupOf(s: Lisp, x: nat, env: nat, fuel: nat) returns (out: Out)
    requires s.Valid() && s.Live(x) && s.Live(env)
    ensures s.Gives(out, Lookup(s.W(), s.Of(x), s.Of(env), fuel))
  {
    hide Lisp.Valid, Lisp.W, Lisp.Of, Lisp.Live, Lisp.StackVals, Lisp.Full, InEnv;
    out := InEnvOf(s, x, env, fuel);
    if out.Value? {
      var ok, v := s.CarOf(out.r);
      out := if ok then Value(v) else Stops;
    }
  }

  /** set. */
  method AssignOf(s: Lisp, x: nat, v: nat, env: nat, fuel: nat) returns (out: Out)
    requires s.Valid() && s.Live(x) && s.Live(v) && s.Live(env)
    modifies s.Parts()
    ensures s.Gives(out, Assign(old(s.W()), old(s.Of(x)), old(s.Of(v)), old(s.Of(env)), fuel))
    ensures out.Value? ==> s.StackVals() == old(s.StackVals())
  {
    hide Lisp.Valid, Lisp.W, Lisp.Of, Lisp.Live, Lisp.StackVals, Lisp.Full, InEnv, Getsym;
    s.Word(v);
    var sym := s.Tagged(x, TAG_SYM);
    if !sym {
      return Stops;
    }
    out := InEnvOf(s, x, env, fuel);
    if !out.Value? {
      return;
    }
    var ok := s.SetCarOf(out.r, v);
    if !ok {
      return Stops;
    }
    out := s.GetsymOf(OK, fuel);
  }

  /** define. */
  method DefineOf(s: Lisp, x: nat, v: nat, env: nat, fuel: nat) returns (out: Out)
    requires s.Valid() && s.Live(x) && s.Live(v) && s.Live(env)
    modifies s.Parts()
    ensures s.Gives(out, Define(old(s.W()), old(s.Of(x)), old(s.Of(v)), old(s.Of(env)), fuel))
    ensures out.Value? ==> s.StackVals() == old(s.StackVals())
  {
    hide Lisp.Valid, Lisp.W, Lisp.Of, Lisp.Live, Lisp.StackVals, Lisp.Full, InFrame, Getsym, Bind;
    s.Word(v);
    s.Word(x);
    var sym := s.Tagged(x, TAG_SYM);
    var pairs := s.Pairs(env);
    if !sym || !pairs {
      return Stops;
    }
    s.Child(env);
    var ok, frame := s.CarOf(env);
    var ok1, vars := s.CarOf(frame);
    var ok2, vals := s.CdrOf(frame);
    if !ok1 || !ok2 {
      return Stops;
    }
    out := InFrameOf(s, x, vars, vals, fuel);
    if !out.Value? {
      return;
    }
    s.Word(out.r);
    if out.r != 0 {
      var done := s.SetCarOf(out.r, v);
      if !done {
        return Stops;
      }
      out := s.GetsymOf(OK, fuel);
      return;
    }
    out := BindOf(s, x, v, env, vars, vals, fuel);
  }

  method BindOf(s: Lisp, x: nat, v: nat, env: nat, vars: nat, vals: nat, fuel: nat) returns (out: Out)
    requires s.Valid() && s.Live(x) && s.Live(v) && s.Live(env) && s.Live(vars) && s.Live(vals)
    modifies s.Parts()
    ensures s.Gives(out, Bind(old(s.W()), old(s.Of(x)), old(s.Of(v)), old(s.Of(env)), old(s.Of(vars)), old(s.Of(vals)), fuel))
    ensures out.Value? ==> s.StackVals() == old(s.StackVals())
  {
    hide Lisp.Valid, Lisp.W, Lisp.Of, Lisp.Live, Lisp.StackVals, Lisp.Full, Getsym;
    var c1, vars2 := s.ConsOf(x, vars);
    if !c1 { return NoMemory; }
    var c2, vals2 := s.ConsOf(v, vals);
    if !c2 { return NoMemory; }
    var c3, frame2 := s.ConsOf(vars2, vals2);
    if !c3 { return NoMemory; }
    var done := s.SetCarOf(env, frame2);
    if !done {
      return Stops;
    }
    out := s.GetsymOf(OK, fuel);
  }

  // ----- Primitives -----

  method TruthOf(s: Lisp, b: bool, fuel: nat) returns (out: Out)
    requires s.Valid()
    modifies s.Parts()
    ensures s.Gives(out, Truth(old(s.W()), b, fuel))
    ensures out.Value? ==> s.StackVals() == old(s.StackVals()) && s.Kept()
  {
    out := s.GetsymOf(if b then TRUE else FALSE, fuel);
  }

  /** f_add and f_mul. */
  method TotalOf(s: Lisp, op: nat, l: nat, fuel: nat) returns (out: Out)
    requires s.Valid() && s.Live(l)
    modifies s.Parts()
    ensures s.Gives(out, Total(old(s.W()), op, old(s.Of(l)), fuel))
    ensures out.Value? ==> s.StackVals() == old(s.StackVals()) && s.Kept()
    decreases fuel
  {
    hide Lisp.Valid, Lisp.W, Lisp.Of, Lisp.Live, Lisp.StackVals, Lisp.Full, Int, Arith;
    if fuel == 0 {
      return NoFuel;
    }
    s.Word(l);
    if l == 0 {
      out := IntOf(s, if op == 2 then 1 else 0);
      return;
    }
    s.Frame(l);
    var ok, d := s.CdrOf(l);
    if !ok {
      return Stops;
    }
    var ok1, a := s.CarOf(l);
    out := TotalOf(s, op, d, fuel - 1);
    if !out.Value? {
      return;
    }
    out := ArithOf(s, op, a, out.r);
  }

  method ArithOf(s: Lisp, op: nat, a: nat, b: nat) returns (out: Out)
    requires s.Valid() && s.Live(a) && s.Live(b)
    modifies s.Parts()
    ensures s.Gives(out, Arith(old(s.W()), op, old(s.Of(a)), old(s.Of(b))))
    ensures out.Value? ==> s.StackVals() == old(s.StackVals()) && s.Kept()
  {
    hide Lisp.Valid, Lisp.W, Lisp.Of, Lisp.Live, Lisp.StackVals, Lisp.Full, Int, Compute, Signed, Undefined;
    var ok, x, y := BothIntegers(s, a, b);
    if !ok || Undefined(op, x, y) {
      return Stops;
    }
    out := IntOf(s, Compute(op, x, y));
  }

  method BothIntegers(s: Lisp, a: nat, b: nat) returns (ok: bool, x: int, y: int)
    requires s.Valid() && s.Live(a) && s.Live(b)
    ensures ok <==> IsLeaf(s.W(), s.Of(a), TAG_INT) && IsLeaf(s.W(), s.Of(b), TAG_INT)
    ensures ok ==> x == Signed(s.W().cells[s.Of(a).id].hi, s.W().cells[s.Of(a).id].lo)
    ensures ok ==> y == Signed(s.W().cells[s.Of(b).id].hi, s.W().cells[s.Of(b).id].lo)
  {
    hide Lisp.Valid, Lisp.W, Lisp.Of, Lisp.Live, Signed;
    ok, x, y := false, 0, 0;
    var n1 := s.Tagged(a, TAG_INT);
    var n2 := s.Tagged(b, TAG_INT);
    if n1 && n2 {
      var xhi, xlo := s.Payload(a, TAG_INT);
      var yhi, ylo := s.Payload(b, TAG_INT);
      ok, x, y := true, Signed(xhi, xlo), Signed(yhi, ylo);
    }
  }

  /** f_sub. */
  method DifferenceOf(s: Lisp, l: nat, fuel: nat) returns (out: Out)
    requires s.Valid() && s.Live(l)
    modifies s.Parts()
    ensures s.Gives(out, Difference(old(s.W()), old(s.Of(l)), fuel))
    ensures out.Value? ==> s.StackVals() == old(s.StackVals()) && s.Kept()
  {
    hide Lisp.Valid, Lisp.W, Lisp.Of, Lisp.Live, Lisp.StackVals, Lisp.Full, Int, Arith, Total, Signed;
    s.Word(l);
    if l == 0 {
      out := IntOf(s, 0);
      return;
    }
    s.Frame(l);
    var ok, d := s.CdrOf(l);
    if !ok {
      return Stops;
    }
    var ok1, a := s.CarOf(l);
    s.Word(d);
    if d == 0 {
      var both, x, y := BothIntegers(s, a, a);
      if !both {
        return Stops;
      }
      out := IntOf(s, -x);
      return;
    }
    out := TotalOf(s, 0, d, fuel);
    if !out.Value? {
      return;
    }
    out := ArithOf(s, 1, a, out.r);
  }

  /** f_div. */
  method QuotientOf(s: Lisp, l: nat, fuel: nat) returns (out: Out)
    requires s.Valid() && s.Live(l)
    modifies s.Parts()
    ensures s.Gives(out, Quotient(old(s.W()), old(s.Of(l)), fuel))
    ensures out.Value? ==> s.StackVals() == old(s.StackVals()) && s.Kept()
  {
    hide Lisp.Valid, Lisp.W, Lisp.Of, Lisp.Live, Lisp.StackVals, Lisp.Full, Int, Arith, Total;
    s.Word(l);
    if l == 0 {
      out := IntOf(s, 1);
      return;
    }
    s.Frame(l);
    var ok, d := s.CdrOf(l);
    if !ok {
      return Stops;
    }
    var ok1, a := s.CarOf(l);
    out := TotalOf(s, 2, d, fuel);
    if !out.Value? {
      return;
    }
    out := ArithOf(s, 3, a, out.r);
  }

  method CompareOf(s: Lisp, k: nat, a: nat, b: nat, fuel: nat) returns (out: Out)
    requires s.Valid() && s.Live(a) && s.Live(b)
    modifies s.Parts()
    ensures s.Gives(out, Compare(old(s.W()), k, old(s.Of(a)), old(s.Of(b)), fuel))
    ensures out.Value? ==> s.StackVals() == old(s.StackVals())
  {
    hide Lisp.Valid, Lisp.W, Lisp.Of, Lisp.Live, Lisp.StackVals, Lisp.Full, Truth, Signed;
    var ok, x, y := BothIntegers(s, a, b);
    if !ok {
      return Stops;
    }
    out := TruthOf(s, if k == 4 then x == y else if k == 5 then x < y else x > y, fuel);
  }

  /** and, or. */
  method LogicOf(s: Lisp, stop: bool, l0: nat, fuel: nat) returns (out: Out)
    requires s.Valid() && s.Live(l0)
    modifies s.Parts()
    ensures s.Gives(out, Logic(old(s.W()), stop, old(s.Of(l0)), fuel))
    ensures out.Value? ==> s.StackVals() == old(s.StackVals())
    decreases fuel
  {
    hide Lisp.Valid, Lisp.W, Lisp.Of, Lisp.Live, Lisp.StackVals, Lisp.Full, Truth;
    if fuel == 0 {
      return NoFuel;
    }
    s.Word(l0);
    if l0 == 0 {
      out := TruthOf(s, !stop, fuel);
      return;
    }
    var ok, a := s.CarOf(l0);
    if !ok {
      return Stops;
    }
    out := TruthOf(s, stop, fuel);
    if !out.Value? {
      return;
    }
    s.Words(a, out.r);
    if a == out.r {
      out := TruthOf(s, stop, fuel);
      return;
    }
    var ok1, d := s.CdrOf(l0);
    if !ok1 {
      return Stops;
    }
    out := LogicOf(s, stop, d, fuel - 1);
  }

  /** not. */
  method NotOf(s: Lisp, a: nat, fuel: nat) returns (out: Out)
    requires s.Valid() && s.Live(a)
    modifies s.Parts()
    ensures s.Gives(out, Not(old(s.W()), old(s.Of(a)), fuel))
    ensures out.Value? ==> s.StackVals() == old(s.StackVals())
  {
    hide Lisp.Valid, Lisp.W, Lisp.Of, Lisp.Live, Lisp.StackVals, Lisp.Full, Truth;
    out := TruthOf(s, true, fuel);
    if !out.Value? {
      return;
    }
    s.Words(a, out.r);
    out := TruthOf(s, a != out.r, fuel);
  }

  method IntOf(s: Lisp, n: int) returns (out: Out)
    requires s.Valid()
    modifies s.Parts()
    ensures s.Gives(out, Int(old(s.W()), n))
    ensures out.Value? ==> s.StackVals() == old(s.StackVals()) && s.Kept()
  {
    out := NumberOf(s, n / LispSpec.LIMIT % LispSpec.LIMIT, n % LispSpec.LIMIT);
  }

  /** consint; a number whose high word is the mark is outside what the collector can hold. */
  method NumberOf(s: Lisp, hi: nat, lo: nat) returns (out: Out)
    requires s.Valid()
    modifies s.Parts()
    ensures s.Gives(out, Number(old(s.W()), hi, lo))
    ensures out.Value? ==> s.StackVals() == old(s.StackVals()) && s.Kept()
  {
    if hi == TAG_MARK {
      return Stops;
    }
    var ok, r := s.LeafOf(hi, lo, TAG_INT);
    out := if ok then Value(r) else NoMemory;
  }

  method LengthOf(s: Lisp, l: nat, fuel: nat) returns (out: Out, n: nat)
    requires s.Valid() && s.Live(l)
    ensures out.Value? ==> Length(s.W(), s.Of(l), fuel) == Ok(s.W(), n)
    ensures out.Stops? ==> Length(s.W(), s.Of(l), fuel).Stuck?
    ensures out.NoFuel? ==> Length(s.W(), s.Of(l), fuel).Timeout?
    ensures !out.NoMemory?
    decreases fuel
  {
    hide Lisp.Valid, Lisp.W, Lisp.Of, Lisp.Live;
    n := 0;
    if fuel == 0 {
      return NoFuel, n;
    }
    s.Word(l);
    if l == 0 {
      return Value(0), n;
    }
    var ok, d := s.CdrOf(l);
    if !ok {
      return Stops, n;
    }
    out, n := LengthOf(s, d, fuel - 1);
    if out.Value? {
      n := n + 1;
    }
  }

  /** eqq. */
  method SameOf(s: Lisp, a: nat, b: nat, fuel: nat) returns (out: Out)
    requires s.Valid() && s.Live(a) && s.Live(b)
    modifies s.Parts()
    ensures s.Gives(out, Same(old(s.W()), old(s.Of(a)), old(s.Of(b)), fuel))
    ensures out.Value? ==> s.StackVals() == old(s.StackVals())
  {
    hide Lisp.Valid, Lisp.W, Lisp.Of, Lisp.Live, Lisp.StackVals, Lisp.Full, Getsym;
    s.Word(a);
    s.Word(b);
    s.Words(a, b);
    if a == b {
      out := TruthOf(s, true, fuel);
      return;
    }
    var f1 := s.Tagged(a, TAG_FLOAT);
    var f2 := s.Tagged(b, TAG_FLOAT);
    if f1 && f2 {
      return Stops;
    }
    var n1 := s.Tagged(a, TAG_INT);
    var n2 := s.Tagged(b, TAG_INT);
    if n1 && n2 {
      var xhi, xlo := s.Payload(a, TAG_INT);
      var yhi, ylo := s.Payload(b, TAG_INT);
      out := TruthOf(s, xhi == yhi && xlo == ylo, fuel);
      return;
    }
    out := TruthOf(s, false, fuel);
  }

  /** The branches of apply for the primitives. */
  method PrimitiveOf(s: Lisp, k: nat, args: nat, fuel: nat) returns (out: Out)
    requires s.Valid() && s.Live(args)
    modifies s.Parts()
    ensures s.Gives(out, Primitive(old(s.W()), k, old(s.Of(args)), fuel))
    ensures out.Value? ==> s.StackVals() == old(s.StackVals())
  {
    hide Lisp.Valid, Lisp.W, Lisp.Of, Lisp.Live, Lisp.StackVals, Lisp.Full, Total, Difference, Quotient, Logic, Primitive1, Primitive2;
    if k == 0 || k == 2 {
      out := TotalOf(s, k, args, fuel);
      return;
    }
    if k == 1 {
      out := DifferenceOf(s, args, fuel);
      return;
    }
    if k == 3 {
      out := QuotientOf(s, args, fuel);
      return;
    }
    if k == 7 || k == 8 {
      out := LogicOf(s, k == 8, args, fuel);
      return;
    }
    var ok, a := s.CarOf(args);
    if !ok {
      return Stops;
    }
    if k in {9, 10, 11, 14, 15} {
      out := OneArgument(s, k, a, fuel);
      return;
    }
    var ok1, b := s.CadrOf(args);
    if !ok1 {
      return Stops;
    }
    out := TwoArguments(s, k, a, b, fuel);
  }

  method OneArgument(s: Lisp, k: nat, a: nat, fuel: nat) returns (out: Out)
    requires s.Valid() && s.Live(a) && k in {9, 10, 11, 14, 15}
    modifies s.Parts()
    ensures s.Gives(out, Primitive1(old(s.W()), k, old(s.Of(a)), fuel))
    ensures out.Value? ==> s.StackVals() == old(s.StackVals())
  {
    hide Lisp.Valid, Lisp.W, Lisp.Of, Lisp.Live, Lisp.StackVals, Lisp.Full, Truth, Not;
    s.Word(a);
    if k == 9 {
      out := NotOf(s, a, fuel);
    } else if k == 10 {
      out := TruthOf(s, a == 0, fuel);
    } else if k == 11 {
      var p := s.Pairs(a);
      out := TruthOf(s, p, fuel);
    } else {
      var ok, v;
      if k == 14 { ok, v := s.CarOf(a); } else { ok, v := s.CdrOf(a); }
      out := if ok then Value(v) else Stops;
    }
  }

  method TwoArguments(s: Lisp, k: nat, a: nat, b: nat, fuel: nat) returns (out: Out)
    requires s.Valid() && s.Live(a) && s.Live(b)
    modifies s.Parts()
    ensures s.Gives(out, Primitive2(old(s.W()), k, old(s.Of(a)), old(s.Of(b)), fuel))
    ensures out.Value? ==> s.StackVals() == old(s.StackVals())
  {
    hide Lisp.Valid, Lisp.W, Lisp.Of, Lisp.Live, Lisp.StackVals, Lisp.Full, Getsym, Same, Compare, SetCar, SetCdr;
    s.Word(a);
    s.Word(b);
    if 4 <= k < 7 {
      out := CompareOf(s, k, a, b, fuel);
    } else if k == 12 {
      out := SameOf(s, a, b, fuel);
    } else if k == 13 {
      var ok, r := s.ConsOf(a, b);
      out := if ok then Value(r) else NoMemory;
    } else if k == 16 || k == 17 {
      var ok;
      if k == 16 { ok := s.SetCarOf(a, b); } else { ok := s.SetCdrOf(a, b); }
      if !ok {
        return Stops;
      }
      out := s.GetsymOf(OK, fuel);
    } else {
      out := Stops;
    }
  }

  // ----- let2lambda -----

  method BindingsOf(s: Lisp, e0: nat, fuel: nat) returns (out: Out, args: nat, vals: nat)
    requires s.Valid() && s.Live(e0)
    modifies s.Parts()
    ensures out.Value? ==> s.Valid() && s.Live(args) && s.Live(vals) && s.Kept() && s.StackVals() == old(s.StackVals())
    ensures out.Value? ==> Bindings(old(s.W()), old(s.Of(e0)), Nil, Nil, fuel) == Ok(s.W(), (s.Of(args), s.Of(vals)))
    ensures out.Stops? ==> Bindings(old(s.W()), old(s.Of(e0)), Nil, Nil, fuel).Stuck?
    ensures out.NoFuel? ==> Bindings(old(s.W()), old(s.Of(e0)), Nil, Nil, fuel).Timeout?
    ensures out.NoMemory? ==> s.Full()
  {
    hide Lisp.Valid, Lisp.W, Lisp.Of, Lisp.Live, Lisp.StackVals, Lisp.Full, Append;
    var e, f := e0, fuel;
    args, vals := 0, 0;
    s.Nothing();
    while true
      invariant s.Valid() && s.Live(e) && s.Live(args) && s.Live(vals) && s.Kept() && s.StackVals() == old(s.StackVals())
      invariant Bindings(s.W(), s.Of(e), s.Of(args), s.Of(vals), f) == Bindings(old(s.W()), old(s.Of(e0)), Nil, Nil, fuel)
      decreases f
    {
      if f == 0 {
        return NoFuel, args, vals;
      }
      s.Word(e);
      if e == 0 {
        return Value(0), args, vals;
      }
      out, args, vals := BindingOf(s, e, args, vals, f);
      if !out.Value? {
        return;
      }
      var ok, d := s.CdrOf(e);
      if !ok {
        return Stops, args, vals;
      }
      e, f := d, f - 1;
    }
  }

  method BindingOf(s: Lisp, e: nat, args0: nat, vals0: nat, fuel: nat) returns (out: Out, args: nat, vals: nat)
    requires s.Valid() && s.Live(e) && s.Live(args0) && s.Live(vals0)
    modifies s.Parts()
    ensures out.Value? ==> s.Valid() && s.Live(args) && s.Live(vals) && s.Kept() && s.StackVals() == old(s.StackVals())
    ensures out.Value? ==> Binding(old(s.W()), old(s.Of(e)), old(s.Of(args0)), old(s.Of(vals0)), fuel) == Ok(s.W(), (s.Of(args), s.Of(vals)))
    ensures out.Stops? ==> Binding(old(s.W()), old(s.Of(e)), old(s.Of(args0)), old(s.Of(vals0)), fuel).Stuck?
    ensures out.NoFuel? ==> Binding(old(s.W()), old(s.Of(e)), old(s.Of(args0)), old(s.Of(vals0)), fuel).Timeout?
    ensures out.NoMemory? ==> s.Full()
  {
    hide Lisp.Valid, Lisp.W, Lisp.Of, Lisp.Live, Lisp.StackVals, Lisp.Full;
    args, vals := args0, vals0;
    var ok, b := s.CarOf(e);
    var x := 0;
    if ok { ok, x := s.CarOf(b); }
    if !ok {
      return Stops, args, vals;
    }
    hide Append;
    out := s.AppendOf(args0, x, fuel);
    if !out.Value? {
      return;
    }
    args := out.r;
    var ok1, b1 := s.CarOf(e);
    var y := 0;
    if ok1 { ok1, y := s.CadrOf(b1); }
    if !ok1 {
      BadAppend(s.W(), s.Of(vals0), fuel);
      return Stops, args, vals;
    }
    out := s.AppendOf(vals0, y, fuel);
    if out.Value? {
      vals := out.r;
    }
  }

  lemma BadAppend(w: World, q: Val, fuel: nat)
    ensures Append(w, q, Bad, fuel) == Stuck
  {
  }

  /** let2lambda. */
  method LetOf(s: Lisp, exp: nat, fuel: nat) returns (out: Out)
    requires s.Valid() && s.Live(exp)
    modifies s.Parts()
    ensures s.Gives(out, Let(old(s.W()), old(s.Of(exp)), fuel))
    ensures out.Value? ==> s.StackVals() == old(s.StackVals()) && s.Kept()
  {
    hide Lisp.Valid, Lisp.W, Lisp.Of, Lisp.Live, Lisp.StackVals, Lisp.Full, Redex, Bindings;
    s.Nothing();
    s.Frame(exp);
    var ok, e := s.CarOf(exp);
    var okc, proc := s.CdrOf(exp);
    if !ok {
      return Stops;
    }
    var args, vals;
    out, args, vals := BindingsOf(s, e, fuel);
    if !out.Value? {
      return;
    }
    out := RedexOf(s, args, vals, proc, fuel);
  }

  method RedexOf(s: Lisp, args: nat, vals: nat, rest: nat, fuel: nat) returns (out: Out)
    requires s.Valid() && s.Live(args) && s.Live(vals) && s.Live(rest)
    modifies s.Parts()
    ensures s.Gives(out, Redex(old(s.W()), old(s.Of(args)), old(s.Of(vals)), old(s.Of(rest)), fuel))
    ensures out.Value? ==> s.StackVals() == old(s.StackVals()) && s.Kept()
  {
    hide Lisp.Valid, Lisp.W, Lisp.Of, Lisp.Live, Lisp.StackVals, Lisp.Full, Append, Getsym;
    out := s.GetsymOf(LAMBDA, fuel);
    if !out.Value? {
      return;
    }
    s.Nothing();
    out := s.AppendOf(0, out.r, fuel);
    if !out.Value? {
      return;
    }
    out := s.AppendOf(out.r, args, fuel);
    if !out.Value? {
      return;
    }
    var ok1, body := s.CarOf(rest);
    if !ok1 {
      BadAppend(s.W(), s.Of(out.r), fuel);
      return Stops;
    }
    out := s.AppendOf(out.r, body, fuel);
    if !out.Value? {
      return;
    }
    s.Word(out.r);
    s.Word(vals);
    var ok2, l := s.ConsOf(out.r, vals);
    out := if ok2 then Value(l) else NoMemory;
  }

  // ----- eval -----

  /** The head of eval: a collection where fewer than 500 cells are left, or where `also` asks for one. */
  method Enter(s: Lisp, exp0: nat, env0: nat) returns (ok: bool, exp: nat, env: nat)
    requires s.Valid() && s.Live(exp0) && s.Live(env0)
    modifies s.Parts()
    ensures ok ==> s.Valid() && s.Live(exp) && s.Live(env) && s.W() == old(s.W()) && s.StackVals() == old(s.StackVals())
    ensures ok ==> s.Of(exp) == old(s.Of(exp0)) && s.Of(env) == old(s.Of(env0))
    ensures !ok ==> s.Full()
  {
    hide Lisp.Valid, Lisp.W, Lisp.Of, Lisp.Live, Lisp.StackVals, Lisp.Full;
    ok, exp, env := true, exp0, env0;
    var few := s.Count();
    if few {
      ok := s.Push(exp);
      if !ok { return; }
      ok := s.Push(env);
      if !ok { return; }
      ok := s.Collect();
      if !ok { return; }
      env := s.Pop();
      exp := s.Pop();
    }
  }

  method EvalOf(s: Lisp, exp0: nat, env0: nat, fuel: nat) returns (out: Out)
    requires s.Valid() && s.Live(exp0) && s.Live(env0)
    modifies s.Parts()
    ensures s.Gives(out, Eval(old(s.W()), old(s.Of(exp0)), old(s.Of(env0)), fuel))
    ensures out.Value? ==> s.StackVals() == old(s.StackVals())
    decreases fuel, 4
  {
    hide Lisp.Valid, Lisp.W, Lisp.Of, Lisp.Live, Lisp.StackVals, Lisp.Full, Which, Form, Lookup;
    if fuel == 0 {
      return NoFuel;
    }
    var ok, exp, env := Enter(s, exp0, env0);
    if !ok {
      return NoMemory;
    }
    s.Word(exp);
    if exp == 0 {
      return Value(0);
    }
    var pairs := s.Pairs(exp);
    if !pairs {
      var sym := s.Tagged(exp, TAG_SYM);
      if sym {
        out := LookupOf(s, exp, env, fuel);
      } else {
        out := Value(exp);
      }
      return;
    }
    s.Child(exp);
    var ok1, head := s.CarOf(exp);
    var k;
    out, k := s.WhichOf(head, KEYWORDS, fuel);
    if out.Value? {
      out := FormOf(s, k, exp, env, fuel);
    }
  }

  /** The branches of eval for a pair. */
  method FormOf(s: Lisp, k: nat, exp: nat, env: nat, fuel: nat) returns (out: Out)
    requires s.Valid() && s.Live(exp) && s.Live(env) && fuel > 0
    modifies s.Parts()
    ensures s.Gives(out, Form(old(s.W()), k, old(s.Of(exp)), old(s.Of(env)), fuel))
    ensures out.Value? ==> s.StackVals() == old(s.StackVals())
    decreases fuel, 3
  {
    hide Lisp.Valid, Lisp.W, Lisp.Of, Lisp.Live, Lisp.StackVals, Lisp.Full, Eval, Let, Closure, Sequence, Cond, SetBang, Definition, If, Application;
    if k == 0 {
      var ok, v := s.CadrOf(exp);
      out := if ok then Value(v) else Stops;
    } else if k == 1 {
      out := SetForm(s, exp, env, fuel);
    } else if k == 2 {
      out := DefineForm(s, exp, env, fuel);
    } else if k == 3 {
      out := IfForm(s, exp, env, fuel);
    } else if k == 4 {
      out := LetForm(s, exp, env, fuel);
    } else if k == 5 {
      out := LambdaForm(s, exp, env, fuel);
    } else if k == 6 {
      out := BeginForm(s, exp, env, fuel);
    } else if k == 7 {
      out := CondForm(s, exp, env, fuel);
    } else {
      out := CallForm(s, exp, env, fuel);
    }
  }

  method SetForm(s: Lisp, exp: nat, env0: nat, fuel: nat) returns (out: Out)
    requires s.Valid() && s.Live(exp) && s.Live(env0) && fuel > 0
    modifies s.Parts()
    ensures s.Gives(out, SetBang(old(s.W()), old(s.Of(exp)), old(s.Of(env0)), fuel))
    ensures out.Value? ==> s.StackVals() == old(s.StackVals())
    decreases fuel, 1
  {
    hide Lisp.Valid, Lisp.W, Lisp.Of, Lisp.Live, Lisp.StackVals, Lisp.Full, Eval, Assign;
    var ok, x := s.CadrOf(exp);
    var ok1, e := s.CaddrOf(exp);
    if !ok || !ok1 {
      return Stops;
    }
    s.Word(x);
    s.Word(e);
    var p1 := s.Push(env0);
    if !p1 { return NoMemory; }
    var p2 := s.Push(x);
    if !p2 { return NoMemory; }
    out := EvalOf(s, e, env0, fuel - 1);
    if !out.Value? {
      return;
    }
    var v := out.r;
    x := s.Pop();
    var env := s.Pop();
    out := AssignOf(s, x, v, env, fuel);
  }

  method DefineForm(s: Lisp, exp: nat, env0: nat, fuel: nat) returns (out: Out)
    requires s.Valid() && s.Live(exp) && s.Live(env0) && fuel > 0
    modifies s.Parts()
    ensures s.Gives(out, Definition(old(s.W()), old(s.Of(exp)), old(s.Of(env0)), fuel))
    ensures out.Value? ==> s.StackVals() == old(s.StackVals())
    decreases fuel, 2
  {
    hide Lisp.Valid, Lisp.W, Lisp.Of, Lisp.Live, Lisp.StackVals, Lisp.Full, Eval, Define, DefineProcedure;
    var ok, x := s.CadrOf(exp);
    if !ok {
      return Stops;
    }
    var sym := s.Tagged(x, TAG_SYM);
    if sym {
      var ok1, e := s.CaddrOf(exp);
      if !ok1 {
        return Stops;
      }
      var env;
      out, x, env := EvalKeeping(s, x, e, env0, fuel - 1);
      if !out.Value? {
        return;
      }
      out := DefineOf(s, x, out.r, env, fuel);
      return;
    }
    var pairs := s.Pairs(x);
    if !pairs {
      return Stops;
    }
    var ok2, body := s.CddrOf(exp);
    if !ok2 {
      return Stops;
    }
    out := DefineProcedureOf(s, x, body, env0, fuel);
  }

  method DefineProcedureOf(s: Lisp, head: nat, body: nat, env0: nat, fuel: nat) returns (out: Out)
    requires s.Valid() && s.Live(head) && s.Live(body) && s.Live(env0) && fuel > 0
    modifies s.Parts()
    ensures s.Gives(out, DefineProcedure(old(s.W()), old(s.Of(head)), old(s.Of(body)), old(s.Of(env0)), fuel))
    ensures out.Value? ==> s.StackVals() == old(s.StackVals())
    decreases fuel, 1
  {
    hide Lisp.Valid, Lisp.W, Lisp.Of, Lisp.Live, Lisp.StackVals, Lisp.Full, Eval, Define, Getsym;
    s.Word(body);
    var ok, f := s.CarOf(head);
    var ok1, par := s.CdrOf(head);
    if !ok || !ok1 {
      return Stops;
    }
    out := s.GetsymOf(LAMBDA, fuel);
    if !out.Value? {
      return;
    }
    var c1, r := s.ConsOf(par, body);
    if !c1 { return NoMemory; }
    var c2, p := s.ConsOf(out.r, r);
    if !c2 { return NoMemory; }
    var env;
    out, f, env := EvalKeeping(s, f, p, env0, fuel - 1);
    if !out.Value? {
      return;
    }
    out := DefineOf(s, f, out.r, env, fuel);
  }

  method IfForm(s: Lisp, exp0: nat, env0: nat, fuel: nat) returns (out: Out)
    requires s.Valid() && s.Live(exp0) && s.Live(env0) && fuel > 0
    modifies s.Parts()
    ensures s.Gives(out, If(old(s.W()), old(s.Of(exp0)), old(s.Of(env0)), fuel))
    ensures out.Value? ==> s.StackVals() == old(s.StackVals())
    decreases fuel, 1
  {
    hide Lisp.Valid, Lisp.W, Lisp.Of, Lisp.Live, Lisp.StackVals, Lisp.Full, Eval, Getsym;
    var ok, e := s.CadrOf(exp0);
    if !ok {
      return Stops;
    }
    var exp, env;
    out, exp, env := EvalKeeping(s, exp0, e, env0, fuel - 1);
    if !out.Value? {
      return;
    }
    var pred := out.r;
    out := s.GetsymOf(FALSE, fuel);
    if !out.Value? {
      return;
    }
    s.Words(pred, out.r);
    var ok1, branch;
    if pred != out.r {
      ok1, branch := s.CaddrOf(exp);
    } else {
      ok1, branch := s.CadddrOf(exp);
    }
    if !ok1 {
      return Stops;
    }
    out := EvalOf(s, branch, env, fuel - 1);
  }

  method LetForm(s: Lisp, exp: nat, env: nat, fuel: nat) returns (out: Out)
    requires s.Valid() && s.Live(exp) && s.Live(env) && fuel > 0
    modifies s.Parts()
    ensures s.Gives(out, Form(old(s.W()), 4, old(s.Of(exp)), old(s.Of(env)), fuel))
    ensures out.Value? ==> s.StackVals() == old(s.StackVals())
    decreases fuel, 1
  {
    hide Lisp.Valid, Lisp.W, Lisp.Of, Lisp.Live, Lisp.StackVals, Lisp.Full, Eval;
    var ok, rest := s.CdrOf(exp);
    if !ok {
      return Stops;
    }
    hide Let;
    out := LetOf(s, rest, fuel);
    if out.Value? {
      out := EvalOf(s, out.r, env, fuel - 1);
    }
  }

  method LambdaForm(s: Lisp, exp: nat, env: nat, fuel: nat) returns (out: Out)
    requires s.Valid() && s.Live(exp) && s.Live(env)
    modifies s.Parts()
    ensures s.Gives(out, Closure(old(s.W()), Cadr(old(s.W()), old(s.Of(exp))), Cddr(old(s.W()), old(s.Of(exp))), old(s.Of(env)), fuel))
    ensures out.Value? ==> s.StackVals() == old(s.StackVals())
  {
    hide Lisp.Valid, Lisp.W, Lisp.Of, Lisp.Live, Lisp.StackVals, Lisp.Full, Getsym;
    var ok, params := s.CadrOf(exp);
    var ok1, body := s.CddrOf(exp);
    if !ok || !ok1 {
      return Stops;
    }
    out := s.GetsymOf(PROCEDURE, fuel);
    if !out.Value? {
      return;
    }
    s.Nothing();
    var c1, r1 := s.ConsOf(env, 0);
    if !c1 { return NoMemory; }
    var c2, r2 := s.ConsOf(body, r1);
    if !c2 { return NoMemory; }
    var c3, r3 := s.ConsOf(params, r2);
    if !c3 { return NoMemory; }
    var c4, r4 := s.ConsOf(out.r, r3);
    if !c4 { return NoMemory; }
    out := Value(r4);
  }

  method BeginForm(s: Lisp, exp: nat, env: nat, fuel: nat) returns (out: Out)
    requires s.Valid() && s.Live(exp) && s.Live(env) && fuel > 0
    modifies s.Parts()
    ensures s.Gives(out, Sequence(old(s.W()), Cdr(old(s.W()), old(s.Of(exp))), old(s.Of(env)), fuel))
    ensures out.Value? ==> s.StackVals() == old(s.StackVals())
    decreases fuel, 2
  {
    var ok, rest := s.CdrOf(exp);
    if !ok {
      return Stops;
    }
    out := SequenceOf(s, rest, env, fuel);
  }

  /** The loop of begin, and of apply over a procedure's body. */
  method SequenceOf(s: Lisp, q0: nat, env0: nat, fuel: nat) returns (out: Out)
    requires s.Valid() && s.Live(q0) && s.Live(env0)
    modifies s.Parts()
    ensures s.Gives(out, Sequence(old(s.W()), old(s.Of(q0)), old(s.Of(env0)), fuel))
    ensures out.Value? ==> s.StackVals() == old(s.StackVals())
    decreases fuel, 1
  {
    hide Lisp.Valid, Lisp.W, Lisp.Of, Lisp.Live, Lisp.StackVals, Lisp.Full, Eval;
    var q: nat, env: nat, f: nat := q0, env0, fuel;
    while true
      invariant f <= fuel && s.Valid() && s.Live(q) && s.Live(env) && s.StackVals() == old(s.StackVals())
      invariant Sequence(s.W(), s.Of(q), s.Of(env), f) == Sequence(old(s.W()), old(s.Of(q0)), old(s.Of(env0)), fuel)
      decreases f
    {
      if f == 0 {
        return NoFuel;
      }
      var ok, d := s.CdrOf(q);
      if !ok {
        return Stops;
      }
      s.Frame(q);
      s.Word(d);
      var ok1, e := s.CarOf(q);
      if d == 0 {
        out := EvalOf(s, e, env, f - 1);
        return;
      }
      out, q, env := EvalKeeping(s, q, e, env, f - 1);
      if !out.Value? {
        return;
      }
      var ok2, rest := s.CdrOf(q);
      if !ok2 {
        return Stops;
      }
      q, f := rest, f - 1;
    }
  }

  /** A word and the environment pushed around an eval. */
  method EvalKeeping(s: Lisp, q0: nat, e: nat, env0: nat, fuel: nat) returns (out: Out, q: nat, env: nat)
    requires s.Valid() && s.Live(q0) && s.Live(e) && s.Live(env0)
    modifies s.Parts()
    ensures s.Gives(out, Eval(old(s.W()), old(s.Of(e)), old(s.Of(env0)), fuel))
    ensures out.Value? ==> s.StackVals() == old(s.StackVals()) && s.Live(q) && s.Live(env)
    ensures out.Value? ==> s.Of(q) == old(s.Of(q0)) && s.Of(env) == old(s.Of(env0))
    decreases fuel, 5
  {
    hide Lisp.Valid, Lisp.W, Lisp.Of, Lisp.Live, Lisp.StackVals, Lisp.Full, Eval;
    q, env := q0, env0;
    var p1 := s.Push(q0);
    if !p1 { return NoMemory, q, env; }
    var p2 := s.Push(env0);
    if !p2 { return NoMemory, q, env; }
    out := EvalOf(s, e, env0, fuel);
    if out.Value? {
      env := s.Pop();
      q := s.Pop();
    }
  }

  /** Three words pushed around an eval. */
  method EvalSaving(s: Lisp, a0: nat, b0: nat, c0: nat, e: nat, env: nat, fuel: nat) returns (out: Out, a: nat, b: nat, c: nat)
    requires s.Valid() && s.Live(a0) && s.Live(b0) && s.Live(c0) && s.Live(e) && s.Live(env)
    modifies s.Parts()
    ensures s.Gives(out, Eval(old(s.W()), old(s.Of(e)), old(s.Of(env)), fuel))
    ensures out.Value? ==> s.StackVals() == old(s.StackVals()) && s.Live(a) && s.Live(b) && s.Live(c)
    ensures out.Value? ==> s.Of(a) == old(s.Of(a0)) && s.Of(b) == old(s.Of(b0)) && s.Of(c) == old(s.Of(c0))
    decreases fuel, 5
  {
    hide Lisp.Valid, Lisp.W, Lisp.Of, Lisp.Live, Lisp.StackVals, Lisp.Full, Eval;
    a, b, c := a0, b0, c0;
    var p1 := s.Push(a0);
    if !p1 { return NoMemory, a, b, c; }
    var p2 := s.Push(b0);
    if !p2 { return NoMemory, a, b, c; }
    var p3 := s.Push(c0);
    if !p3 { return NoMemory, a, b, c; }
    out := EvalOf(s, e, env, fuel);
    if out.Value? {
      c := s.Pop();
      b := s.Pop();
      a := s.Pop();
    }
  }

  method CondForm(s: Lisp, exp: nat, env: nat, fuel: nat) returns (out: Out)
    requires s.Valid() && s.Live(exp) && s.Live(env) && fuel > 0
    modifies s.Parts()
    ensures s.Gives(out, Cond(old(s.W()), Cdr(old(s.W()), old(s.Of(exp))), old(s.Of(env)), fuel))
    ensures out.Value? ==> s.StackVals() == old(s.StackVals())
    decreases fuel, 2
  {
    var ok, rest := s.CdrOf(exp);
    if !ok {
      return Stops;
    }
    out := CondOf(s, rest, env, fuel);
  }

  method CondOf(s: Lisp, q0: nat, env0: nat, fuel: nat) returns (out: Out)
    requires s.Valid() && s.Live(q0) && s.Live(env0)
    modifies s.Parts()
    ensures s.Gives(out, Cond(old(s.W()), old(s.Of(q0)), old(s.Of(env0)), fuel))
    ensures out.Value? ==> s.StackVals() == old(s.StackVals())
    decreases fuel, 1
  {
    hide Lisp.Valid, Lisp.W, Lisp.Of, Lisp.Live, Lisp.StackVals, Lisp.Full, Eval, Getsym;
    var q: nat, env: nat, f: nat := q0, env0, fuel;
    while true
      invariant f <= fuel && s.Valid() && s.Live(q) && s.Live(env) && s.StackVals() == old(s.StackVals())
      invariant Cond(s.W(), s.Of(q), s.Of(env), f) == Cond(old(s.W()), old(s.Of(q0)), old(s.Of(env0)), fuel)
      decreases f
    {
      if f == 0 {
        return NoFuel;
      }
      s.Word(q);
      if q == 0 {
        out := s.GetsymOf(FALSE, f);
        return;
      }
      var ok, cond := s.CarOf(q);
      var test: nat := 0;
      if ok { ok, test := s.CarOf(cond); }
      if !ok {
        return Stops;
      }
      out, q, cond, env := EvalSaving(s, q, cond, env, test, env, f - 1);
      if !out.Value? {
        return;
      }
      var r := out.r;
      out := s.GetsymOf(TRUE, f);
      if !out.Value? {
        return;
      }
      s.Words(r, out.r);
      if r == out.r {
        var ok1, e := s.CadrOf(cond);
        if !ok1 {
          return Stops;
        }
        out := EvalOf(s, e, env, f - 1);
        return;
      }
      var ok2, rest := s.CdrOf(q);
      if !ok2 {
        return Stops;
      }
      q, f := rest, f - 1;
    }
  }

  /** push(cdr(exp)); push(env); eval of the operator; then the operands, and apply. */
  method CallForm(s: Lisp, exp0: nat, env0: nat, fuel: nat) returns (out: Out)
    requires s.Valid() && s.Live(exp0) && s.Live(env0) && fuel > 0
    modifies s.Parts()
    ensures s.Gives(out, Application(old(s.W()), old(s.Of(exp0)), old(s.Of(env0)), fuel))
    ensures out.Value? ==> s.StackVals() == old(s.StackVals())
    decreases fuel, 2
  {
    hide Lisp.Valid, Lisp.W, Lisp.Of, Lisp.Live, Lisp.StackVals, Lisp.Full, Eval, Arguments, Apply;
    var ok, head := s.CarOf(exp0);
    var ok1, rest := s.CdrOf(exp0);
    if !ok || !ok1 {
      return Stops;
    }
    var q, env;
    out, q, env := EvalKeeping(s, rest, head, env0, fuel - 1);
    if !out.Value? {
      return;
    }
    var p1 := s.Push(out.r);
    if !p1 { return NoMemory; }
    out := ArgumentsOf(s, q, env, fuel);
    if !out.Value? {
      return;
    }
    var args := out.r;
    var op := s.Pop();
    out := ApplyOf(s, op, args, fuel - 1);
  }

  method ArgumentsOf(s: Lisp, q0: nat, env0: nat, fuel: nat) returns (out: Out)
    requires s.Valid() && s.Live(q0) && s.Live(env0)
    modifies s.Parts()
    ensures s.Gives(out, Arguments(old(s.W()), old(s.Of(q0)), old(s.Of(env0)), Nil, fuel))
    ensures out.Value? ==> s.StackVals() == old(s.StackVals())
    decreases fuel, 1
  {
    hide Lisp.Valid, Lisp.W, Lisp.Of, Lisp.Live, Lisp.StackVals, Lisp.Full, Eval, Append;
    var q: nat, env: nat, args: nat, f: nat := q0, env0, 0, fuel;
    s.Nothing();
    while true
      invariant f <= fuel && s.Valid() && s.Live(q) && s.Live(env) && s.Live(args) && s.StackVals() == old(s.StackVals())
      invariant Arguments(s.W(), s.Of(q), s.Of(env), s.Of(args), f) == Arguments(old(s.W()), old(s.Of(q0)), old(s.Of(env0)), Nil, fuel)
      decreases f
    {
      if f == 0 {
        return NoFuel;
      }
      s.Word(q);
      if q == 0 {
        return Value(args);
      }
      var ok, e := s.CarOf(q);
      if !ok {
        return Stops;
      }
      out, q, env, args := EvalSaving(s, q, env, args, e, env, f - 1);
      if !out.Value? {
        return;
      }
      out := s.AppendOf(args, out.r, f);
      if !out.Value? {
        return;
      }
      var ok1, rest := s.CdrOf(q);
      if !ok1 {
        return Stops;
      }
      q, args, f := rest, out.r, f - 1;
    }
  }

  // ----- apply -----

  method ApplyOf(s: Lisp, proc: nat, args: nat, fuel: nat) returns (out: Out)
    requires s.Valid() && s.Live(proc) && s.Live(args)
    modifies s.Parts()
    ensures s.Gives(out, Apply(old(s.W()), old(s.Of(proc)), old(s.Of(args)), fuel))
    ensures out.Value? ==> s.StackVals() == old(s.StackVals())
    decreases fuel, 4
  {
    hide Lisp.Valid, Lisp.W, Lisp.Of, Lisp.Live, Lisp.StackVals, Lisp.Full, Which, Eval, Primitive, Call;
    if fuel == 0 {
      return NoFuel;
    }
    var k;
    out, k := s.WhichOf(proc, PRIMITIVES, fuel);
    if !out.Value? {
      return;
    }
    if k == |PRIMITIVES| {
      out := CallOf(s, proc, args, fuel);
    } else if k == 18 {
      var ok, e := s.CarOf(args);
      if !ok {
        return Stops;
      }
      var g := s.Global();
      out := EvalOf(s, e, g, fuel - 1);
    } else {
      out := PrimitiveOf(s, k, args, fuel);
    }
  }

  method CallOf(s: Lisp, proc: nat, args: nat, fuel: nat) returns (out: Out)
    requires s.Valid() && s.Live(proc) && s.Live(args) && fuel > 0
    modifies s.Parts()
    ensures s.Gives(out, Call(old(s.W()), old(s.Of(proc)), old(s.Of(args)), fuel))
    ensures out.Value? ==> s.StackVals() == old(s.StackVals())
    decreases fuel, 3
  {
    hide Lisp.Valid, Lisp.W, Lisp.Of, Lisp.Live, Lisp.StackVals, Lisp.Full, Getsym, Body;
    var ok, head := s.CarOf(proc);
    if !ok {
      return Stops;
    }
    out := s.GetsymOf(PROCEDURE, fuel);
    if !out.Value? {
      return;
    }
    s.Words(head, out.r);
    var ok1, params := s.CadrOf(proc);
    if head != out.r || !ok1 {
      return Stops;
    }
    var rest := s.Tagged(params, TAG_SYM);
    if !rest {
      out := BodyOf(s, proc, params, args, fuel);
      return;
    }
    s.Nothing();
    var c1, params1 := s.ConsOf(params, 0);
    if !c1 { return NoMemory; }
    s.Nothing();
    var c2, args1 := s.ConsOf(args, 0);
    if !c2 { return NoMemory; }
    out := BodyOf(s, proc, params1, args1, fuel);
  }

  method BodyOf(s: Lisp, proc: nat, params: nat, args: nat, fuel: nat) returns (out: Out)
    requires s.Valid() && s.Live(proc) && s.Live(params) && s.Live(args) && fuel > 0
    modifies s.Parts()
    ensures s.Gives(out, Body(old(s.W()), old(s.Of(proc)), old(s.Of(params)), old(s.Of(args)), fuel))
    ensures out.Value? ==> s.StackVals() == old(s.StackVals())
    decreases fuel, 2
  {
    hide Lisp.Valid, Lisp.W, Lisp.Of, Lisp.Live, Lisp.StackVals, Lisp.Full, Length, Sequence;
    var n, k;
    out, n := LengthOf(s, params, fuel);
    if !out.Value? {
      return;
    }
    out, k := LengthOf(s, args, fuel);
    if !out.Value? {
      return;
    }
    var ok, body := s.CaddrOf(proc);
    var ok1, env := s.CadddrOf(proc);
    if n != k || !ok || !ok1 {
      return Stops;
    }
    var c1, frame := s.ConsOf(params, args);
    if !c1 { return NoMemory; }
    var c2, newenv := s.ConsOf(frame, env);
    if !c2 { return NoMemory; }
    out := SequenceOf(s, body, newenv, fuel);
  }

  // ----- The schedule of collections does not matter -----

  /** eval from the read-eval-print loop: a word returned stands for the value, and leaves the heap, to
      which the expression evaluates; the stack is as it was.  That is the meaning of the expression which
      the heap represents, in LispMeaning's terms. */
  method Evaluate(s: Lisp, exp: nat, env: nat, fuel: nat) returns (out: Out)
    requires s.Valid() && s.Live(exp) && s.Live(env)
    modifies s.Parts()
    ensures out.Value? ==> s.Valid() && s.Live(out.r) && s.StackVals() == old(s.StackVals())
    ensures out.Value? ==> Evaluates(old(s.W()), old(s.Of(exp)), old(s.Of(env)), Ok(s.W(), s.Of(out.r)))
    ensures out.Stops? ==> Evaluates(old(s.W()), old(s.Of(exp)), old(s.Of(env)), Stuck)
    ensures out.Value? ==> GivesMeaning(old(s.W()), old(s.Of(exp)), old(s.Of(env)), Ok(s.W(), s.Of(out.r)))
    ensures out.Stops? ==> GivesMeaning(old(s.W()), old(s.Of(exp)), old(s.Of(env)), Stuck)
    ensures out.NoMemory? ==> s.Full()
  {
    hide Eval, GivesMeaning;
    out := EvalOf(s, exp, env, fuel);
    if out.Value? || out.Stops? {
      InterpreterMeans(old(s.W()), old(s.Of(exp)), old(s.Of(env)), if out.Value? then Ok(s.W(), s.Of(out.r)) else Stuck);
    }
  }

  /** Two interpreters that start from the same heap up to the places of the cells, and collect at
      different times, end with the same value and the same heap, also when one is given more steps. */
  method TwoSchedules(s: Lisp, t: Lisp, x: nat, e: nat, y: nat, d: nat, f: nat, g: nat) returns (a: Out, b: Out)
    requires s.Valid() && s.Live(x) && s.Live(e) && t.Valid() && t.Live(y) && t.Live(d) && s.Parts() !! t.Parts()
    requires s.W() == t.W() && s.Of(x) == t.Of(y) && s.Of(e) == t.Of(d)
    modifies s.Parts(), t.Parts()
    ensures a.Value? && b.Value? ==> s.W() == t.W() && s.Of(a.r) == t.Of(b.r)
    ensures !(a.Value? && b.Stops?) && !(a.Stops? && b.Value?)
  {
    a := Evaluate(s, x, e, f);
    b := Evaluate(t, y, d, g);
    if (a.Value? || a.Stops?) && (b.Value? || b.Stops?) {
      OneOutcome(old(s.W()), old(s.Of(x)), old(s.Of(e)), if a.Value? then Ok(s.W(), s.Of(a.r)) else Stuck,
                 if b.Value? then Ok(t.W(), t.Of(b.r)) else Stuck);
    }
  }
}
