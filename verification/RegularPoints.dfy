/** Where no comparison is between equal numbers, nearby evaluations take the same branches, and the
    tangents of forward mode are derivatives even through conditionals. */
module RegularPoints {
  import opened Wrappers
  import opened Products
  import opened Jaxprs
  import opened Soundness
  import opened PartialEvalProof
  import opened Jvp
  import opened JvpProof
  import opened Expansions
  import opened Derivatives

  /** The operands of a comparison differ, or both are booleans. */
  predicate Comparable(x: Val, y: Val) {
    AsReal(x) != AsReal(y) || (x.B? && y.B?)
  }

  ghost predicate RegularEqn(m: Math, e: Eqn, xs: seq<Val>)
    decreases e, 0
  {
    match e
    case PrimEqn(p, _, _) => (p.Greater? || p.Less?) && |xs| == 2 ==> Comparable(xs[0], xs[1])
    case CallEqn(body, _, _) => Regular(m, body, xs)
    case CondEqn(onTrue, onFalse, _, _) =>
      |xs| > 0 ==> if Truthy(xs[0]) then Regular(m, onTrue, xs[1..]) else Regular(m, onFalse, xs[1..])
  }

  ghost predicate RegularEqns(m: Math, eqns: seq<Eqn>, env: Env)
    decreases eqns, 0
  {
    if eqns == [] then true
    else
      var e := eqns[0];
      StepEnv(m, e, env).Some? ==>
        RegularEqn(m, e, Gets(env, e.inputs)) && RegularEqns(m, eqns[1..], StepEnv(m, e, env).value)
  }

  /** Every comparison that evaluation on `xs` performs, at any depth, is between different numbers. */
  ghost predicate Regular(m: Math, j: Jaxpr, xs: seq<Val>)
    decreases j, 1
  {
    var env := Write(map[], j.binders, xs);
    env.Some? ==> RegularEqns(m, j.eqns, env.value)
  }

  // ---------- booleans do not change nearby ----------

  ghost predicate SameBools(xs: seq<Val>, ys: seq<Val>) {
    |xs| == |ys| && forall i :: 0 <= i < |xs| && xs[i].B? ==> ys[i] == xs[i]
  }

  ghost predicate SameBoolEnv(env: Env, env': Env) {
    env.Keys == env'.Keys && forall v :: v in env && env[v].B? ==> env'[v] == env[v]
  }

  predicate Within(h: real, e: real) {
    Abs(h) <= e
  }

  /** How fast a value can move. */
  function Speed(d: DVal, b: real): real {
    if d.v.R? && d.dv.R? then Abs(d.dv.r) + b else 0.0
  }

  predicate BoolKept(d: DVal, y: Val) {
    d.v.B? ==> y == d.v
  }

  lemma MovesSlowly(d: DVal, y: Val, h: real, b: real)
    requires NearVal(d, y, h, b) && BoolKept(d, y) && 0.0 <= b && Step(h)
    ensures Abs(AsReal(y) - AsReal(d.v)) <= RealProduct(Abs(h), Speed(d, b)) && 0.0 <= Speed(d, b)
  {
    hide RealProduct, Expands;
    if d.v.R? {
      StepBound(d.v.r, d.dv.r, y.r, h, b);
    } else {
      Regroup(Abs(h), 0.0, 0.0);
      Regroup(0.0, Abs(h), 0.0);
    }
  }

  /** Different numbers stay in their order. */
  lemma StayApart(dx: DVal, dy: DVal, b: real) returns (e: real)
    requires 0.0 <= b && TypeOf(dx.v) == TypeOf(dx.dv) && TypeOf(dy.v) == TypeOf(dy.dv) && AsReal(dx.v) != AsReal(dy.v)
    ensures 0.0 < e <= 1.0
    ensures forall h: real, x: Val, y: Val ::
              Within(h, e) && NearVal(dx, x, h, b) && NearVal(dy, y, h, b) && BoolKept(dx, x) && BoolKept(dy, y) ==>
                && (AsReal(x) > AsReal(y) <==> AsReal(dx.v) > AsReal(dy.v))
                && (AsReal(x) < AsReal(y) <==> AsReal(dx.v) < AsReal(dy.v))
  {
    var c, g := Speed(dx, b) + Speed(dy, b) + 1.0, Abs(AsReal(dx.v) - AsReal(dy.v));
    e := SmallStep(c, g, 1.0);
    hide RealProduct, Expands, NearVal;
    forall h: real, x: Val, y: Val
      | Within(h, e) && NearVal(dx, x, h, b) && NearVal(dy, y, h, b) && BoolKept(dx, x) && BoolKept(dy, y)
      ensures AsReal(x) > AsReal(y) <==> AsReal(dx.v) > AsReal(dy.v)
      ensures AsReal(x) < AsReal(y) <==> AsReal(dx.v) < AsReal(dy.v)
    {
      MovesSlowly(dx, x, h, b);
      MovesSlowly(dy, y, h, b);
      ProductUp(Abs(h), Speed(dx, b), e, c);
      ProductUp(Abs(h), Speed(dy, b), e, c);
      Regroup(e, c, 0.0);
    }
  }

  lemma CompareNear(m: Math, p: Prim, ds: seq<DVal>, b: real) returns (e: real)
    requires 0.0 <= b && |ds| == 2 && (p.Greater? || p.Less?) && DTyped(ds, TypesOf(Vals(ds)))
    requires Comparable(ds[0].v, ds[1].v)
    ensures 0.0 < e <= 1.0
    ensures forall h: real, ys: seq<Val> :: Within(h, e) && NearVals(ds, ys, h, b) && SameBools(Vals(ds), ys) ==>
              ImplPrim(m, p, ys) == ImplPrim(m, p, Vals(ds))
  {
    e := 1.0;
    assert TypesOf(Vals(ds))[0] == TypesOf(Derivs(ds))[0] && TypesOf(Vals(ds))[1] == TypesOf(Derivs(ds))[1];
    if AsReal(ds[0].v) != AsReal(ds[1].v) {
      e := StayApart(ds[0], ds[1], b);
    }
    hide NearVal;
    forall h: real, ys: seq<Val> | Within(h, e) && NearVals(ds, ys, h, b) && SameBools(Vals(ds), ys)
      ensures ImplPrim(m, p, ys) == ImplPrim(m, p, Vals(ds))
    {
      assert Vals(ds)[0] == ds[0].v && Vals(ds)[1] == ds[1].v;
      assert NearVal(ds[0], ys[0], h, b) && NearVal(ds[1], ys[1], h, b);
    }
  }

  // ---------- equations and jaxprs ----------

  lemma RealResult(m: Math, p: Prim, xs: seq<Val>, ys: seq<Val>)
    requires !p.Greater? && !p.Less? && AbstractEvalPrim(p, TypesOf(xs)).Some? && TypesOf(ys) == TypesOf(xs)
    ensures ImplPrim(m, p, xs).Some? && ImplPrim(m, p, ys).Some?
    ensures SameBools(ImplPrim(m, p, xs).value, ImplPrim(m, p, ys).value)
  {
    BindSound(m, PrimEqn(p, [], []), xs);
    BindSound(m, PrimEqn(p, [], []), ys);
    assert TypesOf(ImplPrim(m, p, xs).value) == [Float] == TypesOf(ImplPrim(m, p, ys).value);
    assert TypesOf(ImplPrim(m, p, xs).value)[0] == Float;
  }

  lemma PrimRegular(m: Math, e: Eqn, ds: seq<DVal>, b: real) returns (s: real)
    requires e.PrimEqn? && 0.0 <= b && RegularEqn(m, e, Vals(ds))
    requires DTyped(ds, TypesOf(Vals(ds))) && AbstractEvalPrim(e.prim, TypesOf(Vals(ds))).Some?
    ensures 0.0 < s <= 1.0
    ensures forall h: real, ys: seq<Val> :: Within(h, s) && NearVals(ds, ys, h, b) && SameBools(Vals(ds), ys) ==>
              && Bind(m, e, Vals(ds)).Some? && Bind(m, e, ys).Some?
              && SameBools(Bind(m, e, Vals(ds)).value, Bind(m, e, ys).value)
  {
    s := 1.0;
    var p := e.prim;
    if p.Greater? || p.Less? {
      assert |ds| == 2 && ds[0].v == Vals(ds)[0] && ds[1].v == Vals(ds)[1];
      s := CompareNear(m, p, ds, b);
      DualPrimSound(m, p, ds);
    } else {
      hide ImplPrim, NearVals;
      forall h: real, ys: seq<Val> | Within(h, s) && NearVals(ds, ys, h, b) && SameBools(Vals(ds), ys)
        ensures Bind(m, e, Vals(ds)).Some? && Bind(m, e, ys).Some?
        ensures SameBools(Bind(m, e, Vals(ds)).value, Bind(m, e, ys).value)
      {
        NearTypes(ds, ys, h, b);
        RealResult(m, p, Vals(ds), ys);
      }
    }
  }

  lemma {:induction false} BindRegular(m: Math, e: Eqn, ds: seq<DVal>, b: real) returns (s: real)
    requires SinCos(m) && 0.0 <= b && RegularEqn(m, e, Vals(ds))
    requires DTyped(ds, TypesOf(Vals(ds))) && AbstractEval(e, TypesOf(Vals(ds))).Some?
    ensures 0.0 < s <= 1.0
    ensures forall h: real, ys: seq<Val> :: Within(h, s) && NearVals(ds, ys, h, b) && SameBools(Vals(ds), ys) ==>
              && SamePathEqn(m, e, Vals(ds), ys) && Bind(m, e, Vals(ds)).Some? && Bind(m, e, ys).Some?
              && SameBools(Bind(m, e, Vals(ds)).value, Bind(m, e, ys).value)
    decreases e, 0
  {
    hide SinCos, NearVals, Eval, SamePath, Typecheck, ImplPrim, Regular, SameBools, Within;
    match e
    case PrimEqn(p, _, _) => s := PrimRegular(m, e, ds, b);
    case CallEqn(body, _, _) => s := EvalRegular(m, body, ds, b);
    case CondEqn(onTrue, onFalse, _, _) =>
      TailTyped(ds);
      s := EvalRegular(m, if Truthy(ds[0].v) then onTrue else onFalse, ds[1..], b);
      forall h: real, ys: seq<Val> | Within(h, s) && NearVals(ds, ys, h, b) && SameBools(Vals(ds), ys)
        ensures SamePathEqn(m, e, Vals(ds), ys) && Bind(m, e, Vals(ds)).Some? && Bind(m, e, ys).Some?
        ensures SameBools(Bind(m, e, Vals(ds)).value, Bind(m, e, ys).value)
      {
        TailNear(ds, ys, h, b);
        TailBools(Vals(ds), ys);
        assert TypesOf(Vals(ds))[0] == Bool;
      }
  }

  lemma TailBools(xs: seq<Val>, ys: seq<Val>)
    requires SameBools(xs, ys) && |xs| > 0
    ensures SameBools(xs[1..], ys[1..]) && |ys| > 0 && (TypesOf(xs)[0] == Bool ==> ys[0] == xs[0])
  {
  }

  lemma GetsBools(env: Env, env': Env, xs: seq<Atom>)
    requires SameBoolEnv(env, env') && AllBound(env.Keys, xs)
    ensures SameBools(Gets(env, xs), Gets(env', xs))
  {
    forall i | 0 <= i < |xs| && Gets(env, xs)[i].B? ensures Gets(env', xs)[i] == Gets(env, xs)[i] {
      assert Bound(env.Keys, xs[i]);
    }
  }

  lemma WriteBools(env: Env, env': Env, vs: seq<Var>, xs: seq<Val>, ys: seq<Val>)
    requires SameBoolEnv(env, env') && SameBools(xs, ys) && |vs| == |xs| && Write(env, vs, xs).Some?
    ensures Write(env', vs, ys).Some? && SameBoolEnv(Write(env, vs, xs).value, Write(env', vs, ys).value)
  {
    WriteSpec(env, vs, xs);
    WriteSpec(env', vs, ys);
    var r, r' := Write(env, vs, xs).value, Write(env', vs, ys).value;
    forall v | v in r && r[v].B? ensures r'[v] == r[v] {
      if v !in env {
        var i :| 0 <= i < |vs| && vs[i] == v;
        assert r[vs[i]] == xs[i] && r'[vs[i]] == ys[i];
      }
    }
  }

  lemma StepRegular(m: Math, e: Eqn, env: Env, env': Env, xs: seq<Val>, ys: seq<Val>)
    requires SameBoolEnv(env, env') && AllBound(env.Keys, e.inputs) && AllBound(env'.Keys, e.inputs)
    requires xs == Gets(env, e.inputs) && ys == Gets(env', e.inputs) && StepEnv(m, e, env).Some?
    requires Bind(m, e, xs).Some? && Bind(m, e, ys).Some? && SameBools(Bind(m, e, xs).value, Bind(m, e, ys).value)
    requires |Bind(m, e, xs).value| == |e.outs|
    ensures StepEnv(m, e, env').Some? && SameBoolEnv(StepEnv(m, e, env).value, StepEnv(m, e, env').value)
  {
    hide Bind, SameBoolEnv, SameBools, Write;
    WriteBools(env, env', e.outs, Bind(m, e, xs).value, Bind(m, e, ys).value);
  }

  lemma {:induction false} EqnsRegular(m: Math, eqns: seq<Eqn>, env: Env, denv: DEnv, b: real) returns (s: real)
    requires SinCos(m) && 0.0 <= b && RegularEqns(m, eqns, env)
    requires WellTyped(env) && TypecheckEqns(env.Keys, eqns).Some? && InStep(env, denv, false)
    ensures 0.0 < s <= 1.0
    ensures forall h: real, env': Env :: Within(h, s) && NearEnv(denv, env', h, b) && SameBoolEnv(env, env') ==>
              && SamePathEqns(m, eqns, env, env') && EvalEqns(m, eqns, env).Some? && EvalEqns(m, eqns, env').Some?
              && SameBoolEnv(EvalEqns(m, eqns, env).value, EvalEqns(m, eqns, env').value)
    decreases eqns, 0
  {
    hide SinCos, NearEnv, NearVals, Bind, DualBind, AbstractEval, Write, WriteDs, SamePathEqn, InStep, WellTyped,
      RegularEqn, SameBools, SameBoolEnv;
    s := 1.0;
    if eqns != [] {
      var e := eqns[0];
      var env1 := StepSound(m, e, env);
      var ds, denv1 := DualStep(m, e, env, denv);
      var outs := DualBind(m, e, ds).value;
      var bb := BindNear(m, e, ds, b);
      var b1 := if b < bb then bb else b;
      var s0 := BindRegular(m, e, ds, b);
      var s1 := EqnsRegular(m, eqns[1..], env1, denv1, b1);
      s := if s0 < s1 then s0 else s1;
      ValueCount(m, e, env);
      forall h: real, env': Env | Within(h, s) && NearEnv(denv, env', h, b) && SameBoolEnv(env, env')
        ensures SamePathEqns(m, eqns, env, env') && EvalEqns(m, eqns, env).Some? && EvalEqns(m, eqns, env').Some?
        ensures SameBoolEnv(EvalEqns(m, eqns, env).value, EvalEqns(m, eqns, env').value)
      {
        NearKeys(denv, env', h, b);
        GetsNear(denv, env', e.inputs, h, b);
        GetsBools(env, env', e.inputs);
        var xs, ys := Gets(env, e.inputs), Gets(env', e.inputs);
        assert Within(h, s0) && Within(h, s1) && Step(h);
        assert SamePathEqn(m, e, xs, ys) && Bind(m, e, ys).Some?;
        StepRegular(m, e, env, env', xs, ys);
        NearMore(outs, Bind(m, e, ys).value, h, bb, b1);
        StepNear(m, e, env, denv, env', outs, h, b, b1);
      }
    }
  }

  lemma ValueCount(m: Math, e: Eqn, env: Env)
    requires WellTyped(env) && TypecheckEqn(env.Keys, e).Some?
    ensures AllBound(env.Keys, e.inputs) && Bind(m, e, Gets(env, e.inputs)).Some?
    ensures |Bind(m, e, Gets(env, e.inputs)).value| == |e.outs|
  {
    hide AbstractEval, Bind;
    GetsTyped(env, e.inputs);
    BindSound(m, e, Gets(env, e.inputs));
    var outs := Bind(m, e, Gets(env, e.inputs)).value;
    assert |TypesOf(outs)| == |Avals(e.outs)|;
  }

  /** Near a regular point evaluation takes the same branches. */
  lemma {:induction false} EvalRegular(m: Math, j: Jaxpr, ds: seq<DVal>, b: real) returns (s: real)
    requires SinCos(m) && 0.0 <= b && Typecheck(j).Some? && DTyped(ds, Typecheck(j).value.inTypes)
    requires Regular(m, j, Vals(ds))
    ensures 0.0 < s <= 1.0
    ensures forall h: real, ys: seq<Val> :: Within(h, s) && NearVals(ds, ys, h, b) && SameBools(Vals(ds), ys) ==>
              && SamePath(m, j, Vals(ds), ys) && Eval(m, j, Vals(ds)).Some? && Eval(m, j, ys).Some?
              && SameBools(Eval(m, j, Vals(ds)).value, Eval(m, j, ys).value)
    decreases j, 1
  {
    hide SinCos, NearVals, NearEnv, TypecheckEqns, EvalEqns, EvalDualEqns, Write, WriteDs, BindVars, SamePathEqns,
      DTyped, InStep, WellTyped, SameBools, SameBoolEnv, Within, RegularEqns;
    DualSound(m, j, ds);
    var env, denv := DualStart(m, j, ds);
    s := EqnsRegular(m, j.eqns, env, denv, b);
    forall h: real, ys: seq<Val> | Within(h, s) && NearVals(ds, ys, h, b) && SameBools(Vals(ds), ys)
      ensures SamePath(m, j, Vals(ds), ys) && Eval(m, j, Vals(ds)).Some? && Eval(m, j, ys).Some?
      ensures SameBools(Eval(m, j, Vals(ds)).value, Eval(m, j, ys).value)
    {
      StartNear(j, ds, ys, denv, h, b);
      NothingSame();
      WriteBools(map[], map[], j.binders, Vals(ds), ys);
      var env' := Write(map[], j.binders, ys).value;
      BoolKeys(EvalEqns(m, j.eqns, env).value, EvalEqns(m, j.eqns, env').value);
      GetsBools(EvalEqns(m, j.eqns, env).value, EvalEqns(m, j.eqns, env').value, j.outs);
    }
  }

  lemma NothingSame()
    ensures SameBoolEnv(map[], map[])
  {
  }

  lemma BoolKeys(env: Env, env': Env)
    requires SameBoolEnv(env, env')
    ensures env.Keys == env'.Keys
  {
  }

  /** At a regular point, all small steps in any direction take the same path. */
  lemma RegularPath(m: Math, j: Jaxpr, xs: seq<Val>, dxs: seq<Val>) returns (s: real)
    requires SinCos(m) && Typecheck(j).Some? && TypesOf(xs) == Avals(j.binders) == TypesOf(dxs)
    requires Regular(m, j, xs)
    ensures 0.0 < s <= 1.0 && |xs| == |dxs|
    ensures forall h: real :: Within(h, s) ==> SamePath(m, j, xs, Moved(xs, dxs, h))
  {
    hide SinCos, NearVals, Eval, SamePath, Typecheck, Regular;
    assert |xs| == |TypesOf(xs)| == |dxs|;
    var ds := DVals(xs, dxs);
    TypecheckTypes(j);
    s := EvalRegular(m, j, ds, 0.0);
    forall h: real | Within(h, s) ensures SamePath(m, j, xs, Moved(xs, dxs, h)) {
      MovedNear(ds, h);
      assert SameBools(xs, Moved(xs, dxs, h));
    }
  }

  /** At a regular point the outputs of the staged JVP are the value and the derivative: there are a
      distance and a bound such that every output at every point within the distance is the value plus the
      step times the tangent, up to the bound times the square of the step. */
  lemma JvpAtRegularPoints(m: Math, names: Naming, j: Jaxpr, xs: seq<Val>, dxs: seq<Val>)
    returns (us: seq<Val>, ts: seq<Val>, b: real, s: real)
    requires SinCos(m) && Typecheck(j).Some? && TypesOf(xs) == Avals(j.binders) == TypesOf(dxs)
    requires Regular(m, j, xs)
    ensures |xs| == |dxs| && JvpJaxpr(names, j).Some?
    ensures Eval(m, JvpJaxpr(names, j).value.jaxpr, xs + dxs) == Some(us + ts) && Eval(m, j, xs) == Some(us)
    ensures 0.0 <= b && 0.0 < s && |us| == |ts|
    ensures forall h: real :: Within(h, s) ==>
              Eval(m, j, Moved(xs, dxs, h)).Some? && FirstOrder(us, ts, Eval(m, j, Moved(xs, dxs, h)).value, h, b)
  {
    hide SinCos, Eval, SamePath, Typecheck, Regular, FirstOrder, JvpJaxpr;
    s := RegularPath(m, j, xs, dxs);
    us, ts, b := JvpDerivative(m, names, j, xs, dxs);
    forall h: real | Within(h, s)
      ensures Eval(m, j, Moved(xs, dxs, h)).Some? && FirstOrder(us, ts, Eval(m, j, Moved(xs, dxs, h)).value, h, b)
    {
      assert Step(h) && SamePath(m, j, xs, Moved(xs, dxs, h));
    }
  }
}
