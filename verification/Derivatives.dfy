/** Forward mode computes derivatives: near a point, along every direction, the outputs of a jaxpr have
    first-order expansions whose coefficients are the tangents. */
module Derivatives {
  import opened Wrappers
  import opened Lists
  import opened Products
  import opened Jaxprs
  import opened Soundness
  import opened PartialEvalProof
  import opened Jvp
  import opened JvpTyping
  import opened JvpProof
  import opened Expansions

  /** sin has derivative cos, and cos has derivative -sin. For the real functions the remainders are at most
      half of what is allowed here. */
  ghost predicate SinCos(m: Math) {
    && (forall x: real, x1: real :: Expands(m.sin(x), m.cos(x), m.sin(x1), x1 - x, 1.0))
    && forall x: real, x1: real :: Expands(m.cos(x), -m.sin(x), m.cos(x1), x1 - x, 1.0)
  }

  // ---------- evaluations that take the same branches ----------

  ghost predicate SamePathEqn(m: Math, e: Eqn, xs: seq<Val>, ys: seq<Val>)
    decreases e, 0
  {
    match e
    case PrimEqn(_, _, _) => true
    case CallEqn(body, _, _) => SamePath(m, body, xs, ys)
    case CondEqn(onTrue, onFalse, _, _) =>
      && |xs| > 0 && |ys| > 0 && Truthy(xs[0]) == Truthy(ys[0])
      && if Truthy(xs[0]) then SamePath(m, onTrue, xs[1..], ys[1..]) else SamePath(m, onFalse, xs[1..], ys[1..])
  }

  ghost predicate SamePathEqns(m: Math, eqns: seq<Eqn>, env: Env, env': Env)
    decreases eqns, 0
  {
    if eqns == [] then true
    else
      var e := eqns[0];
      && StepEnv(m, e, env).Some? && StepEnv(m, e, env').Some?
      && SamePathEqn(m, e, Gets(env, e.inputs), Gets(env', e.inputs))
      && SamePathEqns(m, eqns[1..], StepEnv(m, e, env).value, StepEnv(m, e, env').value)
  }

  /** Every conditional that evaluation on `xs` meets, at any depth, selects the same branch on `ys`. */
  ghost predicate SamePath(m: Math, j: Jaxpr, xs: seq<Val>, ys: seq<Val>)
    decreases j, 1
  {
    var env, env' := Write(map[], j.binders, xs), Write(map[], j.binders, ys);
    env.Some? && env'.Some? && SamePathEqns(m, j.eqns, env.value, env'.value)
  }

  /** The environment after one equation. */
  function StepEnv(m: Math, e: Eqn, env: Env): (r: Option<Env>)
    ensures r.Some? ==> AllBound(env.Keys, e.inputs)
  {
    var vals :- ReadAll(env, e.inputs);
    var outs :- Bind(m, e, vals);
    Write(env, e.outs, outs)
  }

  // ---------- values near a point ----------

  /** `y` is near `d.v` in the direction `d.dv`; of booleans only the type is known. */
  ghost predicate NearVal(d: DVal, y: Val, h: real, b: real) {
    && TypeOf(y) == TypeOf(d.v) == TypeOf(d.dv)
    && (d.v.R? ==> Expands(d.v.r, d.dv.r, y.r, h, b))
  }

  ghost predicate NearVals(ds: seq<DVal>, ys: seq<Val>, h: real, b: real) {
    |ys| == |ds| && forall i :: 0 <= i < |ds| ==> NearVal(ds[i], ys[i], h, b)
  }

  ghost predicate NearEnv(denv: DEnv, env: Env, h: real, b: real) {
    env.Keys == denv.Keys && forall v :: v in denv ==> NearVal(denv[v], env[v], h, b)
  }

  predicate Step(h: real) {
    Abs(h) <= 1.0
  }

  lemma NearMore(ds: seq<DVal>, ys: seq<Val>, h: real, b: real, b': real)
    requires NearVals(ds, ys, h, b) && 0.0 <= b <= b'
    ensures NearVals(ds, ys, h, b')
  {
    hide Expands;
    forall i | 0 <= i < |ds| ensures NearVal(ds[i], ys[i], h, b') {
      if ds[i].v.R? {
        ExpandsMore(ds[i].v.r, ds[i].dv.r, ys[i].r, h, b, b');
      }
    }
  }

  lemma NearTypes(ds: seq<DVal>, ys: seq<Val>, h: real, b: real)
    requires NearVals(ds, ys, h, b)
    ensures TypesOf(ys) == TypesOf(Vals(ds))
  {
  }

  // ---------- primitives ----------

  lemma UnaryNear(m: Math, p: Prim, ds: seq<DVal>, b: real) returns (b': real)
    requires SinCos(m) && 0.0 <= b && |ds| == 1 && ds[0].v.R? && ds[0].dv.R? && (p.Neg? || p.Sin? || p.Cos?)
    ensures 0.0 <= b' && DualPrim(m, p, ds).Some?
    ensures forall h: real, ys: seq<Val> :: Step(h) && NearVals(ds, ys, h, b) ==>
              ImplPrim(m, p, ys).Some? && NearVals(DualPrim(m, p, ds).value, ImplPrim(m, p, ys).value, h, b')
  {
    var x, dx, r := ds[0].v.r, ds[0].dv.r, DualPrim(m, p, ds);
    UnaryValues(m, p, ds);
    hide SinCos, Expands, DualPrim, RealProduct, ChainBound;
    var d := if p.Sin? then m.cos(x) else -m.sin(x);
    ChainNonNegative(dx, d, b);
    b' := if p.Neg? then b else ChainBound(dx, d, b);
    forall h: real, ys: seq<Val> | Step(h) && NearVals(ds, ys, h, b)
      ensures ImplPrim(m, p, ys).Some? && NearVals(DualPrim(m, p, ds).value, ImplPrim(m, p, ys).value, h, b')
    {
      assert NearVal(ds[0], ys[0], h, b);
      var x1, r1 := ys[0].r, ImplPrim(m, p, ys);
      SinExpands(m, x, x1);
      match p
      case Neg =>
        ExpandsNeg(x, dx, x1, h, b);
        ReturnsNear(r, -x, -dx, r1, -x1, h, b);
      case Sin =>
        ExpandsChain(x, dx, x1, m.sin(x), m.cos(x), m.sin(x1), h, b);
        ReturnsNear(r, m.sin(x), RealProduct(m.cos(x), dx), r1, m.sin(x1), h, b');
      case Cos =>
        ExpandsChain(x, dx, x1, m.cos(x), -m.sin(x), m.cos(x1), h, b);
        ReturnsNear(r, m.cos(x), RealProduct(-m.sin(x), dx), r1, m.cos(x1), h, b');
    }
  }

  lemma SinExpands(m: Math, x: real, x1: real)
    requires SinCos(m)
    ensures Expands(m.sin(x), m.cos(x), m.sin(x1), x1 - x, 1.0)
    ensures Expands(m.cos(x), -m.sin(x), m.cos(x1), x1 - x, 1.0)
  {
    hide Expands;
  }

  lemma ChainNonNegative(dx: real, d: real, b: real)
    requires 0.0 <= b
    ensures 0.0 <= ChainBound(dx, d, b)
  {
    hide RealProduct;
    ProductUp(0.0, 0.0, Abs(dx) + b, Abs(dx) + b);
    ProductUp(0.0, 0.0, b, Abs(d));
    Regroup(0.0, 0.0, 0.0);
  }

  lemma MulNonNegative(x: real, dx: real, y: real, dy: real, b: real)
    requires 0.0 <= b
    ensures 0.0 <= MulBound(x, dx, y, dy, b)
  {
    hide RealProduct;
    ProductUp(0.0, 0.0, Abs(dx), Abs(dy));
    ProductUp(0.0, 0.0, b, Abs(y) + Abs(dy) + b);
    ProductUp(0.0, 0.0, b, Abs(x) + Abs(dx));
    Regroup(0.0, 0.0, 0.0);
  }

  /** The only result of a primitive on dual numbers. */
  ghost predicate Returns(r: Option<seq<DVal>>, z: real, dz: real) {
    r.Some? && |r.value| == 1 && r.value[0].v.R? && r.value[0].dv.R? && r.value[0].v.r == z && r.value[0].dv.r == dz
  }

  ghost predicate Computes(r: Option<seq<Val>>, z: real) {
    r.Some? && |r.value| == 1 && r.value[0].R? && r.value[0].r == z
  }

  lemma ReturnsNear(r: Option<seq<DVal>>, z: real, dz: real, r1: Option<seq<Val>>, z1: real, h: real, b: real)
    requires Returns(r, z, dz) && Computes(r1, z1) && Expands(z, dz, z1, h, b)
    ensures NearVals(r.value, r1.value, h, b)
  {
    hide Expands;
  }

  lemma UnaryValues(m: Math, p: Prim, ds: seq<DVal>)
    requires |ds| == 1 && ds[0].v.R? && ds[0].dv.R? && (p.Neg? || p.Sin? || p.Cos?)
    ensures var x, dx, r := ds[0].v.r, ds[0].dv.r, DualPrim(m, p, ds);
            && (p.Neg? ==> Returns(r, -x, -dx))
            && (p.Sin? ==> Returns(r, m.sin(x), RealProduct(m.cos(x), dx)))
            && (p.Cos? ==> Returns(r, m.cos(x), RealProduct(-m.sin(x), dx)))
  {
    assert Vals(ds) == [ds[0].v] && Reals(Vals(ds)) == [ds[0].v.r] && Reals(Derivs(ds)) == [ds[0].dv.r];
    Chain1(Partials(m, p, [ds[0].v.r])[0], ds[0].dv.r);
  }

  lemma BinaryNear(m: Math, p: Prim, ds: seq<DVal>, b: real) returns (b': real)
    requires 0.0 <= b && |ds| == 2 && (forall d :: d in ds ==> d.v.R? && d.dv.R?) && (p.Add? || p.Mul?)
    ensures 0.0 <= b' && DualPrim(m, p, ds).Some?
    ensures forall h: real, ys: seq<Val> :: Step(h) && NearVals(ds, ys, h, b) ==>
              ImplPrim(m, p, ys).Some? && NearVals(DualPrim(m, p, ds).value, ImplPrim(m, p, ys).value, h, b')
  {
    assert ds[0] in ds && ds[1] in ds;
    var x, dx, y, dy, r := ds[0].v.r, ds[0].dv.r, ds[1].v.r, ds[1].dv.r, DualPrim(m, p, ds);
    BinaryValues(m, p, ds);
    hide Expands, DualPrim, RealProduct, MulBound, ImplPrim, Returns, Computes;
    MulNonNegative(x, dx, y, dy, b);
    b' := if p.Add? then b + b else MulBound(x, dx, y, dy, b);
    forall h: real, ys: seq<Val> | Step(h) && NearVals(ds, ys, h, b)
      ensures ImplPrim(m, p, ys).Some? && NearVals(DualPrim(m, p, ds).value, ImplPrim(m, p, ys).value, h, b')
    {
      assert NearVal(ds[0], ys[0], h, b) && NearVal(ds[1], ys[1], h, b);
      var x1, y1, r1 := ys[0].r, ys[1].r, ImplPrim(m, p, ys);
      BinaryValue(m, p, ys);
      if p.Add? {
        ExpandsAdd(x, dx, x1, y, dy, y1, h, b);
        ReturnsNear(r, x + y, dx + dy, r1, x1 + y1, h, b');
      } else {
        ExpandsMul(x, dx, x1, y, dy, y1, h, b);
        ReturnsNear(r, RealProduct(x, y), RealProduct(dx, y) + RealProduct(x, dy), r1, RealProduct(x1, y1), h, b');
      }
      ComputesSome(r1, if p.Add? then x1 + y1 else RealProduct(x1, y1));
    }
    ReturnsSome(r, if p.Add? then x + y else RealProduct(x, y),
                if p.Add? then dx + dy else RealProduct(dx, y) + RealProduct(x, dy));
  }

  lemma ComputesSome(r: Option<seq<Val>>, z: real)
    requires Computes(r, z)
    ensures r.Some?
  {
  }

  lemma ReturnsSome(r: Option<seq<DVal>>, z: real, dz: real)
    requires Returns(r, z, dz)
    ensures r.Some?
  {
  }

  lemma BinaryValue(m: Math, p: Prim, ys: seq<Val>)
    requires |ys| == 2 && ys[0].R? && ys[1].R? && (p.Add? || p.Mul?)
    ensures Computes(ImplPrim(m, p, ys), if p.Add? then ys[0].r + ys[1].r else RealProduct(ys[0].r, ys[1].r))
  {
  }

  lemma BinaryValues(m: Math, p: Prim, ds: seq<DVal>)
    requires |ds| == 2 && ds[0].v.R? && ds[0].dv.R? && ds[1].v.R? && ds[1].dv.R? && (p.Add? || p.Mul?)
    ensures var x, dx, y, dy, r := ds[0].v.r, ds[0].dv.r, ds[1].v.r, ds[1].dv.r, DualPrim(m, p, ds);
            if p.Add? then Returns(r, x + y, dx + dy)
            else Returns(r, RealProduct(x, y), RealProduct(dx, y) + RealProduct(x, dy))
  {
    var x, dx, y, dy := ds[0].v.r, ds[0].dv.r, ds[1].v.r, ds[1].dv.r;
    assert Vals(ds) == [ds[0].v, ds[1].v] && Reals(Vals(ds)) == [x, y] && Reals(Derivs(ds)) == [dx, dy];
    Chain2(1.0, 1.0, dx, dy);
    ProductRule(x, dx, y, dy);
  }

  lemma ComparisonNear(m: Math, p: Prim, ds: seq<DVal>, ys: seq<Val>, h: real, b: real)
    requires |ds| == 2 && (p.Greater? || p.Less?) && NearVals(ds, ys, h, b)
    ensures DualPrim(m, p, ds).Some? && ImplPrim(m, p, ys).Some?
    ensures NearVals(DualPrim(m, p, ds).value, ImplPrim(m, p, ys).value, h, 0.0)
  {
    hide Expands, Chain, Partials;
    assert |Vals(ds)| == 2 == |ys|;
  }

  lemma PrimNear(m: Math, p: Prim, ds: seq<DVal>, b: real) returns (b': real)
    requires SinCos(m) && 0.0 <= b && DTyped(ds, TypesOf(Vals(ds))) && AbstractEvalPrim(p, TypesOf(Vals(ds))).Some?
    ensures 0.0 <= b' && DualPrim(m, p, ds).Some?
    ensures forall h: real, ys: seq<Val> :: Step(h) && NearVals(ds, ys, h, b) ==>
              ImplPrim(m, p, ys).Some? && NearVals(DualPrim(m, p, ds).value, ImplPrim(m, p, ys).value, h, b')
  {
    hide SinCos, NearVals, DualPrim, ImplPrim;
    forall i | 0 <= i < |ds| ensures TypeOf(ds[i].v) == TypesOf(Vals(ds))[i] == TypeOf(ds[i].dv) {
      assert TypesOf(Vals(ds))[i] == TypesOf(Derivs(ds))[i];
    }
    match p
    case Neg | Sin | Cos => b' := UnaryNear(m, p, ds, b);
    case Add | Mul => b' := BinaryNear(m, p, ds, b);
    case Greater | Less =>
      b' := 0.0;
      DualPrimSound(m, p, ds);
      forall h: real, ys: seq<Val> | Step(h) && NearVals(ds, ys, h, b)
        ensures ImplPrim(m, p, ys).Some? && NearVals(DualPrim(m, p, ds).value, ImplPrim(m, p, ys).value, h, b')
      {
        ComparisonNear(m, p, ds, ys, h, b);
      }
  }

  // ---------- equations and jaxprs ----------

  lemma GetsNear(denv: DEnv, env: Env, xs: seq<Atom>, h: real, b: real)
    requires NearEnv(denv, env, h, b) && 0.0 <= b && AllBound(env.Keys, xs)
    ensures NearVals(GetDs(denv, xs), Gets(env, xs), h, b)
  {
    hide Expands;
    forall i | 0 <= i < |xs| ensures NearVal(GetD(denv, xs[i]), Get(env, xs[i]), h, b) {
      assert Bound(env.Keys, xs[i]);
      if xs[i].Lit? && xs[i].val.R? {
        ConstantExpands(xs[i].val.r, h, b);
      }
    }
  }

  lemma ConstantExpands(x: real, h: real, b: real)
    requires 0.0 <= b
    ensures Expands(x, 0.0, x, h, b)
  {
    ExpandsExactly(x, 0.0, h, b);
    Regroup(h, 0.0, 0.0);
  }

  lemma WriteNear(denv: DEnv, env: Env, vs: seq<Var>, ds: seq<DVal>, ys: seq<Val>, h: real, b: real)
    requires NearEnv(denv, env, h, b) && NearVals(ds, ys, h, b) && |vs| == |ds|
    requires WriteDs(denv, vs, ds).Some? && Write(env, vs, ys).Some?
    ensures NearEnv(WriteDs(denv, vs, ds).value, Write(env, vs, ys).value, h, b)
  {
    hide NearVal;
    WriteSpec(env, vs, ys);
    WriteDsSpec(denv, vs, ds);
    var env1, denv1 := Write(env, vs, ys).value, WriteDs(denv, vs, ds).value;
    forall v | v in denv1 ensures NearVal(denv1[v], env1[v], h, b) {
      if v !in denv {
        var i :| 0 <= i < |vs| && vs[i] == v;
        assert denv1[vs[i]] == ds[i] && env1[vs[i]] == ys[i];
      }
    }
  }

  lemma NearEnvMore(denv: DEnv, env: Env, h: real, b: real, b': real)
    requires NearEnv(denv, env, h, b) && 0.0 <= b <= b'
    ensures NearEnv(denv, env, h, b')
  {
    hide Expands;
    forall v | v in denv ensures NearVal(denv[v], env[v], h, b') {
      if denv[v].v.R? {
        ExpandsMore(denv[v].v.r, denv[v].dv.r, env[v].r, h, b, b');
      }
    }
  }

  lemma TailNear(ds: seq<DVal>, ys: seq<Val>, h: real, b: real)
    requires NearVals(ds, ys, h, b) && |ds| > 0
    ensures NearVals(ds[1..], ys[1..], h, b)
  {
    hide NearVal;
  }

  lemma {:induction false} BindNear(m: Math, e: Eqn, ds: seq<DVal>, b: real) returns (b': real)
    requires SinCos(m) && 0.0 <= b
    requires DTyped(ds, TypesOf(Vals(ds))) && AbstractEval(e, TypesOf(Vals(ds))).Some?
    ensures 0.0 <= b' && DualBind(m, e, ds).Some?
    ensures forall h: real, ys: seq<Val> ::
              Step(h) && NearVals(ds, ys, h, b) && SamePathEqn(m, e, Vals(ds), ys) && Bind(m, e, ys).Some? ==>
                NearVals(DualBind(m, e, ds).value, Bind(m, e, ys).value, h, b')
    decreases e, 0
  {
    hide SinCos, NearVals, DualPrim, ImplPrim, Eval, EvalDual, SamePath, Typecheck;
    match e
    case PrimEqn(p, _, _) => b' := PrimNear(m, p, ds, b);
    case CallEqn(body, _, _) => b' := EvalNear(m, body, ds, b);
    case CondEqn(onTrue, onFalse, _, _) =>
      TailTyped(ds);
      b' := EvalNear(m, if Truthy(ds[0].v) then onTrue else onFalse, ds[1..], b);
      forall h: real, ys: seq<Val>
        | Step(h) && NearVals(ds, ys, h, b) && SamePathEqn(m, e, Vals(ds), ys) && Bind(m, e, ys).Some?
        ensures NearVals(DualBind(m, e, ds).value, Bind(m, e, ys).value, h, b')
      {
        TailNear(ds, ys, h, b);
      }
  }

  lemma StepNear(m: Math, e: Eqn, env: Env, denv: DEnv, env': Env, outs: seq<DVal>, h: real, b: real, b': real)
    requires NearEnv(denv, env', h, b) && 0.0 <= b <= b' && AllBound(env'.Keys, e.inputs)
    requires StepEnv(m, e, env').Some? && |outs| == |e.outs| && WriteDs(denv, e.outs, outs).Some?
    requires Bind(m, e, Gets(env', e.inputs)).Some? ==> NearVals(outs, Bind(m, e, Gets(env', e.inputs)).value, h, b')
    ensures NearEnv(WriteDs(denv, e.outs, outs).value, StepEnv(m, e, env').value, h, b')
  {
    hide Bind, NearEnv, NearVals, Write, WriteDs;
    NearEnvMore(denv, env', h, b, b');
    WriteNear(denv, env', e.outs, outs, Bind(m, e, Gets(env', e.inputs)).value, h, b');
  }

  lemma {:induction false} EqnsNear(m: Math, eqns: seq<Eqn>, env: Env, denv: DEnv, b: real) returns (b': real)
    requires SinCos(m) && 0.0 <= b
    requires WellTyped(env) && TypecheckEqns(env.Keys, eqns).Some? && InStep(env, denv, false)
    ensures 0.0 <= b' && EvalDualEqns(m, eqns, denv).Some?
    ensures forall h: real, env': Env ::
              Step(h) && NearEnv(denv, env', h, b) && SamePathEqns(m, eqns, env, env') ==>
                EvalEqns(m, eqns, env').Some?
                && NearEnv(EvalDualEqns(m, eqns, denv).value, EvalEqns(m, eqns, env').value, h, b')
    decreases eqns, 0
  {
    hide SinCos, NearEnv, NearVals, Bind, DualBind, AbstractEval, Write, WriteDs, SamePathEqn, InStep, WellTyped;
    b' := b;
    if eqns != [] {
      var e := eqns[0];
      var env1 := StepSound(m, e, env);
      var ds, denv1 := DualStep(m, e, env, denv);
      var outs := DualBind(m, e, ds).value;
      var bb := BindNear(m, e, ds, b);
      var b1 := if b < bb then bb else b;
      b' := EqnsNear(m, eqns[1..], env1, denv1, b1);
      forall h: real, env': Env | Step(h) && NearEnv(denv, env', h, b) && SamePathEqns(m, eqns, env, env')
        ensures EvalEqns(m, eqns, env').Some?
        ensures NearEnv(EvalDualEqns(m, eqns, denv).value, EvalEqns(m, eqns, env').value, h, b')
      {
        GetsNear(denv, env', e.inputs, h, b);
        var ys := Gets(env', e.inputs);
        assert Vals(ds) == Gets(env, e.inputs);
        assert NearVals(outs, Bind(m, e, ys).value, h, bb);
        NearMore(outs, Bind(m, e, ys).value, h, bb, b1);
        StepNear(m, e, env, denv, env', outs, h, b, b1);
      }
    }
  }

  /** One equation on dual numbers. */
  lemma DualStep(m: Math, e: Eqn, env: Env, denv: DEnv) returns (ds: seq<DVal>, denv1: DEnv)
    requires WellTyped(env) && TypecheckEqn(env.Keys, e).Some? && InStep(env, denv, false)
    ensures AllBound(env.Keys, e.inputs) && AllBound(denv.Keys, e.inputs)
    ensures ds == GetDs(denv, e.inputs) && Vals(ds) == Gets(env, e.inputs) && DTyped(ds, TypesOf(Vals(ds)))
    ensures AbstractEval(e, TypesOf(Vals(ds))).Some? && DualBind(m, e, ds).Some?
    ensures |DualBind(m, e, ds).value| == |e.outs| && WriteDs(denv, e.outs, DualBind(m, e, ds).value) == Some(denv1)
    ensures StepEnv(m, e, env).Some? && InStep(StepEnv(m, e, env).value, denv1, false)
  {
    hide AbstractEval, Bind, DualBind, Write, WriteDs;
    var env1 := StepSound(m, e, env);
    GetDsInStep(env, denv, false, e.inputs);
    ds := GetDs(denv, e.inputs);
    DualBindSound(m, e, ds);
    var outs := DualBind(m, e, ds).value;
    assert |outs| == |TypesOf(Vals(outs))| == |Avals(e.outs)|;
    WriteInStep(env, denv, false, e.outs, Vals(outs), outs);
    denv1 := WriteDs(denv, e.outs, outs).value;
  }

  /** Near a point, evaluation that takes the same branches expands to first order, with the tangents of
      dual numbers as coefficients and a remainder that does not depend on the step. */
  lemma {:induction false} EvalNear(m: Math, j: Jaxpr, ds: seq<DVal>, b: real) returns (b': real)
    requires SinCos(m) && 0.0 <= b && Typecheck(j).Some? && DTyped(ds, Typecheck(j).value.inTypes)
    ensures 0.0 <= b' && EvalDual(m, j, ds).Some?
    ensures forall h: real, ys: seq<Val> :: Step(h) && NearVals(ds, ys, h, b) && SamePath(m, j, Vals(ds), ys) ==>
              Eval(m, j, ys).Some? && NearVals(EvalDual(m, j, ds).value, Eval(m, j, ys).value, h, b')
    decreases j, 1
  {
    hide SinCos, NearVals, NearEnv, TypecheckEqns, EvalEqns, EvalDualEqns, Write, WriteDs, BindVars, SamePathEqns,
      DTyped, InStep, WellTyped;
    DualSound(m, j, ds);
    var env, denv := DualStart(m, j, ds);
    b' := EqnsNear(m, j.eqns, env, denv, b);
    forall h: real, ys: seq<Val> | Step(h) && NearVals(ds, ys, h, b) && SamePath(m, j, Vals(ds), ys)
      ensures Eval(m, j, ys).Some? && NearVals(EvalDual(m, j, ds).value, Eval(m, j, ys).value, h, b')
    {
      StartNear(j, ds, ys, denv, h, b);
      var env' := Write(map[], j.binders, ys).value;
      var last := EvalEqns(m, j.eqns, env').value;
      NearKeys(EvalDualEqns(m, j.eqns, denv).value, last, h, b');
      GetsNear(EvalDualEqns(m, j.eqns, denv).value, last, j.outs, h, b');
    }
  }

  lemma NearKeys(denv: DEnv, env: Env, h: real, b: real)
    requires NearEnv(denv, env, h, b)
    ensures denv.Keys == env.Keys
  {
  }

  lemma DualStart(m: Math, j: Jaxpr, ds: seq<DVal>) returns (env: Env, denv: DEnv)
    requires Typecheck(j).Some? && DTyped(ds, Typecheck(j).value.inTypes)
    ensures |ds| == |j.binders| && Distinct(j.binders)
    ensures Write(map[], j.binders, Vals(ds)) == Some(env) && WriteDs(map[], j.binders, ds) == Some(denv)
    ensures WellTyped(env) && InStep(env, denv, false) && TypecheckEqns(env.Keys, j.eqns).Some?
    ensures EvalDual(m, j, ds).Some? ==>
              EvalDualEqns(m, j.eqns, denv).Some?
              && AllBound(EvalDualEqns(m, j.eqns, denv).value.Keys, j.outs)
              && EvalDual(m, j, ds) == Some(GetDs(EvalDualEqns(m, j.eqns, denv).value, j.outs))
  {
    hide TypecheckEqns, EvalDualEqns, Write, WriteDs;
    TypecheckTypes(j);
    var bound := TypecheckStart(j);
    env := StartSound(j, Vals(ds));
    assert |ds| == |TypesOf(Vals(ds))| == |Avals(j.binders)|;
    assert InStep(map[], map[], false);
    WriteInStep(map[], map[], false, j.binders, Vals(ds), ds);
    denv := WriteDs(map[], j.binders, ds).value;
  }

  lemma StartNear(j: Jaxpr, ds: seq<DVal>, ys: seq<Val>, denv: DEnv, h: real, b: real)
    requires NearVals(ds, ys, h, b) && |ds| == |j.binders| && Distinct(j.binders)
    requires WriteDs(map[], j.binders, ds) == Some(denv)
    ensures Write(map[], j.binders, ys).Some? && NearEnv(denv, Write(map[], j.binders, ys).value, h, b)
  {
    hide NearVal;
    WriteSpec(map[], j.binders, ys);
    assert NearEnv(map[], map[], h, b);
    WriteNear(map[], map[], j.binders, ds, ys, h, b);
  }

  // ---------- the staged JVP ----------

  /** The point that is `h` times the direction `dxs` away from `xs`; booleans do not move. */
  function Moved(xs: seq<Val>, dxs: seq<Val>, h: real): (r: seq<Val>)
    requires |xs| == |dxs|
    ensures |r| == |xs|
    ensures forall i :: 0 <= i < |r| ==>
              r[i] == if xs[i].R? && dxs[i].R? then R(xs[i].r + RealProduct(h, dxs[i].r)) else xs[i]
  {
    seq(|xs|, i requires 0 <= i < |xs| =>
      if xs[i].R? && dxs[i].R? then R(xs[i].r + RealProduct(h, dxs[i].r)) else xs[i])
  }

  /** `ws` are values near `us`, and `ts` their derivatives: every real one of them is `u + h * t` up to
      `b * h^2`. */
  ghost predicate FirstOrder(us: seq<Val>, ts: seq<Val>, ws: seq<Val>, h: real, b: real) {
    && |us| == |ts| == |ws|
    && forall i :: 0 <= i < |us| && us[i].R? ==> ts[i].R? && ws[i].R? && Expands(us[i].r, ts[i].r, ws[i].r, h, b)
  }

  lemma MovedNear(ds: seq<DVal>, h: real)
    requires DTyped(ds, TypesOf(Vals(ds)))
    ensures NearVals(ds, Moved(Vals(ds), Derivs(ds), h), h, 0.0)
    ensures TypesOf(Moved(Vals(ds), Derivs(ds), h)) == TypesOf(Vals(ds))
  {
    hide Expands, RealProduct;
    var ys := Moved(Vals(ds), Derivs(ds), h);
    forall i | 0 <= i < |ds| ensures NearVal(ds[i], ys[i], h, 0.0) {
      assert TypesOf(Vals(ds))[i] == TypesOf(Derivs(ds))[i];
      if ds[i].v.R? {
        ExpandsExactly(ds[i].v.r, ds[i].dv.r, h, 0.0);
      }
    }
    NearTypes(ds, ys, h, 0.0);
  }

  lemma NearFirstOrder(ds: seq<DVal>, ws: seq<Val>, h: real, b: real)
    requires NearVals(ds, ws, h, b)
    ensures FirstOrder(Vals(ds), Derivs(ds), ws, h, b)
  {
    hide Expands;
    forall i | 0 <= i < |ds|
      ensures ds[i].v.R? ==> ds[i].dv.R? && ws[i].R? && Expands(ds[i].v.r, ds[i].dv.r, ws[i].r, h, b)
    {
      assert NearVal(ds[i], ws[i], h, b);
    }
  }

  /** The tangents of dual numbers are derivatives. */
  lemma DualDerivative(m: Math, j: Jaxpr, ds: seq<DVal>) returns (b: real)
    requires SinCos(m) && Typecheck(j).Some? && DTyped(ds, Typecheck(j).value.inTypes)
    ensures 0.0 <= b && EvalDual(m, j, ds).Some?
    ensures forall h: real :: Step(h) && SamePath(m, j, Vals(ds), Moved(Vals(ds), Derivs(ds), h)) ==>
              && Eval(m, j, Moved(Vals(ds), Derivs(ds), h)).Some?
              && NearVals(EvalDual(m, j, ds).value, Eval(m, j, Moved(Vals(ds), Derivs(ds), h)).value, h, b)
  {
    hide SinCos, NearVals, Eval, EvalDual, SamePath, Typecheck;
    b := EvalNear(m, j, ds, 0.0);
    forall h: real | Step(h) && SamePath(m, j, Vals(ds), Moved(Vals(ds), Derivs(ds), h))
      ensures Eval(m, j, Moved(Vals(ds), Derivs(ds), h)).Some?
      ensures NearVals(EvalDual(m, j, ds).value, Eval(m, j, Moved(Vals(ds), Derivs(ds), h)).value, h, b)
    {
      MovedNear(ds, h);
    }
  }

  /** jvp_jaxpr computes directional derivatives. At every point and in every direction there is one bound
      such that at all nearby points where evaluation takes the same branches, each output is what the
      staged JVP returns first plus the step times what it returns second, up to that bound times the
      square of the step. */
  lemma JvpDerivative(m: Math, names: Naming, j: Jaxpr, xs: seq<Val>, dxs: seq<Val>)
    returns (us: seq<Val>, ts: seq<Val>, b: real)
    requires SinCos(m) && Typecheck(j).Some? && TypesOf(xs) == Avals(j.binders) == TypesOf(dxs)
    ensures |xs| == |dxs| && JvpJaxpr(names, j).Some?
    ensures Eval(m, JvpJaxpr(names, j).value.jaxpr, xs + dxs) == Some(us + ts) && Eval(m, j, xs) == Some(us)
    ensures 0.0 <= b && |us| == |ts|
    ensures forall h: real :: Step(h) && SamePath(m, j, xs, Moved(xs, dxs, h)) ==>
              Eval(m, j, Moved(xs, dxs, h)).Some? && FirstOrder(us, ts, Eval(m, j, Moved(xs, dxs, h)).value, h, b)
  {
    hide SinCos, NearVals, Eval, EvalDual, SamePath, Typecheck, JvpJaxpr, FirstOrder;
    assert |xs| == |TypesOf(xs)| == |dxs|;
    var ds := DVals(xs, dxs);
    TypecheckTypes(j);
    JvpTotal(names, j);
    DualSound(m, j, ds);
    JvpCorrect(m, names, j, ds);
    var out := EvalDual(m, j, ds).value;
    us, ts := Vals(out), Derivs(out);
    b := DualDerivative(m, j, ds);
    forall h: real | Step(h) && SamePath(m, j, xs, Moved(xs, dxs, h))
      ensures Eval(m, j, Moved(xs, dxs, h)).Some? && FirstOrder(us, ts, Eval(m, j, Moved(xs, dxs, h)).value, h, b)
    {
      NearFirstOrder(out, Eval(m, j, Moved(xs, dxs, h)).value, h, b);
    }
  }

  // ---------- programs without conditionals ----------

  predicate StraightEqn(e: Eqn)
    decreases e, 0
  {
    match e
    case PrimEqn(_, _, _) => true
    case CallEqn(body, _, _) => Straight(body)
    case CondEqn(_, _, _, _) => false
  }

  predicate StraightEqns(eqns: seq<Eqn>)
    decreases eqns, 0
  {
    eqns == [] || (StraightEqn(eqns[0]) && StraightEqns(eqns[1..]))
  }

  /** There is no conditional, at any depth. */
  predicate Straight(j: Jaxpr)
    decreases j, 1
  {
    StraightEqns(j.eqns)
  }

  lemma {:induction false} StraightPathEqn(m: Math, e: Eqn, xs: seq<Val>, ys: seq<Val>)
    requires StraightEqn(e) && AbstractEval(e, TypesOf(xs)).Some? && TypesOf(ys) == TypesOf(xs)
    ensures SamePathEqn(m, e, xs, ys)
    decreases e, 0
  {
    if e.CallEqn? {
      TypecheckTypes(e.body);
      StraightPath(m, e.body, xs, ys);
    }
  }

  lemma {:induction false} StraightPathEqns(m: Math, eqns: seq<Eqn>, env: Env, env': Env)
    requires StraightEqns(eqns) && TypecheckEqns(env.Keys, eqns).Some?
    requires env.Keys == env'.Keys && WellTyped(env) && WellTyped(env')
    ensures SamePathEqns(m, eqns, env, env')
    decreases eqns, 0
  {
    hide Bind, AbstractEval, Write, WellTyped, SamePathEqn, StraightEqn;
    if eqns != [] {
      var e := eqns[0];
      var env1 := StepSound(m, e, env);
      var env1' := StepSound(m, e, env');
      TypedOperands(e, env);
      TypedOperands(e, env');
      StraightPathEqn(m, e, Gets(env, e.inputs), Gets(env', e.inputs));
      StraightPathEqns(m, eqns[1..], env1, env1');
    }
  }

  lemma TypedOperands(e: Eqn, env: Env)
    requires WellTyped(env) && TypecheckEqn(env.Keys, e).Some?
    ensures AllBound(env.Keys, e.inputs) && TypesOf(Gets(env, e.inputs)) == AtomTys(e.inputs)
    ensures AbstractEval(e, AtomTys(e.inputs)).Some?
  {
    hide AbstractEval;
    GetsTyped(env, e.inputs);
  }

  /** Without conditionals every two evaluations take the same path, so that the tangents are derivatives
      without any condition. */
  lemma {:induction false} StraightPath(m: Math, j: Jaxpr, xs: seq<Val>, ys: seq<Val>)
    requires Straight(j) && Typecheck(j).Some? && TypesOf(xs) == Avals(j.binders) == TypesOf(ys)
    ensures SamePath(m, j, xs, ys)
    decreases j, 1
  {
    hide TypecheckEqns, Write, WellTyped;
    var bound := TypecheckStart(j);
    var env := StartSound(j, xs);
    var env' := StartSound(j, ys);
    StraightPathEqns(m, j.eqns, env, env');
  }
}
