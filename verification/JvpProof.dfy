/** The jaxpr that jvp_jaxpr stages computes forward mode: on primals and tangents it returns
    what evaluation on dual numbers returns. */
module JvpProof {
  import opened Wrappers
  import opened Lists
  import opened Jaxprs
  import opened Soundness
  import opened PartialEvaluation
  import opened PartialEvalProof
  import opened Jvp
  import opened JvpTyping
  import opened Products

  ghost predicate DTyped(ds: seq<DVal>, tys: seq<Ty>) {
    TypesOf(Vals(ds)) == tys && TypesOf(Derivs(ds)) == tys
  }

  function DVals(xs: seq<Val>, ts: seq<Val>): (r: seq<DVal>)
    requires |xs| == |ts|
    ensures Vals(r) == xs && Derivs(r) == ts
  {
    var r := seq(|xs|, i requires 0 <= i < |xs| => D(xs[i], ts[i]));
    assert Vals(r) == xs && Derivs(r) == ts;
    r
  }

  /** All derivatives are zero. */
  ghost predicate Still(ds: seq<DVal>) {
    forall i :: 0 <= i < |ds| ==> ds[i].dv == Zero(TypeOf(ds[i].v))
  }

  /** The two evaluations in step: same variables, same values, typed derivatives. */
  ghost predicate InStep(env: Env, denv: DEnv, still: bool) {
    && env.Keys == denv.Keys
    && forall v :: v in env ==>
         && denv[v].v == env[v] && TypeOf(denv[v].dv) == v.aval == TypeOf(env[v])
         && (still ==> denv[v].dv == Zero(v.aval))
  }

  lemma {:induction false} WriteDsSpec(env: DEnv, vs: seq<Var>, ds: seq<DVal>)
    requires |vs| == |ds| && Distinct(vs) && forall v :: v in vs ==> v !in env
    ensures WriteDs(env, vs, ds).Some?
    ensures var r := WriteDs(env, vs, ds).value;
            && r.Keys == env.Keys + ToSet(vs)
            && (forall v :: v in env ==> r[v] == env[v])
            && (forall i :: 0 <= i < |vs| ==> r[vs[i]] == ds[i])
    decreases vs
  {
    if vs != [] {
      assert vs == [vs[0]] + vs[1..];
      WriteDsSpec(env[vs[0] := ds[0]], vs[1..], ds[1..]);
      var r := WriteDs(env[vs[0] := ds[0]], vs[1..], ds[1..]).value;
      forall i | 0 <= i < |vs| ensures r[vs[i]] == ds[i] {
        if i > 0 {
          assert vs[i] == vs[1..][i - 1] && ds[i] == ds[1..][i - 1];
        }
      }
    }
  }

  lemma GetDsInStep(env: Env, denv: DEnv, still: bool, xs: seq<Atom>)
    requires InStep(env, denv, still) && AllBound(env.Keys, xs)
    ensures Vals(GetDs(denv, xs)) == Gets(env, xs)
    ensures DTyped(GetDs(denv, xs), AtomTys(xs)) && (still ==> Still(GetDs(denv, xs)))
  {
    var ds := GetDs(denv, xs);
    forall i | 0 <= i < |xs|
      ensures ds[i].v == Get(env, xs[i]) && TypeOf(ds[i].v) == AtomTy(xs[i]) == TypeOf(ds[i].dv)
      ensures still ==> ds[i].dv == Zero(TypeOf(ds[i].v))
    {
      assert Bound(env.Keys, xs[i]);
    }
    assert TypesOf(Vals(ds)) == AtomTys(xs);
    assert TypesOf(Derivs(ds)) == AtomTys(xs);
  }

  lemma WriteInStep(env: Env, denv: DEnv, still: bool, vs: seq<Var>, vals: seq<Val>, ds: seq<DVal>)
    requires InStep(env, denv, still) && Write(env, vs, vals).Some? && |vs| == |vals|
    requires Vals(ds) == vals && DTyped(ds, Avals(vs)) && (still ==> Still(ds))
    ensures WriteDs(denv, vs, ds).Some?
    ensures InStep(Write(env, vs, vals).value, WriteDs(denv, vs, ds).value, still)
  {
    WriteSpec(env, vs, vals);
    WriteDsSpec(denv, vs, ds);
    var env1, denv1 := Write(env, vs, vals).value, WriteDs(denv, vs, ds).value;
    forall v | v in env1
      ensures denv1[v].v == env1[v] && TypeOf(denv1[v].dv) == v.aval == TypeOf(env1[v])
      ensures still ==> denv1[v].dv == Zero(v.aval)
    {
      if v !in env {
        var i :| 0 <= i < |vs| && vs[i] == v;
        assert TypesOf(Vals(ds))[i] == Avals(vs)[i] && TypesOf(Derivs(ds))[i] == Avals(vs)[i];
      }
    }
  }

  lemma ChainZero(ps: seq<real>, n: nat)
    ensures Chain(ps, seq(n, i => 0.0)) == 0.0
  {
    if ps != [] && n > 0 {
      assert seq(n, i => 0.0)[1..] == seq(n - 1, i => 0.0);
      ChainZero(ps[1..], n - 1);
    }
  }

  lemma DualPrimSound(m: Math, p: Prim, ds: seq<DVal>)
    requires DTyped(ds, TypesOf(Vals(ds))) && AbstractEvalPrim(p, TypesOf(Vals(ds))).Some?
    ensures DualPrim(m, p, ds).Some? && ImplPrim(m, p, Vals(ds)) == Some(Vals(DualPrim(m, p, ds).value))
    ensures DTyped(DualPrim(m, p, ds).value, AbstractEvalPrim(p, TypesOf(Vals(ds))).value)
    ensures Still(ds) ==> Still(DualPrim(m, p, ds).value)
  {
    hide Chain, Partials;
    BindSound(m, PrimEqn(p, [], []), Vals(ds));
    var zs := ImplPrim(m, p, Vals(ds)).value;
    var outs := DualPrim(m, p, ds).value;
    assert Vals(outs) == [zs[0]];
    if Still(ds) {
      assert Reals(Derivs(ds)) == seq(|ds|, i => 0.0);
      ChainZero(Partials(m, p, Reals(Vals(ds))), |ds|);
    }
  }

  lemma {:induction false} DualBindSound(m: Math, e: Eqn, ds: seq<DVal>)
    requires DTyped(ds, TypesOf(Vals(ds))) && AbstractEval(e, TypesOf(Vals(ds))).Some?
    ensures DualBind(m, e, ds).Some? && Bind(m, e, Vals(ds)) == Some(Vals(DualBind(m, e, ds).value))
    ensures DTyped(DualBind(m, e, ds).value, AbstractEval(e, TypesOf(Vals(ds))).value)
    ensures Still(ds) ==> Still(DualBind(m, e, ds).value)
    decreases e, 0
  {
    hide Typecheck, Eval, EvalDual, DualPrim, ImplPrim;
    match e
    case PrimEqn(p, _, _) =>
      DualPrimSound(m, p, ds);
    case CallEqn(body, _, _) =>
      DualSound(m, body, ds);
    case CondEqn(onTrue, onFalse, _, _) =>
      assert Vals(ds)[1..] == Vals(ds[1..]) && Derivs(ds)[1..] == Derivs(ds[1..]);
      assert TypesOf(Vals(ds))[1..] == TypesOf(Vals(ds[1..]));
      assert TypesOf(Derivs(ds))[1..] == TypesOf(Derivs(ds[1..]));
      DualSound(m, onTrue, ds[1..]);
      DualSound(m, onFalse, ds[1..]);
  }

  lemma {:induction false} DualEqnsSound(m: Math, eqns: seq<Eqn>, env: Env, denv: DEnv, still: bool)
    requires WellTyped(env) && TypecheckEqns(env.Keys, eqns).Some? && InStep(env, denv, still)
    ensures EvalEqns(m, eqns, env).Some? && EvalDualEqns(m, eqns, denv).Some?
    ensures InStep(EvalEqns(m, eqns, env).value, EvalDualEqns(m, eqns, denv).value, still)
    decreases eqns, 0
  {
    hide Bind, DualBind, AbstractEval, Write, WriteDs;
    if eqns != [] {
      var e := eqns[0];
      var env1 := StepSound(m, e, env);
      GetDsInStep(env, denv, still, e.inputs);
      var ds := GetDs(denv, e.inputs);
      DualBindSound(m, e, ds);
      var outs := DualBind(m, e, ds).value;
      WriteInStep(env, denv, still, e.outs, Vals(outs), outs);
      DualEqnsSound(m, eqns[1..], env1, WriteDs(denv, e.outs, outs).value, still);
    }
  }

  /** Dual numbers refine values: the primal parts are the ordinary evaluation, and zero
      derivatives stay zero. */
  lemma {:induction false} DualSound(m: Math, j: Jaxpr, ds: seq<DVal>)
    requires Typecheck(j).Some? && DTyped(ds, Typecheck(j).value.inTypes)
    ensures EvalDual(m, j, ds).Some? && Eval(m, j, Vals(ds)) == Some(Vals(EvalDual(m, j, ds).value))
    ensures DTyped(EvalDual(m, j, ds).value, Typecheck(j).value.outTypes)
    ensures Still(ds) ==> Still(EvalDual(m, j, ds).value)
    decreases j, 1
  {
    hide TypecheckEqns, EvalEqns, EvalDualEqns, Write, WriteDs, BindVars;
    var still := Still(ds);
    var bound := TypecheckStart(j);
    var env0 := StartSound(j, Vals(ds));
    assert InStep(map[], map[], still);
    WriteInStep(map[], map[], still, j.binders, Vals(ds), ds);
    var denv0 := WriteDs(map[], j.binders, ds).value;
    DualEqnsSound(m, j.eqns, env0, denv0, still);
    FinalKeys(m, j, Vals(ds));
    GetDsInStep(EvalEqns(m, j.eqns, env0).value, EvalDualEqns(m, j.eqns, denv0).value, still, j.outs);
  }

  // ---------- the staged jaxpr follows the dual numbers ----------

  /** In the environment of the staged jaxpr, a tracer stands for a dual number. */
  ghost predicate TrHolds(env: Env, t: Tr, d: DVal) {
    && Bound(env.Keys, Primal(t)) && Bound(env.Keys, Tangent(t))
    && Get(env, Primal(t)) == d.v && Get(env, Tangent(t)) == d.dv
  }

  ghost predicate TrsHold(env: Env, ts: seq<Tr>, ds: seq<DVal>) {
    |ts| == |ds| && forall i :: 0 <= i < |ts| ==> TrHolds(env, ts[i], ds[i])
  }

  ghost predicate EnvsHold(env: Env, trs: TrEnv, denv: DEnv) {
    trs.Keys == denv.Keys && forall v :: v in trs ==> TrHolds(env, trs[v], denv[v])
  }

  lemma OpSat(m: Math, eqns: seq<Eqn>, p: Prim, inputs: seq<Atom>, out: Var, env: Env)
    requires SatAll(m, eqns, env) && Op(p, inputs, out) in eqns
    ensures AllBound(env.Keys, inputs) && out in env
    ensures ImplPrim(m, p, Gets(env, inputs)) == Some([env[out]])
  {
    var e := Op(p, inputs, out);
    assert Sat(m, e, env);
    GetsAtomsAt(env, [out], 0);
    assert Gets(env, Atoms(e.outs)) == [env[out]];
  }

  lemma Gets1(env: Env, x: Atom)
    requires Bound(env.Keys, x)
    ensures Gets(env, [x]) == [Get(env, x)]
  {
  }

  lemma Gets2(env: Env, x: Atom, y: Atom)
    requires Bound(env.Keys, x) && Bound(env.Keys, y)
    ensures Gets(env, [x, y]) == [Get(env, x), Get(env, y)]
  {
  }

  lemma Chain1(p: real, x: real)
    ensures Chain([p], [x]) == p * x
  {
  }

  lemma Chain2(p: real, q: real, x: real, y: real)
    ensures Chain([p, q], [x, y]) == p * x + q * y
  {
    assert [p, q][1..] == [q] && [x, y][1..] == [y];
    Chain1(q, y);
  }

  lemma JvpUnarySim(m: Math, p: Prim, ins: seq<Tr>, next: nat, env: Env, ds: seq<DVal>)
    requires |ins| == |ds| == 1 && TrHolds(env, ins[0], ds[0]) && ds[0].v.R? && ds[0].dv.R?
    requires p.Neg? || p.Sin? || p.Cos?
    requires SatAll(m, JvpPrim(p, ins, next).value.eqns, env)
    ensures DualPrim(m, p, ds).Some?
    ensures TrsHold(env, JvpPrim(p, ins, next).value.outs, DualPrim(m, p, ds).value)
  {
    hide Chain, SatAll;
    var x, xd := Primal(ins[0]), Tangent(ins[0]);
    var z, a, b, c := Var(next, Float), Var(next + 1, Float), Var(next + 2, Float), Var(next + 3, Float);
    var eqns := JvpPrim(p, ins, next).value.eqns;
    Gets1(env, x);
    Gets1(env, xd);
    assert Vals(ds) == [ds[0].v] && Reals(Vals(ds)) == [ds[0].v.r] && Reals(Derivs(ds)) == [ds[0].dv.r];
    Chain1(Partials(m, p, [ds[0].v.r])[0], ds[0].dv.r);
    OpSat(m, eqns, p, [x], z, env);
    match p
    case Neg =>
      OpSat(m, eqns, Neg, [xd], a, env);
    case Sin =>
      OpSat(m, eqns, Cos, [x], a, env);
      Gets2(env, V(a), xd);
      OpSat(m, eqns, Mul, [V(a), xd], b, env);
    case Cos =>
      OpSat(m, eqns, Sin, [x], a, env);
      Gets1(env, V(a));
      OpSat(m, eqns, Neg, [V(a)], b, env);
      Gets2(env, V(b), xd);
      OpSat(m, eqns, Mul, [V(b), xd], c, env);
  }

  lemma JvpMulSim(m: Math, ins: seq<Tr>, next: nat, env: Env, ds: seq<DVal>)
    requires |ins| == |ds| == 2 && TrHolds(env, ins[0], ds[0]) && TrHolds(env, ins[1], ds[1])
    requires ds[0].v.R? && ds[0].dv.R? && ds[1].v.R? && ds[1].dv.R?
    requires SatAll(m, JvpPrim(Mul, ins, next).value.eqns, env)
    ensures DualPrim(m, Mul, ds).Some?
    ensures TrsHold(env, JvpPrim(Mul, ins, next).value.outs, DualPrim(m, Mul, ds).value)
  {
    hide Chain, SatAll, RealProduct;
    var x, y, xd, yd := Primal(ins[0]), Primal(ins[1]), Tangent(ins[0]), Tangent(ins[1]);
    var z, a, b, c := Var(next, Float), Var(next + 1, Float), Var(next + 2, Float), Var(next + 3, Float);
    var eqns := JvpPrim(Mul, ins, next).value.eqns;
    MulSat(m, eqns, x, y, z, env);
    MulSat(m, eqns, xd, y, a, env);
    MulSat(m, eqns, x, yd, b, env);
    Gets2(env, V(a), V(b));
    OpSat(m, eqns, Add, [V(a), V(b)], c, env);
    DualMul(m, ds);
  }

  lemma MulSat(m: Math, eqns: seq<Eqn>, x: Atom, y: Atom, out: Var, env: Env)
    requires SatAll(m, eqns, env) && Op(Mul, [x, y], out) in eqns
    requires Bound(env.Keys, x) && Bound(env.Keys, y) && Get(env, x).R? && Get(env, y).R?
    ensures out in env && env[out] == R(RealProduct(Get(env, x).r, Get(env, y).r))
  {
    Gets2(env, x, y);
    OpSat(m, eqns, Mul, [x, y], out, env);
  }

  lemma DualMul(m: Math, ds: seq<DVal>)
    requires |ds| == 2 && ds[0].v.R? && ds[0].dv.R? && ds[1].v.R? && ds[1].dv.R?
    ensures DualPrim(m, Mul, ds).Some? && |DualPrim(m, Mul, ds).value| == 1
    ensures var d := DualPrim(m, Mul, ds).value[0];
            && d.v == R(RealProduct(ds[0].v.r, ds[1].v.r))
            && d.dv == R(RealProduct(ds[0].dv.r, ds[1].v.r) + RealProduct(ds[0].v.r, ds[1].dv.r))
  {
    assert Vals(ds) == [ds[0].v, ds[1].v];
    assert Reals(Vals(ds)) == [ds[0].v.r, ds[1].v.r] && Reals(Derivs(ds)) == [ds[0].dv.r, ds[1].dv.r];
    ProductRule(ds[0].v.r, ds[0].dv.r, ds[1].v.r, ds[1].dv.r);
  }

  lemma ProductRule(x: real, dx: real, y: real, dy: real)
    ensures Chain([y, x], [dx, dy]) == dx * y + x * dy
  {
    Chain2(y, x, dx, dy);
  }

  lemma JvpBinarySim(m: Math, p: Prim, ins: seq<Tr>, next: nat, env: Env, ds: seq<DVal>)
    requires |ins| == |ds| == 2 && TrHolds(env, ins[0], ds[0]) && TrHolds(env, ins[1], ds[1])
    requires p.Add? || p.Mul? ==> ds[0].v.R? && ds[0].dv.R? && ds[1].v.R? && ds[1].dv.R?
    requires p.Add? || p.Mul? || p.Greater? || p.Less?
    requires SatAll(m, JvpPrim(p, ins, next).value.eqns, env)
    ensures DualPrim(m, p, ds).Some?
    ensures TrsHold(env, JvpPrim(p, ins, next).value.outs, DualPrim(m, p, ds).value)
  {
    hide Chain, SatAll;
    var x, y, xd, yd := Primal(ins[0]), Primal(ins[1]), Tangent(ins[0]), Tangent(ins[1]);
    var z, a := Var(next, Float), Var(next + 1, Float);
    var eqns := JvpPrim(p, ins, next).value.eqns;
    match p
    case Add =>
      Gets2(env, x, y);
      assert Vals(ds) == [ds[0].v, ds[1].v];
      assert Reals(Derivs(ds)) == [ds[0].dv.r, ds[1].dv.r];
      Chain2(1.0, 1.0, ds[0].dv.r, ds[1].dv.r);
      OpSat(m, eqns, Add, [x, y], z, env);
      Gets2(env, xd, yd);
      OpSat(m, eqns, Add, [xd, yd], a, env);
    case Mul =>
      JvpMulSim(m, ins, next, env, ds);
    case Greater | Less =>
      Gets2(env, x, y);
      assert Vals(ds) == [ds[0].v, ds[1].v];
      OpSat(m, eqns, p, [x, y], Var(next, Bool), env);
  }

  lemma PartsHold(env: Env, ins: seq<Tr>, ds: seq<DVal>)
    requires TrsHold(env, ins, ds)
    ensures AllBound(env.Keys, Primals(ins)) && AllBound(env.Keys, Primals(ins) + Tangents(ins))
    ensures Gets(env, Primals(ins)) == Vals(ds)
    ensures Gets(env, Primals(ins) + Tangents(ins)) == Vals(ds) + Derivs(ds)
  {
    forall i | 0 <= i < |ins|
      ensures Bound(env.Keys, Primals(ins)[i]) && Bound(env.Keys, Tangents(ins)[i])
      ensures Get(env, Primals(ins)[i]) == ds[i].v && Get(env, Tangents(ins)[i]) == ds[i].dv
    {
      assert TrHolds(env, ins[i], ds[i]);
    }
    forall x | x in Primals(ins) + Tangents(ins) ensures Bound(env.Keys, x) {
      assert x in Primals(ins) || x in Tangents(ins);
    }
    GetsAppend(env, Primals(ins), Tangents(ins));
  }

  lemma DualsHold(env: Env, outs: seq<Var>, ds: seq<DVal>)
    requires AllBound(env.Keys, Atoms(outs)) && Gets(env, Atoms(outs)) == Vals(ds) + Derivs(ds)
    ensures |outs| == 2 * |ds|
    ensures TrsHold(env, Duals(outs[..|ds|], outs[|ds|..]), ds)
  {
    var k := |ds|;
    assert |outs| == |Gets(env, Atoms(outs))| == 2 * k;
    forall i | 0 <= i < k ensures TrHolds(env, Duals(outs[..k], outs[k..])[i], ds[i]) {
      GetsAtomsAt(env, outs, i);
      GetsAtomsAt(env, outs, k + i);
    }
  }

  lemma JvpPrimSim(m: Math, p: Prim, ins: seq<Tr>, next: nat, env: Env, ds: seq<DVal>)
    requires DTyped(ds, TypesOf(Vals(ds))) && AbstractEvalPrim(p, TypesOf(Vals(ds))).Some?
    requires JvpPrim(p, ins, next).Some? && TrsHold(env, ins, ds) && SatAll(m, JvpPrim(p, ins, next).value.eqns, env)
    ensures DualPrim(m, p, ds).Some?
    ensures TrsHold(env, JvpPrim(p, ins, next).value.outs, DualPrim(m, p, ds).value)
  {
    hide JvpPrim, DualPrim, SatAll;
    assert |ds| == 1 || |ds| == 2;
    assert TrHolds(env, ins[0], ds[0]);
    assert TypesOf(Vals(ds))[0] == TypeOf(ds[0].v) && TypesOf(Derivs(ds))[0] == TypeOf(ds[0].dv);
    if |ins| == 1 {
      JvpUnarySim(m, p, ins, next, env, ds);
    } else {
      assert TrHolds(env, ins[1], ds[1]);
      assert TypesOf(Vals(ds))[1] == TypeOf(ds[1].v) && TypesOf(Derivs(ds))[1] == TypeOf(ds[1].dv);
      JvpBinarySim(m, p, ins, next, env, ds);
    }
  }

  lemma {:induction false} JvpRuleSim(m: Math, names: Naming, e: Eqn, ins: seq<Tr>, next: nat, env: Env, ds: seq<DVal>)
    requires DTyped(ds, TypesOf(Vals(ds))) && AbstractEval(e, TypesOf(Vals(ds))).Some?
    requires JvpRule(names, e, ins, next).Some? && TrsHold(env, ins, ds)
    requires SatAll(m, JvpRule(names, e, ins, next).value.eqns, env)
    ensures DualBind(m, e, ds).Some?
    ensures TrsHold(env, JvpRule(names, e, ins, next).value.outs, DualBind(m, e, ds).value)
    decreases e, 0
  {
    hide Typecheck, Eval, EvalDual, JvpJaxpr, JvpPrim, DualPrim;
    var r := JvpRule(names, e, ins, next).value;
    match e
    case PrimEqn(p, _, _) =>
      JvpPrimSim(m, p, ins, next, env, ds);
    case CallEqn(body, _, _) =>
      JvpCorrect(m, names, body, ds);
      PartsHold(env, ins, ds);
      assert Sat(m, r.eqns[0], env);
      DualsHold(env, r.eqns[0].outs, EvalDual(m, body, ds).value);
    case CondEqn(onTrue, onFalse, _, _) =>
      TailTyped(ds);
      JvpCorrect(m, names, onTrue, ds[1..]);
      JvpCorrect(m, names, onFalse, ds[1..]);
      assert Sat(m, r.eqns[0], env);
      CondSim(m, r.eqns[0], ins, ds, DualBind(m, e, ds).value, env);
  }

  lemma TailTyped(ds: seq<DVal>)
    requires |ds| > 0 && DTyped(ds, TypesOf(Vals(ds)))
    ensures Vals(ds)[1..] == Vals(ds[1..]) && Derivs(ds)[1..] == Derivs(ds[1..])
    ensures TypesOf(Vals(ds))[1..] == TypesOf(Vals(ds[1..])) == TypesOf(Derivs(ds[1..]))
  {
  }

  lemma CondSim(m: Math, eqn: Eqn, ins: seq<Tr>, ds: seq<DVal>, outs: seq<DVal>, env: Env)
    requires |ins| > 0 && TrsHold(env, ins, ds) && eqn.CondEqn? && Sat(m, eqn, env)
    requires eqn.inputs == [Primal(ins[0])] + (Primals(ins[1..]) + Tangents(ins[1..]))
    requires Eval(m, if Truthy(ds[0].v) then eqn.onTrue else eqn.onFalse, Vals(ds[1..]) + Derivs(ds[1..]))
             == Some(Vals(outs) + Derivs(outs))
    ensures |eqn.outs| == 2 * |outs|
    ensures TrsHold(env, Duals(eqn.outs[..|outs|], eqn.outs[|outs|..]), outs)
  {
    hide Eval;
    assert TrHolds(env, ins[0], ds[0]);
    PartsHold(env, ins[1..], ds[1..]);
    PredicateFirst(env, Primal(ins[0]), Primals(ins[1..]) + Tangents(ins[1..]));
    DualsHold(env, eqn.outs, outs);
  }

  lemma {:induction false} JvpEqnSim(m: Math, names: Naming, e: Eqn, ins: seq<Tr>, next: nat, env: Env, ds: seq<DVal>)
    requires DTyped(ds, TypesOf(Vals(ds))) && AbstractEval(e, TypesOf(Vals(ds))).Some?
    requires JvpEqn(names, e, ins, next).Some? && TrsHold(env, ins, ds)
    requires forall i :: 0 <= i < |ins| && ins[i].Plain? ==> AtomTy(ins[i].x) == TypeOf(ds[i].v)
    requires WellTyped(env) && SatAll(m, JvpEqn(names, e, ins, next).value.eqns, env)
    ensures DualBind(m, e, ds).Some?
    ensures TrsHold(env, JvpEqn(names, e, ins, next).value.outs, DualBind(m, e, ds).value)
    decreases e, 1
  {
    hide Typecheck, AbstractEval, JvpRule, Bind, DualBind;
    if forall t :: t in ins ==> t.Plain? {
      var r := JvpEqn(names, e, ins, next).value;
      var eqn := r.eqns[0];
      forall i | 0 <= i < |ds| ensures ds[i].dv == Zero(TypeOf(ds[i].v)) {
        assert TrHolds(env, ins[i], ds[i]) && ins[i] in ins;
      }
      DualBindSound(m, e, ds);
      PartsHold(env, ins, ds);
      assert Sat(m, eqn, env);
      var outs := DualBind(m, e, ds).value;
      SameBind(m, e, eqn, Vals(ds));
      assert Gets(env, Atoms(eqn.outs)) == Vals(outs);
      forall i | 0 <= i < |r.outs| ensures TrHolds(env, r.outs[i], outs[i]) {
        GetsAtomsAt(env, eqn.outs, i);
      }
    } else {
      JvpRuleSim(m, names, e, ins, next, env, ds);
    }
  }

  lemma SameBind(m: Math, e: Eqn, e': Eqn, vals: seq<Val>)
    requires match e
             case PrimEqn(p, _, _) => e'.PrimEqn? && e'.prim == p
             case CallEqn(body, _, _) => e'.CallEqn? && e'.body == body
             case CondEqn(t, f, _, _) => e'.CondEqn? && e'.onTrue == t && e'.onFalse == f
    ensures Bind(m, e, vals) == Bind(m, e', vals)
  {
  }

  lemma EnvsStep(env: Env, trs: TrEnv, denv: DEnv, vs: seq<Var>, ts: seq<Tr>, ds: seq<DVal>)
    requires EnvsHold(env, trs, denv) && TrsHold(env, ts, ds) && |vs| == |ts|
    requires Distinct(vs) && forall v :: v in vs ==> v !in trs
    ensures WriteTrs(trs, vs, ts).Some? && WriteDs(denv, vs, ds).Some?
    ensures EnvsHold(env, WriteTrs(trs, vs, ts).value, WriteDs(denv, vs, ds).value)
  {
    WriteTrsSpec(trs, vs, ts);
    WriteDsSpec(denv, vs, ds);
    var trs1, denv1 := WriteTrs(trs, vs, ts).value, WriteDs(denv, vs, ds).value;
    forall v | v in trs1 ensures TrHolds(env, trs1[v], denv1[v]) {
      if v !in trs {
        var i :| 0 <= i < |vs| && vs[i] == v;
        assert TrHolds(env, ts[i], ds[i]);
      }
    }
  }

  lemma ReadsHold(env: Env, trs: TrEnv, denv: DEnv, xs: seq<Atom>)
    requires EnvsHold(env, trs, denv) && AllBound(trs.Keys, xs)
    ensures TrsHold(env, ReadTrs(trs, xs), GetDs(denv, xs))
  {
    forall i | 0 <= i < |xs| ensures TrHolds(env, ReadTr(trs, xs[i]), GetD(denv, xs[i])) {
      assert Bound(trs.Keys, xs[i]);
    }
  }

  /** The derivatives in a dual environment have the types of their variables, and so do the
      values, which the type checker has seen. */
  ghost predicate DEnvTyped(denv: DEnv) {
    forall v :: v in denv ==> TypeOf(denv[v].v) == v.aval == TypeOf(denv[v].dv)
  }

  lemma GetDsTyped(denv: DEnv, xs: seq<Atom>)
    requires DEnvTyped(denv) && AllBound(denv.Keys, xs)
    ensures DTyped(GetDs(denv, xs), AtomTys(xs))
  {
    var env := map v | v in denv :: denv[v].v;
    assert env.Keys == denv.Keys;
    GetDsInStep(env, denv, false, xs);
  }

  lemma WriteDsTyped(denv: DEnv, vs: seq<Var>, ds: seq<DVal>)
    requires DEnvTyped(denv) && |vs| == |ds| && Distinct(vs) && forall v :: v in vs ==> v !in denv
    requires DTyped(ds, Avals(vs))
    ensures WriteDs(denv, vs, ds).Some? && DEnvTyped(WriteDs(denv, vs, ds).value)
  {
    WriteDsSpec(denv, vs, ds);
    var r := WriteDs(denv, vs, ds).value;
    forall v | v in r ensures TypeOf(r[v].v) == v.aval == TypeOf(r[v].dv) {
      if v !in denv {
        var i :| 0 <= i < |vs| && vs[i] == v;
        assert TypesOf(Vals(ds))[i] == Avals(vs)[i] && TypesOf(Derivs(ds))[i] == Avals(vs)[i];
      }
    }
  }

  lemma PlainTypes(trs: TrEnv, denv: DEnv, env: Env, xs: seq<Atom>)
    requires EnvsHold(env, trs, denv) && AllBound(trs.Keys, xs) && WellTyped(env)
    ensures forall i :: 0 <= i < |xs| && ReadTrs(trs, xs)[i].Plain? ==>
              AtomTy(ReadTrs(trs, xs)[i].x) == TypeOf(GetDs(denv, xs)[i].v)
  {
    ReadsHold(env, trs, denv, xs);
    forall i | 0 <= i < |xs| && ReadTrs(trs, xs)[i].Plain?
      ensures AtomTy(ReadTrs(trs, xs)[i].x) == TypeOf(GetDs(denv, xs)[i].v)
    {
      assert TrHolds(env, ReadTrs(trs, xs)[i], GetDs(denv, xs)[i]);
    }
  }

  lemma {:induction false} JvpEqnsSim(m: Math, names: Naming, eqns: seq<Eqn>, trs: TrEnv, next: nat, env: Env,
                                      denv: DEnv)
    requires TypecheckEqns(trs.Keys, eqns).Some? && JvpEqns(names, eqns, trs, next).Some?
    requires EnvsHold(env, trs, denv) && DEnvTyped(denv) && WellTyped(env)
    requires SatAll(m, JvpEqns(names, eqns, trs, next).value.eqns, env)
    ensures EvalDualEqns(m, eqns, denv).Some?
    ensures EnvsHold(env, JvpEqns(names, eqns, trs, next).value.env, EvalDualEqns(m, eqns, denv).value)
    decreases eqns, 0
  {
    hide AbstractEval, JvpEqn, DualBind, WriteTrs, WriteDs;
    if eqns != [] {
      var e := eqns[0];
      var ins, ds := ReadTrs(trs, e.inputs), GetDs(denv, e.inputs);
      ReadsHold(env, trs, denv, e.inputs);
      PlainTypes(trs, denv, env, e.inputs);
      GetDsTyped(denv, e.inputs);
      var r := JvpEqn(names, e, ins, next).value;
      var trs1 := WriteTrs(trs, e.outs, r.outs).value;
      var rest := JvpEqns(names, eqns[1..], trs1, r.next).value;
      assert forall q :: q in r.eqns ==> q in r.eqns + rest.eqns;
      assert forall q :: q in rest.eqns ==> q in r.eqns + rest.eqns;
      assert SatAll(m, r.eqns, env) && SatAll(m, rest.eqns, env);
      JvpEqnSim(m, names, e, ins, next, env, ds);
      DualBindSound(m, e, ds);
      var outs := DualBind(m, e, ds).value;
      assert |outs| == |TypesOf(Vals(outs))| == |e.outs|;
      EnvsStep(env, trs, denv, e.outs, r.outs, outs);
      WriteDsTyped(denv, e.outs, outs);
      TrKeys(trs, e.outs, r.outs);
      JvpEqnsSim(m, names, eqns[1..], trs1, r.next, env, WriteDs(denv, e.outs, outs).value);
    }
  }

  lemma TrKeys(trs: TrEnv, vs: seq<Var>, ts: seq<Tr>)
    requires |vs| == |ts| && Distinct(vs) && forall v :: v in vs ==> v !in trs
    ensures WriteTrs(trs, vs, ts).Some? && WriteTrs(trs, vs, ts).value.Keys == trs.Keys + ToSet(vs)
  {
    WriteTrsSpec(trs, vs, ts);
  }

  /** The main theorem of forward mode: for every well-typed jaxpr, nested calls and conditionals
      included, the jaxpr that jvp_jaxpr stages maps primals and tangents to the values and the
      derivatives of evaluation on dual numbers. */
  lemma {:induction false} JvpCorrect(m: Math, names: Naming, j: Jaxpr, ds: seq<DVal>)
    requires Typecheck(j).Some? && DTyped(ds, Typecheck(j).value.inTypes)
    requires JvpJaxpr(names, j).Some?
    ensures EvalDual(m, j, ds).Some?
    ensures Eval(m, JvpJaxpr(names, j).value.jaxpr, Vals(ds) + Derivs(ds))
         == Some(Vals(EvalDual(m, j, ds).value) + Derivs(EvalDual(m, j, ds).value))
    decreases j, 2
  {
    hide TypecheckEqns, JvpEqns, EvalDualEqns, WriteTrs, WriteDs, Eval, FinalEnv, BindVars;
    var n := |j.binders|;
    var next := names.first(j);
    var jj := JvpJaxpr(names, j).value.jaxpr;
    JvpTotal(names, j);
    TypecheckTypes(j);
    TypecheckTypes(jj);
    TypesAppend(Vals(ds), Derivs(ds));
    EvalSound(m, jj, Vals(ds) + Derivs(ds));
    var env := FinalEnv(m, jj, Vals(ds) + Derivs(ds)).value;
    var ps, ts := FreshVars(Avals(j.binders), next), FreshVars(Avals(j.binders), next + n);
    assert |ds| == |TypesOf(Vals(ds))| == n;
    DualsHold(env, ps + ts, ds);
    assert (ps + ts)[..n] == ps && (ps + ts)[n..] == ts;
    var bound := TypecheckStart(j);
    BindersBound(j, bound);
    EnvsStep(env, map[], map[], j.binders, Duals(ps, ts), ds);
    WriteDsTyped(map[], j.binders, ds);
    TrKeys(map[], j.binders, Duals(ps, ts));
    var trs := WriteTrs(map[], j.binders, Duals(ps, ts)).value;
    var denv := WriteDs(map[], j.binders, ds).value;
    assert trs.Keys == bound;
    JvpEqnsSim(m, names, j.eqns, trs, next + 2 * n, env, denv);
    var r := JvpEqns(names, j.eqns, trs, next + 2 * n).value;
    ReadsHold(env, r.env, EvalDualEqns(m, j.eqns, denv).value, j.outs);
    PartsHold(env, ReadTrs(r.env, j.outs), GetDs(EvalDualEqns(m, j.eqns, denv).value, j.outs));
  }
}
