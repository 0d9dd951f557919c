/** jvp_jaxpr always succeeds on a well-typed jaxpr, and doubles its type. */
module JvpTyping {
  import opened Wrappers
  import opened Lists
  import opened Jaxprs
  import opened PartialEvaluation
  import opened PartialEvalProof
  import opened Jvp

  ghost predicate Below(s: set<Var>, n: nat) {
    forall v :: v in s ==> v.id < n
  }

  /** A tracer whose two parts are in scope and of type `ty`. */
  ghost predicate TrOk(s: set<Var>, t: Tr, ty: Ty) {
    && Bound(s, Primal(t)) && Bound(s, Tangent(t))
    && AtomTy(Primal(t)) == ty && AtomTy(Tangent(t)) == ty
  }

  ghost predicate TrsOk(s: set<Var>, ts: seq<Tr>, tys: seq<Ty>) {
    && |ts| == |tys|
    && forall i :: 0 <= i < |ts| ==> TrOk(s, ts[i], tys[i])
  }

  ghost predicate TrEnvOk(s: set<Var>, env: TrEnv) {
    forall v :: v in env ==> TrOk(s, env[v], v.aval)
  }

  lemma BindFresh(s: set<Var>, tys: seq<Ty>, n: nat)
    requires Below(s, n)
    ensures BindVars(s, FreshVars(tys, n)) == Some(s + ToSet(FreshVars(tys, n)))
    ensures Below(s + ToSet(FreshVars(tys, n)), n + |tys|)
    ensures Avals(FreshVars(tys, n)) == tys
  {
  }

  lemma {:induction false} TypecheckAppend(s: set<Var>, xs: seq<Eqn>, ys: seq<Eqn>)
    ensures TypecheckEqns(s, xs + ys) ==
            (var r := TypecheckEqns(s, xs); if r.None? then None else TypecheckEqns(r.value, ys))
    decreases xs
  {
    if xs == [] {
      assert xs + ys == ys;
    } else {
      assert (xs + ys)[1..] == xs[1..] + ys;
      var r := TypecheckEqn(s, xs[0]);
      if r.Some? {
        TypecheckAppend(r.value, xs[1..], ys);
      }
    }
  }

  lemma {:induction false} TypecheckGrows(s: set<Var>, eqns: seq<Eqn>)
    requires TypecheckEqns(s, eqns).Some?
    ensures s <= TypecheckEqns(s, eqns).value
    decreases eqns
  {
    if eqns != [] {
      TypecheckGrows(TypecheckEqn(s, eqns[0]).value, eqns[1..]);
    }
  }

  lemma OpStep(s: set<Var>, p: Prim, inputs: seq<Atom>, out: Var, rest: seq<Eqn>)
    requires AllBound(s, inputs) && AbstractEvalPrim(p, AtomTys(inputs)) == Some([out.aval]) && out !in s
    ensures TypecheckEqns(s, [Op(p, inputs, out)] + rest) == TypecheckEqns(s + {out}, rest)
  {
    var e := Op(p, inputs, out);
    assert Avals([out]) == [out.aval];
    assert Distinct([out]);
    assert BindVars(s, [out]) == Some(s + ToSet([out]));
    assert ToSet([out]) == {out};
    assert e.inputs == inputs && e.outs == [out];
    assert AbstractEval(e, AtomTys(inputs)) == Some([out.aval]);
    assert TypecheckEqn(s, e) == Some(s + {out});
    assert ([e] + rest)[0] == e && ([e] + rest)[1..] == rest;
  }

  lemma OpSteps2(s: set<Var>, p: Prim, xs: seq<Atom>, a: Var, q: Prim, ys: seq<Atom>, b: Var)
    requires AllBound(s, xs) && AbstractEvalPrim(p, AtomTys(xs)) == Some([a.aval]) && a !in s
    requires AllBound(s + {a}, ys) && AbstractEvalPrim(q, AtomTys(ys)) == Some([b.aval]) && b !in s && b != a
    ensures TypecheckEqns(s, [Op(p, xs, a), Op(q, ys, b)]) == Some(s + {a, b})
  {
    hide TypecheckEqn;
    assert [Op(p, xs, a), Op(q, ys, b)] == [Op(p, xs, a)] + [Op(q, ys, b)];
    assert [Op(q, ys, b)] == [Op(q, ys, b)] + [];
    OpStep(s, p, xs, a, [Op(q, ys, b)]);
    OpStep(s + {a}, q, ys, b, []);
    assert s + {a} + {b} == s + {a, b};
  }

  lemma OpSteps1(s: set<Var>, p: Prim, xs: seq<Atom>, a: Var)
    requires AllBound(s, xs) && AbstractEvalPrim(p, AtomTys(xs)) == Some([a.aval]) && a !in s
    ensures TypecheckEqns(s, [Op(p, xs, a)]) == Some(s + {a})
  {
    hide TypecheckEqn;
    assert [Op(p, xs, a)] == [Op(p, xs, a)] + [];
    OpStep(s, p, xs, a, []);
  }

  lemma Tys1(x: Atom)
    ensures AtomTys([x]) == [AtomTy(x)]
  {
  }

  lemma Tys2(x: Atom, y: Atom)
    ensures AtomTys([x, y]) == [AtomTy(x), AtomTy(y)]
  {
  }

  ghost predicate EmitsOk(s: set<Var>, r: Emitted, tys: seq<Ty>) {
    var s' := TypecheckEqns(s, r.eqns);
    s'.Some? && s <= s'.value && Below(s'.value, r.next) && TrsOk(s'.value, r.outs, tys)
  }

  lemma JvpUnary(p: Prim, ins: seq<Tr>, s: set<Var>, next: nat)
    requires |ins| == 1 && TrOk(s, ins[0], Float) && Below(s, next) && (p.Neg? || p.Sin? || p.Cos?)
    ensures JvpPrim(p, ins, next).Some? && EmitsOk(s, JvpPrim(p, ins, next).value, [Float])
  {
    hide TypecheckEqns;
    var x, xd := Primal(ins[0]), Tangent(ins[0]);
    var z, a, b, c := Var(next, Float), Var(next + 1, Float), Var(next + 2, Float), Var(next + 3, Float);
    var r := JvpPrim(p, ins, next).value;
    Tys1(x);
    Tys1(xd);
    Tys1(V(a));
    match p
    case Neg =>
      OpSteps2(s, Neg, [x], z, Neg, [xd], a);
    case Sin =>
      OpSteps2(s, Sin, [x], z, Cos, [x], a);
      Tys2(V(a), xd);
      OpSteps1(s + {z, a}, Mul, [V(a), xd], b);
      TypecheckAppend(s, [Op(Sin, [x], z), Op(Cos, [x], a)], [Op(Mul, [V(a), xd], b)]);
      assert r.eqns == [Op(Sin, [x], z), Op(Cos, [x], a)] + [Op(Mul, [V(a), xd], b)];
    case Cos =>
      OpSteps2(s, Cos, [x], z, Sin, [x], a);
      Tys2(V(b), xd);
      OpSteps2(s + {z, a}, Neg, [V(a)], b, Mul, [V(b), xd], c);
      TypecheckAppend(s, [Op(Cos, [x], z), Op(Sin, [x], a)], [Op(Neg, [V(a)], b), Op(Mul, [V(b), xd], c)]);
      assert r.eqns == [Op(Cos, [x], z), Op(Sin, [x], a)] + [Op(Neg, [V(a)], b), Op(Mul, [V(b), xd], c)];
  }

  lemma JvpMul(ins: seq<Tr>, s: set<Var>, next: nat)
    requires |ins| == 2 && TrOk(s, ins[0], Float) && TrOk(s, ins[1], Float) && Below(s, next)
    ensures EmitsOk(s, JvpPrim(Mul, ins, next).value, [Float])
  {
    hide TypecheckEqns;
    var x, y, xd, yd := Primal(ins[0]), Primal(ins[1]), Tangent(ins[0]), Tangent(ins[1]);
    var z, a, b, c := Var(next, Float), Var(next + 1, Float), Var(next + 2, Float), Var(next + 3, Float);
    var r := JvpPrim(Mul, ins, next).value;
    Tys2(x, y);
    Tys2(xd, y);
    Tys2(x, yd);
    Tys2(V(a), V(b));
    OpSteps2(s, Mul, [x, y], z, Mul, [xd, y], a);
    OpSteps2(s + {z, a}, Mul, [x, yd], b, Add, [V(a), V(b)], c);
    TypecheckAppend(s, [Op(Mul, [x, y], z), Op(Mul, [xd, y], a)], [Op(Mul, [x, yd], b), Op(Add, [V(a), V(b)], c)]);
    assert r.eqns == [Op(Mul, [x, y], z), Op(Mul, [xd, y], a)] + [Op(Mul, [x, yd], b), Op(Add, [V(a), V(b)], c)];
  }

  lemma JvpBinary(p: Prim, ins: seq<Tr>, tys: seq<Ty>, s: set<Var>, next: nat)
    requires |ins| == 2 && TrsOk(s, ins, tys) && Below(s, next) && AbstractEvalPrim(p, tys).Some?
    ensures JvpPrim(p, ins, next).Some?
    ensures EmitsOk(s, JvpPrim(p, ins, next).value, AbstractEvalPrim(p, tys).value)
  {
    hide TypecheckEqns;
    assert TrOk(s, ins[0], tys[0]) && TrOk(s, ins[1], tys[1]);
    var x, y, xd, yd := Primal(ins[0]), Primal(ins[1]), Tangent(ins[0]), Tangent(ins[1]);
    var z, a := Var(next, Float), Var(next + 1, Float);
    Tys2(x, y);
    match p
    case Add =>
      Tys2(xd, yd);
      OpSteps2(s, Add, [x, y], z, Add, [xd, yd], a);
    case Mul =>
      JvpMul(ins, s, next);
    case Greater | Less =>
      OpSteps1(s, p, [x, y], Var(next, Bool));
  }

  /** A call or conditional recorded with new output variables. */
  lemma HigherOrderStep(s: set<Var>, e: Eqn, tys: seq<Ty>, next: nat)
    requires Below(s, next) && AllBound(s, e.inputs) && AbstractEval(e, AtomTys(e.inputs)) == Some(tys)
    requires e.outs == FreshVars(tys, next)
    ensures TypecheckEqns(s, [e]) == Some(s + ToSet(e.outs)) && Below(s + ToSet(e.outs), next + |tys|)
  {
    hide AbstractEval, BindVars;
    BindFresh(s, tys, next);
    assert TypecheckEqn(s, e) == Some(s + ToSet(e.outs));
    assert [e][1..] == [];
  }

  lemma DualsOk(s: set<Var>, tys: seq<Ty>, outs: seq<Var>, next: nat)
    requires outs == FreshVars(tys + tys, next) && ToSet(outs) <= s
    ensures TrsOk(s, Duals(outs[..|tys|], outs[|tys|..]), tys)
  {
    assert forall v :: v in outs ==> v in ToSet(outs);
    hide ToSet;
    var k, ts := |tys|, Duals(outs[..|tys|], outs[|tys|..]);
    assert |outs| == 2 * k;
    forall i | 0 <= i < k ensures TrOk(s, ts[i], tys[i]) {
      assert outs[i] in outs && outs[k + i] in outs;
    }
  }

  lemma PartsOk(s: set<Var>, ins: seq<Tr>, tys: seq<Ty>)
    requires TrsOk(s, ins, tys)
    ensures AllBound(s, Primals(ins) + Tangents(ins))
    ensures AtomTys(Primals(ins)) == tys && AtomTys(Primals(ins) + Tangents(ins)) == tys + tys
  {
  }

  /** The type of the JVP of a jaxpr. */
  ghost function Doubled(ty: JaxprType): JaxprType {
    JaxprType(ty.inTypes + ty.inTypes, ty.outTypes + ty.outTypes)
  }

  lemma {:induction false} JvpRuleTotal(names: Naming, e: Eqn, ins: seq<Tr>, tys: seq<Ty>, s: set<Var>, next: nat)
    requires TrsOk(s, ins, tys) && Below(s, next) && AbstractEval(e, tys).Some?
    ensures JvpRule(names, e, ins, next).Some?
    ensures EmitsOk(s, JvpRule(names, e, ins, next).value, AbstractEval(e, tys).value)
    decreases e, 0
  {
    hide Typecheck, TypecheckEqns, JvpJaxpr, JvpPrim;
    match e
    case PrimEqn(p, _, _) =>
      if |ins| == 1 {
        assert TrOk(s, ins[0], tys[0]);
        JvpUnary(p, ins, s, next);
      } else {
        JvpBinary(p, ins, tys, s, next);
      }
    case CallEqn(body, _, _) =>
      JvpTotal(names, body);
      PartsOk(s, ins, tys);
      var r := JvpRule(names, e, ins, next).value;
      var outTys := AbstractEval(e, tys).value;
      HigherOrderStep(s, r.eqns[0], outTys + outTys, next);
      DualsOk(s + ToSet(r.eqns[0].outs), outTys, r.eqns[0].outs, next);
    case CondEqn(onTrue, onFalse, _, _) =>
      JvpTotal(names, onTrue);
      JvpTotal(names, onFalse);
      assert TrsOk(s, ins[1..], tys[1..]);
      PartsOk(s, ins[1..], tys[1..]);
      assert TrOk(s, ins[0], tys[0]);
      var r := JvpRule(names, e, ins, next).value;
      var outTys := AbstractEval(e, tys).value;
      CondTypes(s, r.eqns[0], Primal(ins[0]), Primals(ins[1..]) + Tangents(ins[1..]), tys[1..]);
      HigherOrderStep(s, r.eqns[0], outTys + outTys, next);
      DualsOk(s + ToSet(r.eqns[0].outs), outTys, r.eqns[0].outs, next);
  }

  lemma CondTypes(s: set<Var>, e: Eqn, pred: Atom, xs: seq<Atom>, tys: seq<Ty>)
    requires e.CondEqn? && e.inputs == [pred] + xs && Bound(s, pred) && AllBound(s, xs)
    requires AtomTy(pred) == Bool && AtomTys(xs) == tys + tys
    ensures AllBound(s, e.inputs) && AtomTys(e.inputs) == [Bool] + (tys + tys)
    ensures AtomTys(e.inputs)[0] == Bool && AtomTys(e.inputs)[1..] == tys + tys
  {
  }

  lemma {:induction false} JvpEqnTotal(names: Naming, e: Eqn, ins: seq<Tr>, tys: seq<Ty>, s: set<Var>, next: nat)
    requires TrsOk(s, ins, tys) && Below(s, next) && AbstractEval(e, tys).Some?
    ensures JvpEqn(names, e, ins, next).Some?
    ensures EmitsOk(s, JvpEqn(names, e, ins, next).value, AbstractEval(e, tys).value)
    decreases e, 1
  {
    hide Typecheck, TypecheckEqns, JvpRule;
    if forall t :: t in ins ==> t.Plain? {
      PartsOk(s, ins, tys);
      var outTys := AbstractEval(e, tys).value;
      var r := JvpEqn(names, e, ins, next).value;
      forall x | x in Primals(ins) ensures Bound(s, x) {
        assert x in Primals(ins) + Tangents(ins);
      }
      HigherOrderStep(s, r.eqns[0], outTys, next);
      forall i | 0 <= i < |r.outs| ensures TrOk(s + ToSet(r.eqns[0].outs), r.outs[i], outTys[i]) {
        assert r.eqns[0].outs[i] in r.eqns[0].outs;
      }
    } else {
      JvpRuleTotal(names, e, ins, tys, s, next);
    }
  }

  lemma {:induction false} WriteTrsSpec(env: TrEnv, vs: seq<Var>, ts: seq<Tr>)
    requires |vs| == |ts| && Distinct(vs) && forall v :: v in vs ==> v !in env
    ensures WriteTrs(env, vs, ts).Some?
    ensures var r := WriteTrs(env, vs, ts).value;
            && r.Keys == env.Keys + ToSet(vs)
            && (forall v :: v in env ==> r[v] == env[v])
            && (forall i :: 0 <= i < |vs| ==> r[vs[i]] == ts[i])
    decreases vs
  {
    if vs != [] {
      assert vs == [vs[0]] + vs[1..];
      WriteTrsSpec(env[vs[0] := ts[0]], vs[1..], ts[1..]);
      var r := WriteTrs(env[vs[0] := ts[0]], vs[1..], ts[1..]).value;
      forall i | 0 <= i < |vs| ensures r[vs[i]] == ts[i] {
        if i > 0 {
          assert vs[i] == vs[1..][i - 1] && ts[i] == ts[1..][i - 1];
        }
      }
    }
  }

  lemma WriteTrsOk(s: set<Var>, env: TrEnv, vs: seq<Var>, ts: seq<Tr>)
    requires |vs| == |ts| && Distinct(vs) && forall v :: v in vs ==> v !in env
    requires TrEnvOk(s, env) && TrsOk(s, ts, Avals(vs))
    ensures WriteTrs(env, vs, ts).Some? && TrEnvOk(s, WriteTrs(env, vs, ts).value)
    ensures WriteTrs(env, vs, ts).value.Keys == env.Keys + ToSet(vs)
  {
    WriteTrsSpec(env, vs, ts);
    var r := WriteTrs(env, vs, ts).value;
    forall v | v in r ensures TrOk(s, r[v], v.aval) {
      if v !in env {
        var i :| 0 <= i < |vs| && vs[i] == v;
        assert TrOk(s, ts[i], Avals(vs)[i]);
      }
    }
  }

  lemma ReadTrsOk(s: set<Var>, env: TrEnv, xs: seq<Atom>)
    requires TrEnvOk(s, env) && AllBound(env.Keys, xs)
    ensures TrsOk(s, ReadTrs(env, xs), AtomTys(xs))
  {
    forall i | 0 <= i < |xs| ensures TrOk(s, ReadTr(env, xs[i]), AtomTy(xs[i])) {
      assert Bound(env.Keys, xs[i]);
    }
  }

  lemma {:induction false} JvpEqnsTotal(names: Naming, eqns: seq<Eqn>, env: TrEnv, s: set<Var>, next: nat)
    requires TrEnvOk(s, env) && Below(s, next) && TypecheckEqns(env.Keys, eqns).Some?
    ensures JvpEqns(names, eqns, env, next).Some?
    ensures var r := JvpEqns(names, eqns, env, next).value;
            && r.env.Keys == TypecheckEqns(env.Keys, eqns).value
            && TypecheckEqns(s, r.eqns).Some?
            && var s' := TypecheckEqns(s, r.eqns).value;
            && s <= s' && Below(s', r.next) && TrEnvOk(s', r.env)
    decreases eqns, 0
  {
    hide JvpEqn, AbstractEval, WriteTrs;
    if eqns != [] {
      var e := eqns[0];
      var ins := ReadTrs(env, e.inputs);
      ReadTrsOk(s, env, e.inputs);
      JvpEqnTotal(names, e, ins, AtomTys(e.inputs), s, next);
      var r := JvpEqn(names, e, ins, next).value;
      var s1 := TypecheckEqns(s, r.eqns).value;
      assert AbstractEval(e, AtomTys(e.inputs)) == Some(Avals(e.outs));
      TrEnvOkLarger(s, s1, env);
      WriteTrsOk(s1, env, e.outs, r.outs);
      var env1 := WriteTrs(env, e.outs, r.outs).value;
      JvpEqnsTotal(names, eqns[1..], env1, s1, r.next);
      TypecheckAppend(s, r.eqns, JvpEqns(names, eqns[1..], env1, r.next).value.eqns);
    }
  }

  lemma TrEnvOkLarger(s: set<Var>, s': set<Var>, env: TrEnv)
    requires TrEnvOk(s, env) && s <= s'
    ensures TrEnvOk(s', env)
  {
  }

  lemma FreshHalves(tys: seq<Ty>, next: nat)
    ensures var both := FreshVars(tys + tys, next);
            && FreshVars(tys, next) + FreshVars(tys, next + |tys|) == both
            && both[..|tys|] == FreshVars(tys, next) && both[|tys|..] == FreshVars(tys, next + |tys|)
  {
  }

  /** Where the staging of a well-typed jaxpr starts. */
  lemma JvpStarts(j: Jaxpr, next: nat) returns (s: set<Var>, env: TrEnv)
    requires Typecheck(j).Some?
    ensures var ps, ts := FreshVars(Avals(j.binders), next), FreshVars(Avals(j.binders), next + |j.binders|);
            && WriteTrs(map[], j.binders, Duals(ps, ts)) == Some(env) && BindVars({}, ps + ts) == Some(s)
            && Avals(ps + ts) == Avals(j.binders) + Avals(j.binders)
    ensures TrEnvOk(s, env) && Below(s, next + 2 * |j.binders|)
    ensures TypecheckEqns(env.Keys, j.eqns).Some? && AllBound(TypecheckEqns(env.Keys, j.eqns).value, j.outs)
  {
    hide TypecheckEqns, WriteTrs, BindVars, FreshVars, TrsOk, TrEnvOk, Distinct;
    var tys := Avals(j.binders);
    var both := FreshVars(tys + tys, next);
    FreshHalves(tys, next);
    BindFresh({}, tys + tys, next);
    s := ToSet(both);
    assert {} + s == s;
    DualsOk(s, tys, both, next);
    var bound := TypecheckStart(j);
    BindersBound(j, bound);
    var duals := Duals(both[..|tys|], both[|tys|..]);
    WriteTrsOk(s, map[], j.binders, duals);
    env := WriteTrs(map[], j.binders, duals).value;
    assert env.Keys == bound;
  }

  /** What is recorded has the type of the traced outputs, twice. */
  lemma RecordedType(jj: Jaxpr, s: set<Var>, s': set<Var>, env: TrEnv, outs: seq<Atom>)
    requires BindVars({}, jj.binders) == Some(s) && TypecheckEqns(s, jj.eqns) == Some(s') && TrEnvOk(s', env)
    requires AllBound(env.Keys, outs) && jj.outs == Primals(ReadTrs(env, outs)) + Tangents(ReadTrs(env, outs))
    ensures Typecheck(jj) == Some(JaxprType(Avals(jj.binders), AtomTys(outs) + AtomTys(outs)))
  {
    hide TypecheckEqns, BindVars, TrEnvOk, TrsOk;
    ReadTrsOk(s', env, outs);
    PartsOk(s', ReadTrs(env, outs), AtomTys(outs));
  }

  /** jvp_jaxpr never fails on a well-typed jaxpr; the result is well-typed and single-assignment,
      with every binder, input and output in a primal and a tangent copy. */
  lemma {:induction false} JvpTotal(names: Naming, j: Jaxpr)
    requires Typecheck(j).Some?
    ensures JvpJaxpr(names, j).Some? && JvpJaxpr(names, j).value.next >= names.first(j)
    ensures Typecheck(JvpJaxpr(names, j).value.jaxpr) == Some(Doubled(Typecheck(j).value))
    decreases j, 2
  {
    hide JvpEqns, TypecheckEqns, WriteTrs, BindVars, FreshVars, TrsOk, TrEnvOk, Typecheck;
    var n, next, tys := |j.binders|, names.first(j), Avals(j.binders);
    var ps, ts := FreshVars(tys, next), FreshVars(tys, next + n);
    var s, env := JvpStarts(j, next);
    JvpEqnsTotal(names, j.eqns, env, s, next + 2 * n);
    NextGrows(names, j.eqns, env, next + 2 * n);
    var r := JvpEqns(names, j.eqns, env, next + 2 * n).value;
    var outs := ReadTrs(r.env, j.outs);
    var jj := Jaxpr(ps + ts, r.eqns, Primals(outs) + Tangents(outs));
    RecordedType(jj, s, TypecheckEqns(s, r.eqns).value, r.env, j.outs);
    TypecheckTypes(j);
    assert JvpJaxpr(names, j) == Some(Jvped(jj, r.next));
  }

  lemma BindersBound(j: Jaxpr, bound: set<Var>)
    requires BindVars({}, j.binders) == Some(bound)
    ensures bound == ToSet(j.binders) && Distinct(j.binders)
  {
  }

  lemma {:induction false} NextGrows(names: Naming, eqns: seq<Eqn>, env: TrEnv, next: nat)
    requires JvpEqns(names, eqns, env, next).Some?
    ensures JvpEqns(names, eqns, env, next).value.next >= next
    decreases eqns, 0
  {
    if eqns != [] {
      var ins := ReadTrs(env, eqns[0].inputs);
      RuleNextGrows(names, eqns[0], ins, next);
      var r := JvpEqn(names, eqns[0], ins, next).value;
      NextGrows(names, eqns[1..], WriteTrs(env, eqns[0].outs, r.outs).value, r.next);
    }
  }

  lemma RuleNextGrows(names: Naming, e: Eqn, ins: seq<Tr>, next: nat)
    requires JvpEqn(names, e, ins, next).Some?
    ensures JvpEqn(names, e, ins, next).value.next >= next
  {
    hide JvpJaxpr, Typecheck;
  }

  /** The parts of a staged JVP. */
  lemma JvpShape(names: Naming, j: Jaxpr) returns (ps: seq<Var>, ts: seq<Var>, trs: TrEnv, r: Traced)
    requires JvpJaxpr(names, j).Some?
    ensures ps == FreshVars(Avals(j.binders), names.first(j))
            && ts == FreshVars(Avals(j.binders), names.first(j) + |j.binders|)
    ensures WriteTrs(map[], j.binders, Duals(ps, ts)) == Some(trs)
    ensures JvpEqns(names, j.eqns, trs, names.first(j) + 2 * |j.binders|) == Some(r) && AllBound(r.env.Keys, j.outs)
    ensures JvpJaxpr(names, j) == Some(Jvped(Jaxpr(ps + ts, r.eqns,
                Primals(ReadTrs(r.env, j.outs)) + Tangents(ReadTrs(r.env, j.outs))), r.next))
  {
    hide JvpEqns, WriteTrs, Typecheck;
    ps, ts := FreshVars(Avals(j.binders), names.first(j)), FreshVars(Avals(j.binders), names.first(j) + |j.binders|);
    trs := WriteTrs(map[], j.binders, Duals(ps, ts)).value;
    r := JvpEqns(names, j.eqns, trs, names.first(j) + 2 * |j.binders|).value;
  }
}
