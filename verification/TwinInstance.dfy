/** An instance of the failure of conditionals made from the same function twice: the function
    lambda x: cond(x > 0, sin, cos, x), in both branches and applied to an input. */
module TwinInstance {
  import opened Wrappers
  import opened Lists
  import opened Jaxprs
  import opened PartialEvaluation
  import opened Residuals
  import opened PartialEvalTotal
  import opened Jvp
  import opened JvpTyping
  import opened JvpNames
  import opened ReverseMode
  import opened SharedBranches
  import opened TwinBranches

  /** The function that applies one operation. */
  function Single(p: Prim): Jaxpr {
    Jaxpr([Var(0, Float)], [Op(p, [V(Var(0, Float))], Var(1, Float))], [V(Var(1, Float))])
  }

  function Test(): Eqn {
    PrimEqn(Greater, [V(Var(2, Float)), Lit(R(0.0))], [Var(3, Bool)])
  }

  function Choose(): Eqn {
    CondEqn(Single(Sin), Single(Cos), [V(Var(3, Bool)), V(Var(2, Float))], [Var(4, Float)])
  }

  /** lambda x: cond(x > 0, sin, cos, x). */
  function SinOrCos(): Jaxpr {
    Jaxpr([Var(2, Float)], [Test(), Choose()], [V(Var(4, Float))])
  }

  /** lambda p, a: cond(p, f, f, a) for this f. */
  function BothSinOrCos(): Jaxpr {
    OneCond([Var(5, Bool), Var(6, Float)], SinOrCos(), 1, [V(Var(5, Bool)), V(Var(6, Float))], [Var(7, Float)])
  }

  // ---------- its type and its value ----------

  lemma SingleType(p: Prim)
    requires p == Sin || p == Cos
    ensures Typecheck(Single(p)) == Some(JaxprType([Float], [Float]))
  {
    var j := Single(p);
    assert AtomTys(j.eqns[0].inputs) == [Float] == Avals(j.eqns[0].outs) && Avals(j.binders) == [Float];
    SingleEqn(ToSet(j.binders), j.eqns[0]);
    TypecheckWhole(j, ToSet(j.binders), ToSet(j.binders) + ToSet(j.eqns[0].outs));
    assert AtomTys(j.outs) == [Float];
  }

  lemma TwoEqnsType(j: Jaxpr, s0: set<Var>, s1: set<Var>, s2: set<Var>)
    requires |j.eqns| == 2 && ToSet(j.binders) == s0 && Distinct(j.binders) && AllBound(s2, j.outs)
    requires TypecheckEqn(s0, j.eqns[0]) == Some(s1) && TypecheckEqn(s1, j.eqns[1]) == Some(s2)
    ensures Typecheck(j) == Some(JaxprType(Avals(j.binders), AtomTys(j.outs)))
  {
    hide Typecheck, TypecheckEqn;
    var e := j.eqns[1];
    assert j.eqns[1..] == [e] && [e][1..] == [];
    assert TypecheckEqns(s2, []) == Some(s2);
    assert TypecheckEqns(s1, [e]) == Some(s2);
    TypecheckWhole(j, s0, s2);
  }

  lemma TestType()
    ensures TypecheckEqn({Var(2, Float)}, Test()) == Some({Var(2, Float), Var(3, Bool)})
  {
    assert AtomTys(Test().inputs) == [Float, Float] && Avals(Test().outs) == [Bool];
    BindOne({Var(2, Float)}, Test().outs);
    assert {Var(2, Float)} + ToSet(Test().outs) == {Var(2, Float), Var(3, Bool)};
  }

  lemma ChooseType()
    ensures var s := {Var(2, Float), Var(3, Bool)}; TypecheckEqn(s, Choose()) == Some(s + {Var(4, Float)})
  {
    SingleType(Sin);
    SingleType(Cos);
    hide Typecheck, Single;
    assert AtomTys(Choose().inputs) == [Bool, Float] && Avals(Choose().outs) == [Float]
           && [Bool, Float][1..] == [Float];
    BindOne({Var(2, Float), Var(3, Bool)}, Choose().outs);
  }

  lemma ChoiceType()
    ensures Typecheck(SinOrCos()) == Some(JaxprType([Float], [Float]))
  {
    TestType();
    ChooseType();
    hide Typecheck, TypecheckEqn, Test, Choose;
    var j := SinOrCos();
    TwoEqnsType(j, {Var(2, Float)}, {Var(2, Float), Var(3, Bool)}, {Var(2, Float), Var(3, Bool)} + {Var(4, Float)});
    assert AtomTys(j.outs) == [Float] == Avals(j.binders);
  }

  lemma InstanceType()
    ensures Typecheck(BothSinOrCos()) == Some(JaxprType([Bool, Float], [Float]))
  {
    ChoiceType();
    hide Typecheck, SinOrCos;
    var j := BothSinOrCos();
    TwinAlike(SinOrCos(), 1, [], 0);
    assert AtomTys(j.eqns[0].inputs) == [Bool] + [Float] && Avals(j.binders) == [Bool, Float];
    ConditionalTypes(j.binders, j.eqns[0], [Float], Var(7, Float));
    assert j.outs == [V(Var(7, Float))];
  }

  /** sin x if x is positive, else cos x. */
  function Chosen(m: Math, x: real): Val {
    R(if x > 0.0 then m.sin(x) else m.cos(x))
  }

  /** The value of a jaxpr with one equation. */
  lemma SingleValue(m: Math, binders: seq<Var>, e: Eqn, args: seq<Val>, env: Env, vals: seq<Val>, out: Var, y: Val)
    requires e.outs == [out] && Write(map[], binders, args) == Some(env) && out !in env
    requires ReadAll(env, e.inputs) == Some(vals) && Bind(m, e, vals) == Some([y])
    ensures Eval(m, Jaxpr(binders, [e], [V(out)]), args) == Some([y])
  {
    hide Bind;
    var env1 := env[out := y];
    assert [e][1..] == [] && [out][1..] == [] && [y][1..] == [];
    assert Write(env, [out], [y]) == Some(env1);
    assert EvalEqns(m, [], env1) == Some(env1);
    assert EvalEqns(m, [e], env) == Some(env1);
    var j := Jaxpr(binders, [e], [V(out)]);
    assert FinalEnv(m, j, args) == Some(env1);
    assert Gets(env1, [V(out)]) == [y];
    EvalIs(m, j, args, env1);
  }

  lemma OneArgument(v: Var, x: Val)
    ensures Write(map[], [v], [x]) == Some(map[v := x])
  {
    assert [v][1..] == [];
  }

  lemma BranchValue(m: Math, p: Prim, x: real)
    requires p == Sin || p == Cos
    ensures Eval(m, Single(p), [R(x)]) == Some([R(if p == Sin then m.sin(x) else m.cos(x))])
  {
    hide Eval;
    var j, v := Single(p), Var(0, Float);
    OneArgument(v, R(x));
    assert Gets(map[v := R(x)], j.eqns[0].inputs) == [R(x)];
    SingleValue(m, j.binders, j.eqns[0], [R(x)], map[v := R(x)], [R(x)], Var(1, Float),
                R(if p == Sin then m.sin(x) else m.cos(x)));
  }

  lemma TestValue(m: Math, env: Env, x: real)
    requires env == map[Var(2, Float) := R(x)]
    ensures ReadAll(env, Test().inputs) == Some([R(x), R(0.0)]) && Bind(m, Test(), [R(x), R(0.0)]) == Some([B(x > 0.0)])
  {
    assert Gets(env, Test().inputs) == [R(x), R(0.0)];
  }

  lemma ChooseValue(m: Math, env: Env, x: real)
    requires env == map[Var(2, Float) := R(x), Var(3, Bool) := B(x > 0.0)]
    ensures ReadAll(env, Choose().inputs) == Some([B(x > 0.0), R(x)])
    ensures Bind(m, Choose(), [B(x > 0.0), R(x)]) == Some([Chosen(m, x)])
  {
    BranchValue(m, Sin, x);
    BranchValue(m, Cos, x);
    hide Eval, Single;
    assert Gets(env, Choose().inputs) == [B(x > 0.0), R(x)] && [B(x > 0.0), R(x)][1..] == [R(x)];
  }

  /** The value of a jaxpr with two equations. */
  lemma TwoEqnsValue(m: Math, j: Jaxpr, args: seq<Val>, e0: Env, xs: seq<Val>, ys: seq<Val>, c: Var, x: Val, v: Var,
                     y: Val)
    requires |j.eqns| == 2 && j.eqns[0].outs == [c] && j.eqns[1].outs == [v] && j.outs == [V(v)]
    requires Write(map[], j.binders, args) == Some(e0) && c !in e0 && v !in e0 && v != c
    requires ReadAll(e0, j.eqns[0].inputs) == Some(xs) && Bind(m, j.eqns[0], xs) == Some([x])
    requires ReadAll(e0[c := x], j.eqns[1].inputs) == Some(ys) && Bind(m, j.eqns[1], ys) == Some([y])
    ensures Eval(m, j, args) == Some([y])
  {
    hide Eval, Bind;
    var e := j.eqns[1];
    var e1 := e0[c := x];
    var e2 := e1[v := y];
    assert [c][1..] == [] && [v][1..] == [] && [x][1..] == [] && [y][1..] == [];
    assert Write(e0, [c], [x]) == Some(e1) && Write(e1, [v], [y]) == Some(e2);
    assert j.eqns[1..] == [e] && [e][1..] == [];
    assert EvalEqns(m, [], e2) == Some(e2);
    assert EvalEqns(m, [e], e1) == Some(e2);
    assert EvalEqns(m, j.eqns, e0) == Some(e2);
    assert FinalEnv(m, j, args) == Some(e2);
    assert Gets(e2, j.outs) == [y];
    EvalIs(m, j, args, e2);
  }

  lemma ChoiceValue(m: Math, id: nat, x: real)
    ensures Eval(m, Twin(SinOrCos(), id), [R(x)]) == Some([Chosen(m, x)])
  {
    var j := Twin(SinOrCos(), id);
    var v, c := Var(2, Float), Var(3, Bool);
    OneArgument(v, R(x));
    TestValue(m, map[v := R(x)], x);
    ChooseValue(m, map[v := R(x), c := B(x > 0.0)], x);
    assert map[v := R(x)][c := B(x > 0.0)] == map[v := R(x), c := B(x > 0.0)];
    assert Test().outs == [c] && Choose().outs == [Var(4, Float)];
    hide Eval, Test, Choose, Write, ReadAll, Bind;
    TwoEqnsValue(m, j, [R(x)], map[v := R(x)], [R(x), R(0.0)], [B(x > 0.0), R(x)], c, B(x > 0.0), Var(4, Float),
                 Chosen(m, x));
  }

  lemma InstanceValue(m: Math, flag: bool, x: real)
    ensures Eval(m, BothSinOrCos(), [B(flag), R(x)]) == Some([Chosen(m, x)])
  {
    ChoiceValue(m, 0, x);
    ChoiceValue(m, 1, x);
    hide Eval;
    var j := BothSinOrCos();
    var v, w := Var(5, Bool), Var(6, Float);
    var env: Env := map[v := B(flag), w := R(x)];
    var args := [B(flag), R(x)];
    assert args[1..] == [R(x)] && [v, w][1..] == [w] && [w][1..] == [] && [R(x)][1..] == [];
    assert Write(map[v := B(flag)][w := R(x)], [], []) == Some(env);
    assert Write(map[v := B(flag)], [w], [R(x)]) == Some(env);
    assert Write(map[], [v, w], args) == Some(env);
    assert Gets(env, j.eqns[0].inputs) == args;
    SingleValue(m, [v, w], j.eqns[0], args, env, args, Var(7, Float), Chosen(m, x));
    assert j.outs == [V(Var(7, Float))];
  }

  // ---------- its residual ----------

  /** The JVP of sin: the cosine weighs the tangent. */
  lemma SinStage(names: Naming)
    requires JvpJaxpr(names, Single(Sin)).Some?
    ensures var d, n := JvpJaxpr(names, Single(Sin)).value.jaxpr, names.first(Single(Sin));
            var p, t, z, a, b := Var(n, Float), Var(n + 1, Float), Var(n + 2, Float), Var(n + 3, Float),
                                 Var(n + 4, Float);
            && d.binders == [p, t]
            && d.eqns == [Op(Sin, [V(p)], z), Op(Cos, [V(p)], a), Op(Mul, [V(a), V(t)], b)]
  {
    hide Typecheck, JvpJaxpr;
    var j, n := Single(Sin), names.first(Single(Sin));
    var ps, ts, trs, r := JvpShape(names, j);
    var p, t := Var(n, Float), Var(n + 1, Float);
    assert ps == [p] && ts == [t];
    OneBinder(j.binders[0], p, t, trs);
    var ins := ReadTrs(trs, j.eqns[0].inputs);
    assert ins == [Dual(V(p), V(t))];
    assert ins[0] in ins;
    var emitted := JvpEqn(names, j.eqns[0], ins, n + 2).value;
    assert emitted == JvpPrim(Sin, ins, n + 2).value;
    assert j.eqns[1..] == [] && r.eqns == emitted.eqns + [];
  }

  lemma OneBinder(v: Var, p: Var, t: Var, trs: TrEnv)
    requires WriteTrs(map[], [v], Duals([p], [t])) == Some(trs)
    ensures trs == map[v := Dual(V(p), V(t))]
  {
    var tr := Dual(V(p), V(t));
    assert Duals([p], [t]) == [tr] && [v][1..] == [] && [tr][1..] == [];
    assert WriteTrs(map[v := tr], [], []) == Some(map[v := tr]);
  }

  /** What later equations hand on is handed on. */
  lemma KnownFirst(eqns: seq<Eqn>, env: Unknowns, out: Var)
    requires eqns != [] && eqns[0].PrimEqn? && eqns[0].outs == [out]
    requires forall x :: x in eqns[0].inputs ==> !Flag(env, x)
    ensures OwnResEqns(eqns[1..], env[out := false]) <= OwnResEqns(eqns, env)
    ensures CondResEqns(eqns[1..], env[out := false]) <= CondResEqns(eqns, env)
  {
    hide OwnRes, CondRes, FlowEqn, WriteUnks;
    Unchanged(env, eqns[0], out);
  }

  /** With an unknown tangent the cosine is a residual. */
  lemma CosineKept(eqns: seq<Eqn>, env: Unknowns, p: Var, t: Var, z: Var, a: Var, b: Var)
    requires eqns == [Op(Sin, [V(p)], z), Op(Cos, [V(p)], a), Op(Mul, [V(a), V(t)], b)] && p.id < t.id < z.id < a.id
    requires env == map[p := false, t := true]
    ensures a in OwnResEqns(eqns, env)
  {
    hide OwnResEqns, CondResEqns, FlowEqn, WriteUnks;
    KnownFirst(eqns, env, z);
    KnownFirst(eqns[1..], env[z := false], a);
    var e, env2 := eqns[2], env[z := false][a := false];
    assert eqns[1..][1..] == [e];
    WeightKept(e, env2, a, t);
  }

  lemma WeightKept(e: Eqn, env: Unknowns, a: Var, t: Var)
    requires e.PrimEqn? && e.inputs == [V(a), V(t)] && !Flag(env, V(a)) && Flag(env, V(t))
    ensures a in OwnResEqns([e], env)
  {
    hide FlowEqn, WriteUnks;
    var flags := Flags(env, e.inputs);
    assert !flags[0] && flags[1];
    assert e.inputs[0] == V(a);
    assert a in OwnRes(e, flags);
  }

  lemma SinResidual(names: Naming, inst: seq<bool>)
    requires JvpJaxpr(names, Single(Sin)).Some?
    ensures Res(JvpJaxpr(names, Single(Sin)).value.jaxpr, [false, true], inst) != {}
  {
    hide JvpJaxpr, Res;
    SinStage(names);
    CosineRes(JvpJaxpr(names, Single(Sin)).value.jaxpr, names.first(Single(Sin)), inst);
  }

  lemma CosineRes(d: Jaxpr, n: nat, inst: seq<bool>)
    requires var p, t, z, a, b := Var(n, Float), Var(n + 1, Float), Var(n + 2, Float), Var(n + 3, Float),
                                  Var(n + 4, Float);
             d.binders == [p, t] && d.eqns == [Op(Sin, [V(p)], z), Op(Cos, [V(p)], a), Op(Mul, [V(a), V(t)], b)]
    ensures Res(d, [false, true], inst) != {}
  {
    hide Flow, OwnResEqns, Asked, WriteUnks;
    var p, t, z, a, b := Var(n, Float), Var(n + 1, Float), Var(n + 2, Float), Var(n + 3, Float), Var(n + 4, Float);
    TwoFlags(p, t);
    CosineKept(d.eqns, map[p := false, t := true], p, t, z, a, b);
  }

  lemma TwoFlags(p: Var, t: Var)
    requires p != t
    ensures WriteUnks(map[], [false, true], [p, t]) == map[p := false, t := true]
  {
    assert [false, true][1..] == [true] && [p, t][1..] == [t] && [true][1..] == [] && [t][1..] == [];
    assert WriteUnks(map[p := false][t := true], [], []) == map[p := false, t := true];
  }

  /** A known operation makes a known value. */
  lemma Unchanged(env: Unknowns, e: Eqn, out: Var)
    requires e.PrimEqn? && e.outs == [out] && forall x :: x in e.inputs ==> !Flag(env, x)
    ensures WriteUnks(env, FlowEqn(e, Flags(env, e.inputs)), e.outs) == env[out := false]
  {
    var flags := Flags(env, e.inputs);
    forall i | 0 <= i < |flags| ensures !flags[i] {
      assert e.inputs[i] in e.inputs;
    }
    assert FlowEqn(e, flags) == [false];
    assert [out][1..] == [] && [false][1..] == [];
  }

  /** The JVP of the function: the comparison, and a conditional on it. */
  lemma ChoiceStage(names: Naming)
    requires JvpJaxpr(names, SinOrCos()).Some?
    ensures JvpJaxpr(names, Single(Sin)).Some? && JvpJaxpr(names, Single(Cos)).Some?
    ensures var d, n := JvpJaxpr(names, SinOrCos()).value.jaxpr, names.first(SinOrCos());
            var p, t, c := Var(n, Float), Var(n + 1, Float), Var(n + 2, Bool);
            && d.binders == [p, t] && |d.eqns| == 2 && d.eqns[0] == Op(Greater, [V(p), Lit(R(0.0))], c)
            && d.eqns[1].CondEqn? && d.eqns[1].inputs == [V(c), V(p), V(t)]
            && d.eqns[1].onTrue == JvpJaxpr(names, Single(Sin)).value.jaxpr
  {
    hide Typecheck, JvpJaxpr, JvpEqns;
    var j, n := SinOrCos(), names.first(SinOrCos());
    var ps, ts, trs, r := JvpShape(names, j);
    var p, t := Var(n, Float), Var(n + 1, Float);
    assert ps == [p] && ts == [t];
    OneBinder(j.binders[0], p, t, trs);
    hide FreshVars, WriteTrs, SinOrCos;
    assert j.eqns == [Test(), Choose()] && n + 2 * |j.binders| == n + 2;
    assert j.eqns[1..] == [Choose()];
    TestStage(names, j.eqns, trs, n, p, t);
    ChooseStage(names, trs[Var(3, Bool) := Dual(V(Var(n + 2, Bool)), Lit(Zero(Bool)))], n, p, t);
  }

  lemma TestStage(names: Naming, eqns: seq<Eqn>, trs: TrEnv, n: nat, p: Var, t: Var)
    requires eqns != [] && eqns[0] == Test() && trs == map[Var(2, Float) := Dual(V(p), V(t))]
    requires JvpEqns(names, eqns, trs, n + 2).Some?
    ensures var c := Var(n + 2, Bool);
            var rest := JvpEqns(names, eqns[1..], trs[Var(3, Bool) := Dual(V(c), Lit(Zero(Bool)))], n + 3);
            rest.Some?
            && JvpEqns(names, eqns, trs, n + 2).value.eqns == [Op(Greater, [V(p), Lit(R(0.0))], c)] + rest.value.eqns
  {
    hide FreshVars, JvpRule;
    var c := Var(n + 2, Bool);
    var x, y := Dual(V(p), V(t)), Dual(V(c), Lit(Zero(Bool)));
    var ins := ReadTrs(trs, Test().inputs);
    assert ins == [x, Plain(Lit(R(0.0)))] && ins[0] in ins;
    var tested := Emitted([Op(Greater, [V(p), Lit(R(0.0))], c)], [y], n + 3);
    TestRule(names, ins, x, n, c);
    hide JvpEqn;
    assert [Var(3, Bool)][1..] == [] && [y][1..] == [];
    assert WriteTrs(trs[Var(3, Bool) := y], [], []) == Some(trs[Var(3, Bool) := y]);
    assert WriteTrs(trs, Test().outs, [y]) == Some(trs[Var(3, Bool) := y]);
  }

  lemma TestRule(names: Naming, ins: seq<Tr>, x: Tr, n: nat, c: Var)
    requires x.Dual? && ins == [x, Plain(Lit(R(0.0)))] && c == Var(n + 2, Bool)
    ensures JvpEqn(names, Test(), ins, n + 2)
         == Some(Emitted([Op(Greater, [x.primal, Lit(R(0.0))], c)], [Dual(V(c), Lit(Zero(Bool)))], n + 3))
  {
    hide FreshVars, AbstractEval, JvpJaxpr;
    assert ins[0] in ins;
    assert JvpEqn(names, Test(), ins, n + 2) == JvpPrim(Greater, ins, n + 2);
  }

  lemma ChooseStage(names: Naming, trs: TrEnv, n: nat, p: Var, t: Var)
    requires trs == map[Var(2, Float) := Dual(V(p), V(t)), Var(3, Bool) := Dual(V(Var(n + 2, Bool)), Lit(Zero(Bool)))]
    requires JvpEqns(names, [Choose()], trs, n + 3).Some?
    ensures JvpJaxpr(names, Single(Sin)).Some? && JvpJaxpr(names, Single(Cos)).Some?
    ensures var r := JvpEqns(names, [Choose()], trs, n + 3).value;
            && |r.eqns| == 1 && r.eqns[0].CondEqn? && r.eqns[0].inputs == [V(Var(n + 2, Bool)), V(p), V(t)]
            && r.eqns[0].onTrue == JvpJaxpr(names, Single(Sin)).value.jaxpr
  {
    hide FreshVars, JvpEqn, JvpJaxpr, WriteTrs;
    var x, y := Dual(V(p), V(t)), Dual(V(Var(n + 2, Bool)), Lit(Zero(Bool)));
    var ins := ReadTrs(trs, Choose().inputs);
    assert ins == [y, x] && ins[1..] == [x];
    assert [Choose()][1..] == [];
    var q := TracedRule(names, Choose(), ins, n + 3, 0);
    assert JvpEqns(names, [Choose()], trs, n + 3).value.eqns == [q] + [];
  }

  /** So the conditional inside has residuals of its own. */
  lemma InstanceResidual(names: Naming)
    requires JvpJaxpr(names, SinOrCos()).Some?
    ensures InnerResiduals(names, SinOrCos(), [false, true]) != {}
  {
    hide JvpJaxpr, Flow, Res, CondResEqns, WriteUnks;
    ChoiceStage(names);
    var d, n := JvpJaxpr(names, SinOrCos()).value.jaxpr, names.first(SinOrCos());
    var p, t, c := Var(n, Float), Var(n + 1, Float), Var(n + 2, Bool);
    TwoFlags(p, t);
    var q := d.eqns[1];
    SinResidual(names, Or(Flow(q.onTrue, [false, true]), Flow(q.onFalse, [false, true])));
    ChoiceRes(d.eqns, q, map[p := false, t := true], c, p, t);
  }

  lemma ChoiceRes(eqns: seq<Eqn>, q: Eqn, env: Unknowns, c: Var, p: Var, t: Var)
    requires eqns == [Op(Greater, [V(p), Lit(R(0.0))], c), q] && q.CondEqn? && q.inputs == [V(c), V(p), V(t)]
    requires env == map[p := false, t := true] && p != t && c != p && c != t
    requires Res(q.onTrue, [false, true], Or(Flow(q.onTrue, [false, true]), Flow(q.onFalse, [false, true]))) != {}
    ensures CondResEqns(eqns, env) != {}
  {
    hide Flow, Res, CondResEqns;
    assert eqns[1..] == [q];
    KnownFirst(eqns, env, c);
    CondKept(q, env[c := false], c, p, t);
  }

  lemma CondKept(q: Eqn, env: Unknowns, c: Var, p: Var, t: Var)
    requires q.CondEqn? && q.inputs == [V(c), V(p), V(t)] && !Flag(env, V(c)) && !Flag(env, V(p)) && Flag(env, V(t))
    requires Res(q.onTrue, [false, true], Or(Flow(q.onTrue, [false, true]), Flow(q.onFalse, [false, true]))) != {}
    ensures CondResEqns([q], env) != {}
  {
    hide Res, Flow, WriteUnks, FlowEqn;
    var flags := Flags(env, q.inputs);
    assert flags == [false, false, true];
    assert flags[1..] == [false, true];
    assert CondRes(q, flags) != {};
  }

  /** The program is well-typed and computes its function, but linearize does not return. */
  lemma NestedOnInput(m: Math, order: Order, names: Naming, flag: bool, x: real)
    requires IsOrder(order) && Allocation(names, BothSinOrCos())
    ensures Typecheck(BothSinOrCos()) == Some(JaxprType([Bool, Float], [Float]))
    ensures Eval(m, BothSinOrCos(), [B(flag), R(x)]) == Some([Chosen(m, x)])
    ensures LinearizeFlat(m, order, names, BothSinOrCos(), [B(flag), R(x)]) == None
  {
    hide LinearizeFlat, Typecheck, Eval, NoClash, JvpJaxpr, Allocation, InnerResiduals;
    InstanceType();
    InstanceValue(m, flag, x);
    var j, xs := BothSinOrCos(), [B(flag), R(x)];
    assert TypesOf(xs) == [Bool, Float] == Avals(j.binders);
    var inputs := [V(Var(5, Bool)), V(Var(6, Float))];
    assert inputs[0].V? && BranchUnknowns(inputs) == [false, true];
    TracedSameBranches(m, order, names, j.binders, SinOrCos(), 1, inputs, [Var(7, Float)], xs);
    InstanceResidual(names);
  }
}
