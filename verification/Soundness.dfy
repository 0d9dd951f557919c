/** Well-typed jaxprs do not go wrong, and their evaluation is the only solution of their
    equations. Every later proof about jaxprs reads an evaluation as such a solution. */
module Soundness {
  import opened Wrappers
  import opened Lists
  import opened Jaxprs

  ghost predicate WellTyped(env: Env) {
    forall v :: v in env ==> TypeOf(env[v]) == v.aval
  }

  ghost predicate Extends(env: Env, env': Env) {
    forall v :: v in env ==> v in env' && env'[v] == env[v]
  }

  /** The equation holds in an environment: its outputs are what its primitive computes. */
  ghost predicate Sat(m: Math, e: Eqn, env: Env) {
    && AllBound(env.Keys, e.inputs)
    && AllBound(env.Keys, Atoms(e.outs))
    && Bind(m, e, Gets(env, e.inputs)) == Some(Gets(env, Atoms(e.outs)))
  }

  ghost predicate SatAll(m: Math, eqns: seq<Eqn>, env: Env) {
    forall e :: e in eqns ==> Sat(m, e, env)
  }

  /** `env` gives the binders of `j` the values `args` and satisfies every equation. */
  ghost predicate Solves(m: Math, j: Jaxpr, args: seq<Val>, env: Env) {
    && AllBound(env.Keys, Atoms(j.binders))
    && Gets(env, Atoms(j.binders)) == args
    && SatAll(m, j.eqns, env)
    && AllBound(env.Keys, j.outs)
  }

  lemma {:induction false} WriteSpec(env: Env, vs: seq<Var>, vals: seq<Val>)
    requires |vs| == |vals|
    ensures Write(env, vs, vals).Some? <==> Distinct(vs) && forall v :: v in vs ==> v !in env
    ensures Write(env, vs, vals).Some? ==>
              var r := Write(env, vs, vals).value;
              && r.Keys == env.Keys + ToSet(vs)
              && Extends(env, r)
              && (forall i :: 0 <= i < |vs| ==> r[vs[i]] == vals[i])
    decreases vs
  {
    if vs != [] {
      assert vs == [vs[0]] + vs[1..];
      if vs[0] !in env {
        var env1 := env[vs[0] := vals[0]];
        WriteSpec(env1, vs[1..], vals[1..]);
        if Write(env1, vs[1..], vals[1..]).Some? {
          var r := Write(env1, vs[1..], vals[1..]).value;
          assert vs[0] in env1 && r[vs[0]] == vals[0];
          assert forall i :: 1 <= i < |vs| ==> vs[i] == vs[1..][i - 1] && vals[i] == vals[1..][i - 1];
        } else {
          assert Distinct(vs[1..]) ==> exists v :: v in vs[1..] && v in env1;
        }
      }
    }
  }

  lemma GetsExtend(env: Env, env': Env, xs: seq<Atom>)
    requires AllBound(env.Keys, xs) && Extends(env, env')
    ensures AllBound(env'.Keys, xs) && Gets(env', xs) == Gets(env, xs)
  {
    forall i | 0 <= i < |xs| ensures Bound(env'.Keys, xs[i]) && Get(env', xs[i]) == Get(env, xs[i]) {
      assert Bound(env.Keys, xs[i]);
    }
  }

  lemma GetsTyped(env: Env, xs: seq<Atom>)
    requires AllBound(env.Keys, xs) && WellTyped(env)
    ensures TypesOf(Gets(env, xs)) == AtomTys(xs)
  {
    forall i | 0 <= i < |xs| ensures TypeOf(Get(env, xs[i])) == AtomTy(xs[i]) {
      assert Bound(env.Keys, xs[i]);
    }
  }

  /** An environment that gives each variable of `vs` its value in `vals`. */
  lemma GetsAtoms(env: Env, vs: seq<Var>, vals: seq<Val>)
    requires |vs| == |vals| && forall i :: 0 <= i < |vs| ==> vs[i] in env && env[vs[i]] == vals[i]
    ensures AllBound(env.Keys, Atoms(vs)) && Gets(env, Atoms(vs)) == vals
  {
  }

  lemma GetsAtomsAt(env: Env, vs: seq<Var>, i: nat)
    requires AllBound(env.Keys, Atoms(vs)) && i < |vs|
    ensures vs[i] in env && Gets(env, Atoms(vs))[i] == env[vs[i]]
  {
    assert Bound(env.Keys, Atoms(vs)[i]);
  }

  lemma SatMonotone(m: Math, e: Eqn, env: Env, env': Env)
    requires Sat(m, e, env) && Extends(env, env')
    ensures Sat(m, e, env')
  {
    GetsExtend(env, env', e.inputs);
    GetsExtend(env, env', Atoms(e.outs));
  }

  /** Subject reduction for one primitive: values of the checked types give values of the
      inferred types. */
  lemma {:induction false} BindSound(m: Math, e: Eqn, vals: seq<Val>)
    requires AbstractEval(e, TypesOf(vals)).Some?
    ensures Bind(m, e, vals).Some?
    ensures TypesOf(Bind(m, e, vals).value) == AbstractEval(e, TypesOf(vals)).value
    decreases e, 0
  {
    match e
    case PrimEqn(p, _, _) =>
      assert forall i :: 0 <= i < |vals| ==> TypesOf(vals)[i] == TypeOf(vals[i]);
    case CallEqn(body, _, _) =>
      EvalSound(m, body, vals);
    case CondEqn(onTrue, onFalse, _, _) =>
      assert TypesOf(vals[1..]) == TypesOf(vals)[1..];
      EvalSound(m, onTrue, vals[1..]);
      EvalSound(m, onFalse, vals[1..]);
  }

  lemma StepSound(m: Math, e: Eqn, env: Env) returns (env1: Env)
    requires WellTyped(env) && TypecheckEqn(env.Keys, e).Some?
    ensures ReadAll(env, e.inputs).Some?
    ensures Bind(m, e, ReadAll(env, e.inputs).value).Some?
    ensures Write(env, e.outs, Bind(m, e, ReadAll(env, e.inputs).value).value) == Some(env1)
    ensures env1.Keys == TypecheckEqn(env.Keys, e).value
    ensures WellTyped(env1) && Extends(env, env1) && Sat(m, e, env1)
    decreases e, 1
  {
    var vals := ReadAll(env, e.inputs).value;
    GetsTyped(env, e.inputs);
    BindSound(m, e, vals);
    var outs := Bind(m, e, vals).value;
    assert TypesOf(outs) == Avals(e.outs);
    WriteSpec(env, e.outs, outs);
    env1 := Write(env, e.outs, outs).value;
    forall v | v in env1 ensures TypeOf(env1[v]) == v.aval {
      if v !in env {
        var i :| 0 <= i < |e.outs| && e.outs[i] == v;
        assert TypesOf(outs)[i] == Avals(e.outs)[i];
      }
    }
    GetsExtend(env, env1, e.inputs);
    GetsAtoms(env1, e.outs, outs);
  }

  lemma {:induction false} EqnsSound(m: Math, eqns: seq<Eqn>, env: Env) returns (env': Env)
    requires WellTyped(env) && TypecheckEqns(env.Keys, eqns).Some?
    ensures EvalEqns(m, eqns, env) == Some(env')
    ensures env'.Keys == TypecheckEqns(env.Keys, eqns).value
    ensures WellTyped(env') && Extends(env, env') && SatAll(m, eqns, env')
    decreases eqns, 0
  {
    env' := env;
    if eqns != [] {
      var env1 := StepSound(m, eqns[0], env);
      env' := EqnsSound(m, eqns[1..], env1);
      SatMonotone(m, eqns[0], env1, env');
      assert eqns == [eqns[0]] + eqns[1..];
    }
  }

  lemma StartSound(j: Jaxpr, args: seq<Val>) returns (env0: Env)
    requires BindVars({}, j.binders).Some? && TypesOf(args) == Avals(j.binders)
    ensures Write(map[], j.binders, args) == Some(env0)
    ensures env0.Keys == BindVars({}, j.binders).value && WellTyped(env0)
    ensures AllBound(env0.Keys, Atoms(j.binders)) && Gets(env0, Atoms(j.binders)) == args
  {
    WriteSpec(map[], j.binders, args);
    env0 := Write(map[], j.binders, args).value;
    forall v | v in env0 ensures TypeOf(env0[v]) == v.aval {
      var i :| 0 <= i < |j.binders| && j.binders[i] == v;
      assert TypesOf(args)[i] == Avals(j.binders)[i];
    }
    assert env0.Keys == BindVars({}, j.binders).value;
    GetsAtoms(env0, j.binders, args);
  }

  /** Type soundness of typecheck_jaxpr for eval_jaxpr: no unbound variable, no second
      assignment, no operand of a wrong type, and outputs of the announced types. */
  lemma {:induction false} EvalSound(m: Math, j: Jaxpr, args: seq<Val>)
    requires Typecheck(j).Some? && TypesOf(args) == Typecheck(j).value.inTypes
    ensures FinalEnv(m, j, args).Some?
    ensures WellTyped(FinalEnv(m, j, args).value)
    ensures Solves(m, j, args, FinalEnv(m, j, args).value)
    ensures Eval(m, j, args) == Some(Gets(FinalEnv(m, j, args).value, j.outs))
    ensures TypesOf(Eval(m, j, args).value) == Typecheck(j).value.outTypes
    decreases j, 0
  {
    var env0 := StartSound(j, args);
    var env := EqnsSound(m, j.eqns, env0);
    GetsExtend(env0, env, Atoms(j.binders));
    GetsTyped(env, j.outs);
  }

  /** The variables that have a value at the end are those that the type checker has bound. */
  lemma FinalKeys(m: Math, j: Jaxpr, args: seq<Val>)
    requires Typecheck(j).Some? && TypesOf(args) == Typecheck(j).value.inTypes
    ensures FinalEnv(m, j, args).Some? && BindVars({}, j.binders).Some?
    ensures Some(FinalEnv(m, j, args).value.Keys) == TypecheckEqns(BindVars({}, j.binders).value, j.eqns)
  {
    var env0 := StartSound(j, args);
    var env := EqnsSound(m, j.eqns, env0);
  }

  lemma {:induction false} EqnsUnique(m: Math, eqns: seq<Eqn>, env: Env, sol: Env)
    requires TypecheckEqns(env.Keys, eqns).Some?
    requires Extends(env, sol) && SatAll(m, eqns, sol)
    ensures EvalEqns(m, eqns, env).Some?
    ensures Extends(EvalEqns(m, eqns, env).value, sol)
    ensures EvalEqns(m, eqns, env).value.Keys == TypecheckEqns(env.Keys, eqns).value
  {
    if eqns != [] {
      var e := eqns[0];
      assert Sat(m, e, sol);
      GetsExtend(env, sol, e.inputs);
      var outs := Gets(sol, Atoms(e.outs));
      WriteSpec(env, e.outs, outs);
      var env1 := Write(env, e.outs, outs).value;
      forall v | v in env1 ensures v in sol && sol[v] == env1[v] {
        if v !in env {
          var i :| 0 <= i < |e.outs| && e.outs[i] == v;
          GetsAtomsAt(sol, e.outs, i);
        }
      }
      EqnsUnique(m, eqns[1..], env1, sol);
    }
  }

  /** A solution of the equations of a well-typed jaxpr is its evaluation. */
  lemma EvalUnique(m: Math, j: Jaxpr, args: seq<Val>, sol: Env)
    requires Typecheck(j).Some? && Solves(m, j, args, sol)
    ensures Eval(m, j, args) == Some(Gets(sol, j.outs))
  {
    hide ImplPrim;
    WriteSpec(map[], j.binders, args);
    var env0 := Write(map[], j.binders, args).value;
    assert env0.Keys == BindVars({}, j.binders).value;
    forall v | v in env0 ensures v in sol && sol[v] == env0[v] {
      var i :| 0 <= i < |j.binders| && j.binders[i] == v;
      GetsAtomsAt(sol, j.binders, i);
    }
    EqnsUnique(m, j.eqns, env0, sol);
    var env := EvalEqns(m, j.eqns, env0).value;
    GetsExtend(env, sol, j.outs);
  }

  /** The comparisons are a strict order of the numbers and its converse. */
  lemma Comparisons(m: Math, x: real, d: real, outs: seq<Var>)
    requires 0.0 < d
    ensures var less, more, y := PrimEqn(Less, [], outs), PrimEqn(Greater, [], outs), x + d;
            && Bind(m, less, [R(x), R(y)]) == Bind(m, more, [R(y), R(x)]) == Some([B(true)])
            && Bind(m, less, [R(y), R(x)]) == Bind(m, more, [R(x), R(y)]) == Some([B(false)])
            && Bind(m, less, [R(x), R(x)]) == Bind(m, more, [R(x), R(x)]) == Some([B(false)])
  {
  }
}
