/** Staging a program and evaluating the result is running the program, under every interpreter. */
module StagedJvp {
  import opened Wrappers
  import opened NestedJvp

  /** The environment holds the first |us| names, and they stand for `us`. */
  ghost predicate Holds(cur: Interpreter, d: nat, ts: seq<Tower>, w: World, env: map<nat, Value>, us: seq<Tower>)
    requires TowersOk(d, ts) && Staged(|ts|, w)
  {
    forall i :: 1 <= i <= |us| ==>
      i in env && FitsIn(cur, w, env[i]) && MeaningIn(cur, d, ts, w, env[i]) == us[i - 1]
  }

  lemma HoldsLater(cur: Interpreter, d: nat, ts: seq<Tower>, w: World, w': World, env: map<nat, Value>, us: seq<Tower>)
    requires TowersOk(d, ts) && Staged(|ts|, w) && Later(d, ts, w, w') && Holds(cur, d, ts, w, env, us)
    ensures Holds(cur, d, ts, w', env, us)
  {
    forall i | 1 <= i <= |us| ensures FitsIn(cur, w', env[i]) && MeaningIn(cur, d, ts, w', env[i]) == us[i - 1] {
      MeaningLater(cur, d, ts, w, w', env[i]);
    }
  }

  lemma {:induction false} ZipMembers(first: nat, names: seq<nat>, values: seq<Value>)
    requires |names| == |values| && forall i :: 0 <= i < |names| ==> names[i] == first + i
    ensures forall i :: first <= i < first + |names| ==>
              i in Zip(names, values) && Zip(names, values)[i] == values[i - first]
    ensures forall i :: i in Zip(names, values) ==> first <= i < first + |names|
    decreases |names|
  {
    if names != [] {
      ZipMembers(first + 1, names[1..], values[1..]);
    }
  }

  /** An atom of an equation evaluates to what it stands for. */
  lemma AtomHolds(cur: Interpreter, d: nat, ts: seq<Tower>, w: World, env: map<nat, Value>, us: seq<Tower>, v: Value)
    requires TowersOk(d, ts) && Staged(|ts|, w) && TowersOk(Depth(cur, d), us) && Holds(cur, d, ts, w, env, us)
             && Atom(v, |us|)
    ensures EvalAtom(env, v).Some? && FitsIn(cur, w, EvalAtom(env, v).value)
    ensures MeaningIn(cur, d, ts, w, EvalAtom(env, v).value) == AtomMeaning(Depth(cur, d), us, v)
  {
    if v.Num? {
      NumIn(cur, d, ts, w, v.r);
    }
  }

  /** The environment of eval_jaxpr holds what the names stand for. */
  lemma {:induction false} EquationsMeaning(cur: Interpreter, d: nat, ts: seq<Tower>, w: World, env: map<nat, Value>,
                                            us: seq<Tower>, eqns: seq<Equation>)
    requires TowersOk(d, ts) && Staged(|ts|, w) && TowersOk(Depth(cur, d), us)
    requires Holds(cur, d, ts, w, env, us) && WellFormed(|us|, eqns)
    ensures EvalEquations(cur, env, eqns, w).Some?
    ensures var (env', w') := EvalEquations(cur, env, eqns, w).value;
            Later(d, ts, w, w') && Holds(cur, d, ts, w', env', NameMeanings(Depth(cur, d), us, eqns))
    decreases |eqns|
  {
    if eqns != [] {
      var n, k := Depth(cur, d), |eqns| - 1;
      var init, eqn := eqns[..k], eqns[k];
      assert WellFormed(|us|, init) && init + [eqn] == eqns;
      hide WellFormed, Holds, Later, Staged, TowersOk, Combine, InterpretOp, EvalEquation;
      EquationsMeaning(cur, d, ts, w, env, us, init);
      var (env1, w1) := EvalEquations(cur, env, init, w).value;
      LaterStaged(d, ts, w, w1);
      var before := NameMeanings(n, us, init);
      EquationMeaning(cur, d, ts, w1, env1, before, eqn);
      var w2 := EvalEquation(cur, env1, eqn, w1).value.1;
      LaterTransitive(d, ts, w, w1, w2);
      NameMeaningsNext(n, us, init, eqn);
    }
  }

  lemma EquationMeaning(cur: Interpreter, d: nat, ts: seq<Tower>, w: World, env: map<nat, Value>, us: seq<Tower>,
                        eqn: Equation)
    requires TowersOk(d, ts) && Staged(|ts|, w) && TowersOk(Depth(cur, d), us) && Holds(cur, d, ts, w, env, us)
    requires eqn.binder == |us| + 1 && Atom(eqn.x, |us|) && Atom(eqn.y, |us|)
    ensures EvalEquation(cur, env, eqn, w).Some?
    ensures var (n, (env', w')) := (Depth(cur, d), EvalEquation(cur, env, eqn, w).value);
            && Later(d, ts, w, w')
            && Holds(cur, d, ts, w', env',
                     us + [Combine(n, eqn.op, AtomMeaning(n, us, eqn.x), AtomMeaning(n, us, eqn.y))])
  {
    hide Later, Staged, FitsIn, MeaningIn, Combine, AtomMeaning, InterpretOp, TowersOk;
    AtomHolds(cur, d, ts, w, env, us, eqn.x);
    AtomHolds(cur, d, ts, w, env, us, eqn.y);
    var x, y := EvalAtom(env, eqn.x).value, EvalAtom(env, eqn.y).value;
    OpMeaning(cur, eqn.op, d, ts, w, x, y);
    var (v, w') := InterpretOp(cur, eqn.op, x, y, w).value;
    LaterStaged(d, ts, w, w');
    HoldsLater(cur, d, ts, w, w', env, us);
    var env', us' := env[eqn.binder := v], us + [MeaningIn(cur, d, ts, w', v)];
    forall i | 1 <= i <= |us'|
      ensures i in env' && FitsIn(cur, w', env'[i]) && MeaningIn(cur, d, ts, w', env'[i]) == us'[i - 1]
    {
      if i <= |us| {
        assert env'[i] == env[i];
      }
    }
  }

  /** build_jaxpr returns a closed program in which every equation binds a new name. */
  lemma BuildWellFormed(n: nat, us: seq<Tower>, e: Expr, next: nat)
    requires TowersOk(n, us) && Scoped(e, |us|)
    ensures BuildJaxpr(e, |us|, next).Some?
    ensures var jaxpr := BuildJaxpr(e, |us|, next).value.0;
            && jaxpr.parameters == Parameters(|us|) && WellFormed(|us|, jaxpr.equations)
            && Atom(jaxpr.returnVal, |us| + |jaxpr.equations|)
            && AtomMeaning(n, NameMeanings(n, us, jaxpr.equations), jaxpr.returnVal) == Denote(n, us, e)
  {
    var env, w := NamesOf(Parameters(|us|)), World(next, |us|, []);
    assert Staged(|us|, w) && EnvOk(StagingInterpreter, w, env);
    assert Meanings(StagingInterpreter, n, us, w, env) == us;
    EvaluateMeaning(StagingInterpreter, n, us, env, e, w);
  }

  /** The full round trip: for every program and under every chain of interpreters, also a staging
      one, evaluating the staged program succeeds and means what running the program means. */
  lemma RoundTrip(cur: Interpreter, d: nat, ts: seq<Tower>, w: World, e: Expr, args: seq<Value>, next: nat)
    requires TowersOk(d, ts) && Staged(|ts|, w) && EnvOk(cur, w, args) && Scoped(e, |args|)
    ensures BuildJaxpr(e, |args|, next).Some? && Evaluate(cur, args, e, w).Some?
    ensures var r := EvalJaxpr(cur, BuildJaxpr(e, |args|, next).value.0, args, w);
            && Yields(cur, d, ts, w, r, Denote(Depth(cur, d), Meanings(cur, d, ts, w, args), e))
            && Yields(cur, d, ts, w, Evaluate(cur, args, e, w), Denote(Depth(cur, d), Meanings(cur, d, ts, w, args), e))
  {
    hide Holds, Later, Staged, TowersOk, WellFormed, Evaluate, BuildJaxpr, Denote, EvalEquations, MeaningIn, FitsIn,
      Zip, Atom;
    EvaluateMeaning(cur, d, ts, args, e, w);
    var n, us := Depth(cur, d), Meanings(cur, d, ts, w, args);
    BuildWellFormed(n, us, e, next);
    var jaxpr := BuildJaxpr(e, |args|, next).value.0;
    ArgumentsHold(cur, d, ts, w, args);
    var env := Zip(jaxpr.parameters, args);
    EquationsMeaning(cur, d, ts, w, env, us, jaxpr.equations);
    var (env', w') := EvalEquations(cur, env, jaxpr.equations, w).value;
    LaterStaged(d, ts, w, w');
    AtomHolds(cur, d, ts, w', env', NameMeanings(n, us, jaxpr.equations), jaxpr.returnVal);
  }

  lemma ArgumentsHold(cur: Interpreter, d: nat, ts: seq<Tower>, w: World, args: seq<Value>)
    requires TowersOk(d, ts) && Staged(|ts|, w) && EnvOk(cur, w, args)
    ensures Holds(cur, d, ts, w, Zip(Parameters(|args|), args), Meanings(cur, d, ts, w, args))
  {
    hide MeaningIn, FitsIn, Zip, Staged, TowersOk, Below, ChainBelow;
    var us, env := Meanings(cur, d, ts, w, args), Zip(Parameters(|args|), args);
    ZipMembers(1, Parameters(|args|), args);
    forall i | 1 <= i <= |us|
      ensures i in env && FitsIn(cur, w, env[i]) && MeaningIn(cur, d, ts, w, env[i]) == us[i - 1]
    {
      assert env[i] == args[i - 1];
    }
  }

  /** At the top level the staged program, like the program, computes the formal derivatives. */
  lemma StagedProgramCorrect(e: Expr, xs: seq<real>, next: nat)
    requires Scoped(e, |xs|)
    ensures BuildJaxpr(e, |xs|, next).Some?
    ensures var r := EvalJaxpr(EvalInterpreter, BuildJaxpr(e, |xs|, next).value.0, Nums(xs), World(next, 0, []));
            r.Some? && r.value.0 == Num(RealValue(Formal(e, |xs|), xs))
  {
    var w := World(next, 0, []);
    assert Staged(0, w) && EnvOk(EvalInterpreter, w, Nums(xs));
    RoundTrip(EvalInterpreter, 0, [], w, e, Nums(xs), next);
    ProgramCorrect(e, xs, next);
  }
}
