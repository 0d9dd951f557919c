/** Conditionals made from the same function twice, with an input: exactly when they can be linearized. The
    branches are staged separately, but conditionals inside them are the same objects in both, and so are
    their JVPs. */
module TwinBranches {
  import opened Wrappers
  import opened Lists
  import opened Jaxprs
  import opened PartialEvaluation
  import opened Residuals
  import opened PartialEvalTotal
  import opened Jvp
  import opened JvpTyping
  import opened JvpNames
  import opened Renaming
  import opened ReverseMode
  import opened ReverseModeProof
  import opened SharedBranches

  /** Which inputs of the JVP of a branch are unknown: the tangents of operands that are variables. */
  function BranchUnknowns(inputs: seq<Atom>): (u: seq<bool>)
    requires inputs != []
    ensures |u| == 2 * (|inputs| - 1)
  {
    var k := |inputs| - 1;
    Repeat(false, k) + seq(k, i requires 0 <= i < k => inputs[i + 1].V?)
  }

  /** The residuals of the conditionals inside the JVP of a branch. */
  function InnerResiduals(names: Naming, b: Jaxpr, u: seq<bool>): set<Var> {
    var d := JvpJaxpr(names, b);
    if d.None? then {} else CondResEqns(d.value.jaxpr.eqns, WriteUnks(map[], u, d.value.jaxpr.binders))
  }

  // ---------- residuals of one branch ----------

  /** A residual is a variable of this level or of a conditional. */
  lemma {:induction false} OwnResLevel(eqns: seq<Eqn>, env: Unknowns)
    requires TypecheckEqns(env.Keys, eqns).Some?
    ensures OwnResEqns(eqns, env) <= TypecheckEqns(env.Keys, eqns).value + CondResEqns(eqns, env)
    ensures CondResEqns(eqns, env) <= OwnResEqns(eqns, env)
    decreases eqns
  {
    hide TypecheckEqn, OwnRes, CondRes, FlowEqn;
    if eqns != [] {
      var e := eqns[0];
      var flags := Flags(env, e.inputs);
      DistinctOuts(env.Keys, e);
      FlowLength(e, flags);
      var env1 := WriteUnks(env, FlowEqn(e, flags), e.outs);
      WriteUnksExact(env, FlowEqn(e, flags), e.outs);
      OwnResLevel(eqns[1..], env1);
      TypecheckGrows(env1.Keys, eqns[1..]);
      OwnResHere(e, env);
    }
  }

  lemma OwnResHere(e: Eqn, env: Unknowns)
    requires AllBound(env.Keys, e.inputs)
    ensures OwnRes(e, Flags(env, e.inputs)) <= env.Keys + CondRes(e, Flags(env, e.inputs))
    ensures CondRes(e, Flags(env, e.inputs)) <= OwnRes(e, Flags(env, e.inputs))
  {
    hide Res, Flow;
    KnownOperands(env, e.inputs);
    if e.CondEqn? && e.inputs != [] {
      assert Bound(env.Keys, e.inputs[0]);
    }
  }

  /** The residuals of a jaxpr from which exactly the unknown outputs are asked. */
  lemma ResParts(t: Jaxpr, u: seq<bool>)
    requires Typecheck(t).Some? && |u| == |t.binders|
    ensures var inner := CondResEqns(t.eqns, WriteUnks(map[], u, t.binders));
            inner <= Res(t, u, Flow(t, u)) <= Level(t) + inner && UnknownVars(t, u) <= Level(t)
  {
    hide OwnResEqns, CondResEqns, Level, TypecheckEqns, Flow;
    var bound := OutsBoundSet(t);
    var env := WriteUnks(map[], u, t.binders);
    WriteUnksExact(map[], u, t.binders);
    assert env.Keys == bound;
    OwnResLevel(t.eqns, env);
    ResScope(t, u, Flow(t, u));
    assert Asked(t.outs, Flow(t, u), Flow(t, u)) == {};
  }

  // ---------- the two branches ----------

  /** Residuals that clash are those of conditionals inside: the two JVPs share nothing else. */
  lemma TwinClash(names: Naming, b: Jaxpr, id: nat, u: seq<bool>)
    requires Typecheck(b).Some? && |u| == 2 * |b.binders| && id != b.id && NamesBelow(b, names.below)
    requires Allocated(names, Objects(b) + Objects(Twin(b, id)))
    ensures JvpJaxpr(names, b).Some? && JvpJaxpr(names, Twin(b, id)).Some?
    ensures var t, f := JvpJaxpr(names, b).value.jaxpr, JvpJaxpr(names, Twin(b, id)).value.jaxpr;
            && (NoClash(t, u) && NoClash(f, u) && Joinable(t, f, u) <==>
                NoClash(t, u) && InnerResiduals(names, b, u) == {})
            && (InnerResiduals(names, b, u) == {} ==>
                  Res(t, u, Or(Flow(t, u), Flow(f, u))) <= Level(t)
                  && Res(f, u, Or(Flow(t, u), Flow(f, u))) <= Level(f))
  {
    hide JvpJaxpr, Typecheck, NoClash, Joinable, Level, AllFrom, MadeFor, Scope, Apart, Separate, Held, InnerBranches,
      Objects, Allocated, NamesBelow, Res, Flow, CondResEqns, WriteUnks, CondScopes, UnknownVars;
    var c := Twin(b, id);
    SameType(b, id);
    JvpScope(names, b);
    JvpScope(names, c);
    JvpTotal(names, b);
    JvpTotal(names, c);
    TwinResiduals(names, b, id, u);
    var t, f := JvpJaxpr(names, b).value.jaxpr, JvpJaxpr(names, c).value.jaxpr;
    StagedBinders(names, b);
    StagedBinders(names, c);
    ResParts(t, u);
    ResParts(f, u);
    var inner := InnerResiduals(names, b, u);
    LevelsApart(names, b, id, t, f);
    InnerForeign(names, b, id, t, f, u);
    OrSame(Flow(t, u));
    ClashCases(t, f, u, inner);
  }

  lemma StagedBinders(names: Naming, b: Jaxpr)
    requires JvpJaxpr(names, b).Some?
    ensures |JvpJaxpr(names, b).value.jaxpr.binders| == 2 * |b.binders|
  {
    hide JvpEqns, WriteTrs, Typecheck;
    var ps, ts, trs, r := JvpShape(names, b);
  }

  lemma LevelsApart(names: Naming, b: Jaxpr, id: nat, t: Jaxpr, f: Jaxpr)
    requires id != b.id && Allocated(names, Objects(b) + Objects(Twin(b, id)))
    requires (forall v :: v in Level(t) ==> MadeFor(names, v, b))
             && forall v :: v in Level(f) ==> MadeFor(names, v, Twin(b, id))
    ensures Level(t) !! Level(f)
  {
    hide Level, MadeFor, Objects;
    ItselfObject(b);
    ItselfObject(Twin(b, id));
    forall v | v in Level(t) ensures v !in Level(f) {
      assert MadeFor(names, v, b);
      assert v in Level(f) ==> MadeFor(names, v, Twin(b, id));
    }
  }

  /** The other branch does not occur inside this one. */
  lemma TwinOutside(b: Jaxpr, id: nat)
    ensures Twin(b, id) !in InnerBranches(b) && b !in InnerBranches(b)
  {
    hide BranchesEqns, ObjectsEqns, SizeEqns;
    InnerObjects(b);
    BranchesObjects(b.eqns, {});
    if Twin(b, id) in InnerBranches(b) {
      ObjectsSmaller(b.eqns, Twin(b, id));
    }
  }

  /** What conditionals inside hand on is no variable of either branch itself. */
  lemma InnerForeign(names: Naming, b: Jaxpr, id: nat, t: Jaxpr, f: Jaxpr, u: seq<bool>)
    requires JvpJaxpr(names, b).Some? && JvpJaxpr(names, b).value.jaxpr == t && Typecheck(t).Some? && |u| == |t.binders|
    requires Allocated(names, Objects(b) + Objects(Twin(b, id))) && NamesBelow(b, names.below)
    requires AllFrom(names, CondScopes(t.eqns), Held(b), InnerBranches(b))
    requires forall v :: v in Level(f) ==> MadeFor(names, v, Twin(b, id))
    ensures InnerResiduals(names, b, u) !! Level(f)
  {
    hide JvpJaxpr, Typecheck, Level, MadeFor, Objects, Allocated, NamesBelow, CondResEqns, CondScopes, Held,
      InnerBranches, OwnResEqns, FlowEqns, AllFrom, TypecheckEqns;
    var bound := OutsBoundSet(t);
    WriteUnksExact(map[], u, t.binders);
    var env := WriteUnks(map[], u, t.binders);
    assert env.Keys == bound;
    ResScopes(t.eqns, env);
    TwinOutside(b, id);
    InnerObjects(b);
    ItselfObject(Twin(b, id));
    AllocatedLess(names, Objects(b) + Objects(Twin(b, id)), InnerBranches(b) + {Twin(b, id)});
    HeldOld(b, names.below);
    LevelFrom(names, Level(f), Twin(b, id));
    FromApart(names, CondScopes(t.eqns), Level(f), Held(b), {}, InnerBranches(b), {Twin(b, id)});
  }

  lemma ClashCases(t: Jaxpr, f: Jaxpr, u: seq<bool>, inner: set<Var>)
    requires var env, env' := WriteUnks(map[], u, t.binders), WriteUnks(map[], u, f.binders);
             && inner == CondResEqns(t.eqns, env) == CondResEqns(f.eqns, env') && Flow(f, u) == Flow(t, u)
             && NoClashInside(f.eqns, env') == NoClashInside(t.eqns, env)
             && ResApart({}, f.eqns, env') == ResApart({}, t.eqns, env)
    requires Or(Flow(t, u), Flow(t, u)) == Flow(t, u)
    requires inner <= Res(t, u, Flow(t, u)) <= Level(t) + inner && UnknownVars(t, u) <= Level(t)
    requires inner <= Res(f, u, Flow(f, u)) <= Level(f) + inner && UnknownVars(f, u) <= Level(f)
    requires Level(t) !! Level(f) && inner !! Level(f)
    ensures NoClash(t, u) && NoClash(f, u) && Joinable(t, f, u) <==> NoClash(t, u) && inner == {}
    ensures inner == {} ==>
              Res(t, u, Or(Flow(t, u), Flow(f, u))) <= Level(t) && Res(f, u, Or(Flow(t, u), Flow(f, u))) <= Level(f)
  {
    hide CondResEqns, WriteUnks, NoClashInside, ResApart, Level, Res, Flow, UnknownVars;
    ResApartFrom(Level(t), t.eqns, WriteUnks(map[], u, t.binders));
    ResApartFrom(Level(f), f.eqns, WriteUnks(map[], u, f.binders));
  }

  // ---------- the program ----------

  /** The staged conditional, and which of its operands are unknown. */
  lemma TracedCond(names: Naming, binders: seq<Var>, b: Jaxpr, id: nat, inputs: seq<Atom>, outs: seq<Var>)
    returns (q: Eqn)
    requires Typecheck(OneCond(binders, b, id, inputs, outs)).Some? && exists i :: 0 <= i < |inputs| && inputs[i].V?
    ensures inputs != [] && JvpJaxpr(names, OneCond(binders, b, id, inputs, outs)).Some?
    ensures JvpJaxpr(names, b).Some? && JvpJaxpr(names, Twin(b, id)).Some?
    ensures var d := JvpJaxpr(names, OneCond(binders, b, id, inputs, outs)).value.jaxpr;
            && d.eqns == [q] && q.CondEqn?
            && q.onTrue == JvpJaxpr(names, b).value.jaxpr && q.onFalse == JvpJaxpr(names, Twin(b, id)).value.jaxpr
            && Flags(WriteUnks(map[], Repeat(false, |binders|) + Repeat(true, |binders|), d.binders), q.inputs)
               == [false] + BranchUnknowns(inputs)
  {
    hide WriteTrs, Typecheck, JvpJaxpr, JvpEqn, BindVars, Traces, TrEnvOk, WriteUnks, FreshVars, Distinct;
    var j := OneCond(binders, b, id, inputs, outs);
    var e := j.eqns[0];
    assert j.eqns[1..] == [];
    JvpTotal(names, j);
    var s, start := StartOk(names, j);
    var ps, ts, trs, r := JvpShape(names, j);
    var bound := BindersOf(j);
    DistinctOuts(bound, e);
    TracersOf(binders, ps, ts, trs, names.first(j));
    var ins := ReadTrs(trs, inputs);
    var i :| 0 <= i < |inputs| && inputs[i].V?;
    assert Bound(bound, inputs[i]) && ins[i] == trs[inputs[i].v];
    var emitted := JvpEqn(names, e, ins, names.first(j) + 2 * |binders|).value;
    q := TracedRule(names, e, ins, names.first(j) + 2 * |binders|, i);
    assert r.eqns == emitted.eqns + [];
    assert r.eqns == [q];
    InputFlags(inputs, trs, WriteUnks(map[], Repeat(false, |binders|) + Repeat(true, |binders|), ps + ts));
  }

  /** The rule of a conditional with a tracer among its operands. */
  lemma TracedRule(names: Naming, e: Eqn, ins: seq<Tr>, n: nat, i: nat) returns (q: Eqn)
    requires e.CondEqn? && i < |ins| && ins[i].Dual? && JvpEqn(names, e, ins, n).Some?
    ensures JvpJaxpr(names, e.onTrue).Some? && JvpJaxpr(names, e.onFalse).Some?
    ensures JvpEqn(names, e, ins, n).value.eqns == [q] && q.CondEqn?
    ensures q.onTrue == JvpJaxpr(names, e.onTrue).value.jaxpr && q.onFalse == JvpJaxpr(names, e.onFalse).value.jaxpr
    ensures q.inputs == [Primal(ins[0])] + (Primals(ins[1..]) + Tangents(ins[1..]))
  {
    hide JvpJaxpr, Typecheck, AbstractEval;
    assert ins[i] in ins;
    q := JvpRule(names, e, ins, n).value.eqns[0];
  }

  lemma BindersOf(j: Jaxpr) returns (bound: set<Var>)
    requires Typecheck(j).Some? && |j.eqns| > 0
    ensures bound == ToSet(j.binders) && TypecheckEqn(bound, j.eqns[0]).Some? && Distinct(j.binders)
  {
    bound := OutsBoundSet(j);
  }

  /** The binders are tracers with a known primal and an unknown tangent. */
  lemma TracersOf(vs: seq<Var>, ps: seq<Var>, ts: seq<Var>, trs: TrEnv, n: nat)
    requires Distinct(vs) && ps == FreshVars(Avals(vs), n) && ts == FreshVars(Avals(vs), n + |vs|)
    requires WriteTrs(map[], vs, Duals(ps, ts)) == Some(trs)
    ensures trs.Keys == ToSet(vs)
    ensures var env := WriteUnks(map[], Repeat(false, |vs|) + Repeat(true, |vs|), ps + ts);
            forall v :: v in vs ==> v in trs && trs[v].Dual? && !Flag(env, trs[v].primal) && Flag(env, trs[v].tangent)
  {
    hide WriteTrs, WriteUnks, Distinct;
    WriteTrsSpec(map[], vs, Duals(ps, ts));
    assert {} + ToSet(vs) == ToSet(vs);
    StartFlags(Avals(vs), n, Repeat(true, |vs|), ps, ts);
    var env := WriteUnks(map[], Repeat(false, |vs|) + Repeat(true, |vs|), ps + ts);
    forall v | v in vs ensures v in trs && trs[v].Dual? && !Flag(env, trs[v].primal) && Flag(env, trs[v].tangent) {
      var i :| 0 <= i < |vs| && vs[i] == v;
      assert trs[vs[i]] == Duals(ps, ts)[i];
    }
  }

  lemma InputFlags(inputs: seq<Atom>, trs: TrEnv, env: Unknowns)
    requires inputs != [] && AllBound(trs.Keys, inputs)
    requires forall v :: v in trs ==> trs[v].Dual? && !Flag(env, trs[v].primal) && Flag(env, trs[v].tangent)
    ensures var ins := ReadTrs(trs, inputs);
            Flags(env, [Primal(ins[0])] + (Primals(ins[1..]) + Tangents(ins[1..]))) == [false] + BranchUnknowns(inputs)
  {
    var ins, k := ReadTrs(trs, inputs), |inputs| - 1;
    forall i | 0 <= i < |inputs| ensures !Flag(env, Primal(ins[i])) && Flag(env, Tangent(ins[i])) == inputs[i].V? {
      assert Bound(trs.Keys, inputs[i]);
    }
    var xs := [Primal(ins[0])] + (Primals(ins[1..]) + Tangents(ins[1..]));
    forall i | 0 <= i < |xs| ensures Flag(env, xs[i]) == ([false] + BranchUnknowns(inputs))[i] {
      if 0 < i <= k {
        assert xs[i] == Primal(ins[i]);
      } else if i > k {
        assert xs[i] == Tangent(ins[i - k]);
      }
    }
  }

  lemma TracedSplits(names: Naming, binders: seq<Var>, b: Jaxpr, id: nat, inputs: seq<Atom>, outs: seq<Var>)
    requires Typecheck(OneCond(binders, b, id, inputs, outs)).Some? && exists i :: 0 <= i < |inputs| && inputs[i].V?
    requires Allocation(names, OneCond(binders, b, id, inputs, outs)) && id != b.id
    ensures inputs != [] && JvpJaxpr(names, b).Some?
    ensures var u := BranchUnknowns(inputs);
            Splittable(names, OneCond(binders, b, id, inputs, outs)) <==>
              NoClash(JvpJaxpr(names, b).value.jaxpr, u) && InnerResiduals(names, b, u) == {}
  {
    hide JvpJaxpr, Typecheck, NoClash, Level, MadeFor, Scope, Apart, Separate, Held, InnerBranches, Objects,
      Allocated, NamesBelow, Res, Flow, CondScopes, UnknownVars, Joinable, InnerResiduals, BranchUnknowns, AllFrom,
      WriteUnks;
    var j, c := OneCond(binders, b, id, inputs, outs), Twin(b, id);
    var q := TracedCond(names, binders, b, id, inputs, outs);
    OneCondParts(j, b, id, inputs, outs, names.below);
    var u := BranchUnknowns(inputs);
    CondObjects(j, b, c);
    AllocatedLess(names, Objects(j), Objects(b) + Objects(c));
    TwinClash(names, b, id, u);
    var d := JvpJaxpr(names, j).value.jaxpr;
    var t, f := JvpJaxpr(names, b).value.jaxpr, JvpJaxpr(names, c).value.jaxpr;
    var flags := [false] + u;
    assert flags[1..] == u;
    OneClash(d, q, Repeat(false, |binders|) + Repeat(true, |binders|));
    QueryClash(q, t, f, u);
    if InnerResiduals(names, b, u) == {} {
      SameType(b, id);
      LevelsOutside(names, j, b, c, d, t, f);
    }
  }

  lemma CondObjects(j: Jaxpr, b: Jaxpr, c: Jaxpr)
    requires |j.eqns| == 1 && j.eqns[0].CondEqn? && j.eqns[0].onTrue == b && j.eqns[0].onFalse == c
    ensures Objects(b) + Objects(c) <= Objects(j) && j !in Objects(b) && j !in Objects(c)
  {
    assert Objects(j) == {j} + ObjectsEqns(j.eqns) && Size(j) == 1 + SizeEqns(j.eqns);
    hide Objects, Size;
    assert j.eqns[1..] == [] && ObjectsEqns([]) == {} && SizeEqns([]) == 0;
    assert ObjectsEqns(j.eqns) == ObjectsEqn(j.eqns[0]) + ObjectsEqns([]);
    assert SizeEqns(j.eqns) == SizeEqn(j.eqns[0]) + SizeEqns([]);
    if j in Objects(b) {
      ObjectSmaller(b, j);
    }
    if j in Objects(c) {
      ObjectSmaller(c, j);
    }
  }

  lemma QueryClash(q: Eqn, t: Jaxpr, f: Jaxpr, u: seq<bool>)
    requires q.CondEqn? && q.onTrue == t && q.onFalse == f
    ensures NoClashEqn(q, [false] + u) <==> NoClash(t, u) && NoClash(f, u) && Joinable(t, f, u)
    ensures var inst := Or(Flow(t, u), Flow(f, u)); CondRes(q, [false] + u) == Res(t, u, inst) + Res(f, u, inst)
  {
    hide NoClash, Joinable, Res, Flow;
    assert ([false] + u)[1..] == u;
  }

  /** The branches and the program around them have different variables. */
  lemma LevelsOutside(names: Naming, j: Jaxpr, b: Jaxpr, c: Jaxpr, d: Jaxpr, t: Jaxpr, f: Jaxpr)
    requires Allocated(names, Objects(j)) && Objects(b) + Objects(c) <= Objects(j) && j !in Objects(b)
             && j !in Objects(c)
    requires Typecheck(j).Some? && Typecheck(b).Some? && Typecheck(c).Some?
    requires JvpJaxpr(names, j).Some? && JvpJaxpr(names, j).value.jaxpr == d
    requires JvpJaxpr(names, b).Some? && JvpJaxpr(names, b).value.jaxpr == t
    requires JvpJaxpr(names, c).Some? && JvpJaxpr(names, c).value.jaxpr == f
    ensures Level(t) + Level(f) !! Level(d)
  {
    hide JvpJaxpr, Typecheck, Level, MadeFor, Objects, AllFrom, Scope, Apart, Separate, Held, InnerBranches,
      CondScopes, NamesBelow;
    ItselfObject(j);
    ItselfObject(b);
    ItselfObject(c);
    JvpScope(names, j);
    JvpScope(names, b);
    JvpScope(names, c);
    forall v | v in Level(t) + Level(f) ensures v !in Level(d) {
      assert v in Level(t) ==> MadeFor(names, v, b);
      assert v in Level(f) ==> MadeFor(names, v, c);
      assert v in Level(d) ==> MadeFor(names, v, j);
    }
  }

  /** A conditional with an input, made from the same function twice, is linearized if and only if the JVP
      of the branch can be split and the conditionals inside it have no residuals of their own: these are
      the same variables in both branches. */
  lemma TracedSameBranches(m: Math, order: Order, names: Naming, binders: seq<Var>, b: Jaxpr, id: nat,
                           inputs: seq<Atom>, outs: seq<Var>, xs: seq<Val>)
    requires Ready(order, names, OneCond(binders, b, id, inputs, outs), xs) && id != b.id
    requires exists i :: 0 <= i < |inputs| && inputs[i].V?
    ensures inputs != [] && JvpJaxpr(names, b).Some?
    ensures var u := BranchUnknowns(inputs);
            LinearizeFlat(m, order, names, OneCond(binders, b, id, inputs, outs), xs).Some? <==>
              NoClash(JvpJaxpr(names, b).value.jaxpr, u) && InnerResiduals(names, b, u) == {}
  {
    hide LinearizeFlat, NoClash, JvpJaxpr, Typecheck, Allocation, Splittable, OneCond, InnerResiduals, BranchUnknowns;
    LinearizeReturns(m, order, names, OneCond(binders, b, id, inputs, outs), xs);
    TracedSplits(names, binders, b, id, inputs, outs);
  }

  /** In particular if conditionals occur in the branch inside calls only, and are separate there. */
  lemma FlatSameBranches(m: Math, order: Order, names: Naming, binders: seq<Var>, b: Jaxpr, id: nat,
                         inputs: seq<Atom>, outs: seq<Var>, xs: seq<Val>)
    requires Ready(order, names, OneCond(binders, b, id, inputs, outs), xs) && id != b.id
    requires exists i :: 0 <= i < |inputs| && inputs[i].V?
    requires Separate(b) && forall e :: e in b.eqns ==> !e.CondEqn?
    ensures LinearizeFlat(m, order, names, OneCond(binders, b, id, inputs, outs), xs).Some?
  {
    hide LinearizeFlat, Splittable, Typecheck, Allocation, Separate, OneCond;
    FlatSeparate(binders, b, id, inputs, outs);
    SeparateSplits(names, OneCond(binders, b, id, inputs, outs));
    LinearizeReturns(m, order, names, OneCond(binders, b, id, inputs, outs), xs);
  }

  lemma FlatSeparate(binders: seq<Var>, b: Jaxpr, id: nat, inputs: seq<Atom>, outs: seq<Var>)
    requires id != b.id && exists i :: 0 <= i < |inputs| && inputs[i].V?
    requires Separate(b) && forall e :: e in b.eqns ==> !e.CondEqn?
    ensures Separate(OneCond(binders, b, id, inputs, outs))
  {
    hide Separate, InnerBranches, Held, Meets;
    var j := OneCond(binders, b, id, inputs, outs);
    TwinInside(b, id);
    MeetsInput(j.eqns[0]);
    OneSeparate(j, b, Twin(b, id));
  }

  /** What a branch without conditionals contributes. */
  lemma TwinInside(b: Jaxpr, id: nat)
    requires forall e :: e in b.eqns ==> !e.CondEqn?
    ensures InnerBranches(b) == {} == InnerBranches(Twin(b, id)) && Held(b) == {} == Held(Twin(b, id))
    ensures Separate(Twin(b, id)) == Separate(b)
  {
    hide BranchesEqns, HeldEqns, SeparateEqns;
    FlatBranches(b.eqns, {});
  }

  lemma MeetsInput(e: Eqn)
    requires exists i :: 0 <= i < |e.inputs| && e.inputs[i].V?
    ensures Meets(e, {})
  {
  }

  lemma OneSeparate(j: Jaxpr, b: Jaxpr, c: Jaxpr)
    requires |j.eqns| == 1 && j.eqns[0].CondEqn? && j.eqns[0].onTrue == b && j.eqns[0].onFalse == c
    requires Meets(j.eqns[0], {}) && b != c && Separate(b) && Separate(c)
    requires InnerBranches(b) == {} == InnerBranches(c) && Held(b) == {} == Held(c)
    ensures Separate(j)
  {
    hide InnerBranches, Held, Meets;
    var e := j.eqns[0];
    assert SeparateEqn(e, {}) by {
      hide Separate;
    }
    hide SeparateEqn, BranchesEqn, HeldEqn;
    assert j.eqns[1..] == [];
    NothingSeparate(PlainAfter(e, {}));
    assert SeparateEqns(j.eqns, {});
  }

  lemma NothingSeparate(plain: set<Var>)
    ensures SeparateEqns([], plain) && BranchesEqns([], plain) == {} && HeldEqns([], plain) == {}
  {
  }

  lemma {:induction false} FlatBranches(eqns: seq<Eqn>, plain: set<Var>)
    requires forall e :: e in eqns ==> !e.CondEqn?
    ensures BranchesEqns(eqns, plain) == {} && HeldEqns(eqns, plain) == {}
    decreases eqns
  {
    hide Meets;
    if eqns != [] {
      assert eqns[0] in eqns && forall e :: e in eqns[1..] ==> e in eqns;
      FlatBranches(eqns[1..], PlainAfter(eqns[0], plain));
    }
  }
}
