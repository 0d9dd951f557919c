/** Conditionals made from the same function twice. make_jaxpr caches, so that both branches then have the
    same contents: when such a conditional can be made, when it can be split, and when it can be
    linearized if it depends on no input. */
module SharedBranches {
  import opened Wrappers
  import opened Lists
  import opened Jaxprs
  import opened PartialEvaluation
  import opened PartialEvalProof
  import opened Residuals
  import opened PartialEvalTotal
  import opened Jvp
  import opened JvpTyping
  import opened JvpNames
  import opened ReverseMode
  import opened ReverseModeProof

  // ---------- making the conditional ----------

  /** The branches that cond binds, which are new objects: the constants of both functions become leading
      inputs of both. */
  function Cond(onTrue: Jaxpr, onFalse: Jaxpr, n1: nat, n2: nat): Option<(Jaxpr, Jaxpr)> {
    var joined :- JoinConsts(onTrue, onFalse, n1, n2);
    var ty :- Typecheck(joined.0);
    if Typecheck(joined.1) == Some(ty) then Some(joined) else None
  }

  lemma LevelIsFinal(j: Jaxpr)
    requires Typecheck(j).Some?
    ensures FinalSet(j) == Level(j)
  {
    hide Level;
    var bound := OutsBoundSet(j);
  }

  /** cond returns if and only if the functions have the same type and neither binds a constant of the
      other. */
  lemma CondReturns(j1: Jaxpr, j2: Jaxpr, n1: nat, n2: nat)
    requires Typecheck(j1).Some? && Typecheck(j2).Some? && n1 <= |j1.binders| && n2 <= |j2.binders|
    ensures Cond(j1, j2, n1, n2).Some? <==>
              && Avals(j1.binders[n1..]) == Avals(j2.binders[n2..]) && AtomTys(j1.outs) == AtomTys(j2.outs)
              && ToSet(j2.binders[..n2]) !! Level(j1) && ToSet(j1.binders[..n1]) !! Level(j2)
  {
    hide Level, TypecheckEqns;
    TypecheckTypes(j1);
    TypecheckTypes(j2);
    assert Avals(j1.binders)[n1..] == Avals(j1.binders[n1..]) && Avals(j2.binders)[n2..] == Avals(j2.binders[n2..]);
    if JoinConsts(j1, j2, n1, n2).Some? {
      var (u, v) := JoinConsts(j1, j2, n1, n2).value;
      ConstsJoined(j1, j2, n1, n2, u, v);
    }
  }

  /** A function that binds the constants `c` of the other one after its own. */
  lemma ConstsAfter(j: Jaxpr, c0: seq<Var>, r: seq<Var>, c: seq<Var>, w: Jaxpr)
    requires Typecheck(j).Some? && j.binders == c0 + r && Distinct(c) && w == Jaxpr(c0 + c + r, j.eqns, j.outs)
    ensures Typecheck(w).Some? <==> ToSet(c) !! Level(j)
    ensures Typecheck(w).Some? ==> Typecheck(w) == Some(JaxprType(Avals(w.binders), AtomTys(j.outs)))
  {
    assert Distinct<Var>([]) && ToSet<Var>([]) == {};
    hide Typecheck, Level, FinalSet, Distinct, ToSet, Avals, AtomTys;
    LevelIsFinal(j);
    TypecheckTypes(j);
    assert [] + c0 == c0;
    JoinedSecondStage(j, [], c0, c, r);
    assert {} + ToSet(c) == ToSet(c);
  }

  /** Or before. */
  lemma ConstsBefore(j: Jaxpr, c0: seq<Var>, r: seq<Var>, c: seq<Var>, w: Jaxpr)
    requires Typecheck(j).Some? && j.binders == c0 + r && Distinct(c) && w == Jaxpr(c + c0 + r, j.eqns, j.outs)
    ensures Typecheck(w).Some? <==> ToSet(c) !! Level(j)
    ensures Typecheck(w).Some? ==> Typecheck(w) == Some(JaxprType(Avals(w.binders), AtomTys(j.outs)))
  {
    assert Distinct<Var>([]) && ToSet<Var>([]) == {};
    hide Typecheck, Level, FinalSet, Distinct, ToSet, Avals, AtomTys;
    LevelIsFinal(j);
    TypecheckTypes(j);
    AppendNothing(c + c0, []);
    JoinedSecondStage(j, c, c0, [], r);
    assert ToSet(c) + {} == ToSet(c);
  }

  /** The constants are different variables. */
  lemma DistinctConsts(j: Jaxpr, n: nat)
    requires Typecheck(j).Some? && n <= |j.binders|
    ensures Distinct(j.binders[..n])
  {
    hide Distinct, Level, TypecheckEqns;
    var bound := OutsBoundSet(j);
    assert j.binders == j.binders[..n] + j.binders[n..];
    DistinctParts(j.binders[..n], j.binders[n..]);
  }

  lemma JoinedShape(j1: Jaxpr, j2: Jaxpr, n1: nat, n2: nat, u: Jaxpr, v: Jaxpr)
    requires n1 <= |j1.binders| && n2 <= |j2.binders| && JoinConsts(j1, j2, n1, n2) == Some((u, v))
    ensures u == Jaxpr(j1.binders[..n1] + j2.binders[..n2] + j1.binders[n1..], j1.eqns, j1.outs)
    ensures v == Jaxpr(j1.binders[..n1] + j2.binders[..n2] + j2.binders[n2..], j2.eqns, j2.outs)
  {
    hide Typecheck;
  }

  lemma ConstsJoined(j1: Jaxpr, j2: Jaxpr, n1: nat, n2: nat, u: Jaxpr, v: Jaxpr)
    requires Typecheck(j1).Some? && Typecheck(j2).Some? && n1 <= |j1.binders| && n2 <= |j2.binders|
    requires JoinConsts(j1, j2, n1, n2) == Some((u, v)) && Avals(j1.binders[n1..]) == Avals(j2.binders[n2..])
    ensures Typecheck(u).Some? <==> ToSet(j2.binders[..n2]) !! Level(j1)
    ensures Typecheck(v).Some? <==> ToSet(j1.binders[..n1]) !! Level(j2)
    ensures Typecheck(u).Some? && Typecheck(v).Some? ==>
              (Typecheck(u) == Typecheck(v) <==> AtomTys(j1.outs) == AtomTys(j2.outs))
  {
    hide Typecheck, JoinConsts, Level, Distinct, ToSet, Avals, AtomTys;
    var c1, r1, c2, r2 := j1.binders[..n1], j1.binders[n1..], j2.binders[..n2], j2.binders[n2..];
    assert j1.binders == c1 + r1 && j2.binders == c2 + r2;
    JoinedShape(j1, j2, n1, n2, u, v);
    DistinctConsts(j1, n1);
    DistinctConsts(j2, n2);
    ConstsAfter(j1, c1, r1, c2, u);
    ConstsBefore(j2, c2, r2, c1, v);
    AvalsAppend(c1 + c2, r1);
    AvalsAppend(c1 + c2, r2);
  }

  /** With the same function twice, cond returns if and only if the function has no constants. */
  lemma SameFunction(j: Jaxpr, n: nat)
    requires Typecheck(j).Some? && n <= |j.binders|
    ensures Cond(j, j, n, n).Some? <==> n == 0
  {
    hide Typecheck, OutVars;
    CondReturns(j, j, n, n);
    if n > 0 {
      assert j.binders[0] in ToSet(j.binders[..n]) by {
        assert j.binders[..n][0] == j.binders[0];
      }
    }
  }

  // ---------- splitting it ----------

  /** Another object with the same contents. */
  function Twin(b: Jaxpr, id: nat): Jaxpr {
    b.(id := id)
  }

  lemma TwinAlike(b: Jaxpr, id: nat, unks: seq<bool>, n: nat)
    ensures Typecheck(Twin(b, id)) == Typecheck(b) && KnownPreds(Twin(b, id), unks) == KnownPreds(b, unks)
    ensures NoClash(Twin(b, id), unks) == NoClash(b, unks) && Flow(Twin(b, id), unks) == Flow(b, unks)
    ensures UnknownVars(Twin(b, id), unks) == UnknownVars(b, unks) && NamesBelow(Twin(b, id), n) == NamesBelow(b, n)
    ensures forall inst :: Res(Twin(b, id), unks, inst) == Res(b, unks, inst)
  {
  }

  /** _cond_partial_eval on a conditional whose branches have the same contents returns if and only if the
      branch itself can be split, and without residuals of its own: those would be bound twice. */
  lemma SameBranches(order: Order, b: Jaxpr, id: nat, inputs: seq<Atom>, outs: seq<Var>, unks: seq<bool>, n: nat)
    requires IsOrder(order) && Typecheck(b).Some? && |unks| == |b.binders| && NamesBelow(b, n)
    requires forall v :: v in outs ==> v.id < n
    ensures CondPartialEval(order, CondEqn(b, Twin(b, id), inputs, outs), unks, n).Some? <==>
              KnownPreds(b, unks) && NoClash(b, unks) && Res(b, unks, Flow(b, unks)) == {}
  {
    TwinAlike(b, id, unks, n);
    hide CondPartialEval, KnownPreds, NoClash, Res, UnknownVars, Flow, Typecheck, NamesBelow, CondTys, CondRes, Twin;
    var e := CondEqn(b, Twin(b, id), inputs, outs);
    TypecheckTypes(b);
    CondTotal(order, e, unks, n, Typecheck(b).value.inTypes, Typecheck(b).value.outTypes);
    OrSame(Flow(b, unks));
  }

  lemma OrSame(xs: seq<bool>)
    ensures Or(xs, xs) == xs
  {
  }

  /** Some conditional of the jaxpr has a variable as its predicate. */
  predicate VariablePredicate(eqns: seq<Eqn>) {
    exists i :: 0 <= i < |eqns| && eqns[i].CondEqn? && |eqns[i].inputs| > 0 && eqns[i].inputs[0].V?
  }

  /** The predicate is a residual, whatever is known. */
  lemma {:induction false} PredicateIsResidual(eqns: seq<Eqn>, env: Unknowns)
    requires VariablePredicate(eqns)
    ensures OwnResEqns(eqns, env) != {}
    decreases eqns
  {
    hide CondRes, FlowEqn;
    var i :| 0 <= i < |eqns| && eqns[i].CondEqn? && |eqns[i].inputs| > 0 && eqns[i].inputs[0].V?;
    var flags := Flags(env, eqns[0].inputs);
    if i == 0 {
      assert eqns[0].inputs[0].v in OwnRes(eqns[0], flags);
    } else {
      assert eqns[1..][i - 1] == eqns[i];
      PredicateIsResidual(eqns[1..], WriteUnks(env, FlowEqn(eqns[0], flags), eqns[0].outs));
    }
  }

  // ---------- linearizing it ----------

  /** The program that consists of one such conditional. */
  function OneCond(binders: seq<Var>, b: Jaxpr, id: nat, inputs: seq<Atom>, outs: seq<Var>): Jaxpr {
    Jaxpr(binders, [CondEqn(b, Twin(b, id), inputs, outs)], Atoms(outs))
  }

  /** If no operand is a variable, the JVP takes the conditional over as it is, and linearize returns if
      and only if its branch has no residuals of its own when everything is known. */
  lemma RecordedSameBranches(m: Math, order: Order, names: Naming, binders: seq<Var>, b: Jaxpr, id: nat,
                             inputs: seq<Atom>, outs: seq<Var>, xs: seq<Val>)
    requires Ready(order, names, OneCond(binders, b, id, inputs, outs), xs) && forall x :: x in inputs ==> x.Lit?
    ensures var known := Repeat(false, |b.binders|);
            LinearizeFlat(m, order, names, OneCond(binders, b, id, inputs, outs), xs).Some? <==>
              NoClash(b, known) && Res(b, known, Flow(b, known)) == {}
  {
    hide LinearizeFlat, NoClash, Res, Flow, Typecheck, Allocation, Splittable, OneCond;
    LinearizeReturns(m, order, names, OneCond(binders, b, id, inputs, outs), xs);
    RecordedSplits(names, binders, b, id, inputs, outs);
  }

  lemma RecordedSplits(names: Naming, binders: seq<Var>, b: Jaxpr, id: nat, inputs: seq<Atom>, outs: seq<Var>)
    requires Typecheck(OneCond(binders, b, id, inputs, outs)).Some? && forall x :: x in inputs ==> x.Lit?
    requires Allocation(names, OneCond(binders, b, id, inputs, outs))
    ensures var known := Repeat(false, |b.binders|);
            Splittable(names, OneCond(binders, b, id, inputs, outs)) <==>
              NoClash(b, known) && Res(b, known, Flow(b, known)) == {}
  {
    hide NoClash, Res, Flow, UnknownVars, Typecheck, NamesBelow, JvpJaxpr, Allocated, Level, MadeFor, AllFrom, Scope,
      Apart, Objects, Twin, Separate, InnerBranches, Held, CondScopes;
    var j := OneCond(binders, b, id, inputs, outs);
    OneCondParts(j, b, id, inputs, outs, names.below);
    JvpScope(names, j);
    var d := JvpJaxpr(names, j).value.jaxpr;
    var q := RecordedCond(names, binders, b, id, inputs, outs);
    LevelNew(names, j, d);
    RecordedClash(d, q, b, id, Repeat(false, |binders|) + Repeat(true, |binders|), names.below);
  }

  lemma LevelNew(names: Naming, j: Jaxpr, d: Jaxpr)
    requires Allocated(names, Objects(j)) && forall v :: v in Level(d) ==> MadeFor(names, v, j)
    ensures forall v :: v in Level(d) ==> names.below <= v.id
  {
    hide Level, End;
    ItselfObject(j);
  }

  /** The types of its parts. */
  lemma OneCondParts(j: Jaxpr, b: Jaxpr, id: nat, inputs: seq<Atom>, outs: seq<Var>, n: nat)
    requires Typecheck(j).Some? && NamesBelow(j, n) && j.eqns == [CondEqn(b, Twin(b, id), inputs, outs)]
    ensures Typecheck(b).Some? && |inputs| == |b.binders| + 1 && NamesBelow(b, n)
  {
    var e := j.eqns[0];
    var bound := TypecheckStart(j);
    DistinctOuts(bound, e);
    TypecheckTypes(b);
    assert |AtomTys(inputs)[1..]| == |inputs| - 1;
    hide NamesBelow;
    assert NamesBelowEqn(e, n);
  }

  /** What the JVP records. */
  lemma RecordedCond(names: Naming, binders: seq<Var>, b: Jaxpr, id: nat, inputs: seq<Atom>, outs: seq<Var>)
    returns (q: Eqn)
    requires JvpJaxpr(names, OneCond(binders, b, id, inputs, outs)).Some? && forall x :: x in inputs ==> x.Lit?
    ensures var d := JvpJaxpr(names, OneCond(binders, b, id, inputs, outs)).value.jaxpr;
            d.eqns == [q] && q.CondEqn? && q.onTrue == b && q.onFalse == Twin(b, id) && q.inputs == inputs
  {
    hide WriteTrs, Typecheck, AbstractEval;
    var j := OneCond(binders, b, id, inputs, outs);
    var e := j.eqns[0];
    var ps, ts, trs, r := JvpShape(names, j);
    var ins := ReadTrs(trs, inputs);
    forall i | 0 <= i < |inputs| ensures ins[i] == Plain(inputs[i]) {
      assert inputs[i] in inputs;
    }
    assert Primals(ins) == inputs;
    assert forall t :: t in ins ==> t.Plain?;
    var emitted := JvpEqn(names, e, ins, names.first(j) + 2 * |binders|).value;
    q := emitted.eqns[0];
    assert j.eqns[1..] == [];
    assert r.eqns == emitted.eqns + [];
  }

  /** Whether the residuals of the recorded conditional clash. */
  lemma RecordedClash(d: Jaxpr, q: Eqn, b: Jaxpr, id: nat, flags: seq<bool>, n: nat)
    requires d.eqns == [q] && q.CondEqn? && q.onTrue == b && q.onFalse == Twin(b, id) && |q.inputs| == |b.binders| + 1
    requires forall x :: x in q.inputs ==> x.Lit?
    requires Typecheck(b).Some? && NamesBelow(b, n) && forall v :: v in Level(d) ==> n <= v.id
    ensures var known := Repeat(false, |b.binders|);
            NoClash(d, flags) <==> NoClash(b, known) && Res(b, known, Flow(b, known)) == {}
  {
    var known := Repeat(false, |b.binders|);
    TwinAlike(b, id, known, n);
    hide Typecheck, NamesBelow, Level, WriteUnks, Res, Flow, UnknownVars, Twin;
    var env := WriteUnks(map[], flags, d.binders);
    var f := Flags(env, q.inputs);
    forall i | 0 <= i < |f| ensures !f[i] {
      assert q.inputs[i] in q.inputs;
    }
    assert f[1..] == known;
    OldNames(b, known, Flow(b, known), n);
    OrSame(Flow(b, known));
    assert CondRes(q, f) == Res(b, known, Flow(b, known));
    hide NoClash;
    assert NoClashEqn(q, f) <==> NoClash(b, known) && Res(b, known, Flow(b, known)) == {};
    hide NoClashEqn, CondRes, FlowEqn;
    OneClash(d, q, flags);
  }

  lemma NothingMore(env: Unknowns, level: set<Var>)
    ensures NoClashInside([], env) && ResApart(level, [], env) && CondResEqns([], env) == {}
  {
  }

  lemma OneClash(d: Jaxpr, q: Eqn, flags: seq<bool>)
    requires d.eqns == [q]
    ensures var f := Flags(WriteUnks(map[], flags, d.binders), q.inputs);
            NoClash(d, flags) <==> NoClashEqn(q, f) && CondRes(q, f) !! Level(d)
  {
    hide NoClashEqn, CondRes, FlowEqn, Level, WriteUnks;
    var env := WriteUnks(map[], flags, d.binders);
    var f := Flags(env, q.inputs);
    assert d.eqns[1..] == [];
    NothingMore(WriteUnks(env, FlowEqn(q, f), q.outs), Level(d));
  }

  /** A function that returns 1. */
  function One(): Jaxpr {
    Jaxpr([], [], [Lit(R(1.0))])
  }

  /** A function with a conditional on its argument. */
  function Inner(): Eqn {
    CondEqn(One(), One(), [V(Var(1, Bool))], [Var(2, Float)])
  }

  function Choice(): Jaxpr {
    Jaxpr([Var(1, Bool)], [Inner()], [V(Var(2, Float))])
  }

  /** A conditional that has it as both branches and applies it to a literal. */
  function ChoiceOnLiteral(flag: bool): Jaxpr {
    OneCond([Var(0, Float)], Choice(), 1, [Lit(B(flag)), Lit(B(flag))], [Var(3, Float)])
  }

  lemma InstanceTypes(flag: bool)
    ensures Typecheck(Choice()) == Some(JaxprType([Bool], [Float]))
    ensures Typecheck(ChoiceOnLiteral(flag)) == Some(JaxprType([Float], [Float]))
  {
    var outer := ChoiceOnLiteral(flag).eqns[0];
    ConstantTypes(One());
    hide Typecheck;
    assert AtomTys(Inner().inputs) == [Bool] + [] && AtomTys(outer.inputs) == [Bool] + [Bool];
    assert Avals([Var(1, Bool)]) == [Bool] && Avals([Var(0, Float)]) == [Float];
    ConditionalTypes([Var(1, Bool)], Inner(), [], Var(2, Float));
    ConditionalTypes([Var(0, Float)], outer, [Bool], Var(3, Float));
    assert Atoms([Var(3, Float)]) == [V(Var(3, Float))];
  }

  lemma InstanceValue(m: Math, flag: bool, x: real)
    ensures Eval(m, ChoiceOnLiteral(flag), [R(x)]) == Some([R(1.0)])
  {
    var outer := ChoiceOnLiteral(flag).eqns[0];
    ConstantValue(m, One());
    hide Eval;
    assert Gets(map[Var(1, Bool) := B(flag)], Inner().inputs) == [B(flag)] && [B(flag)][1..] == [];
    assert Gets(map[Var(0, Float) := R(x)], outer.inputs) == [B(flag), B(flag)] && [B(flag), B(flag)][1..] == [B(flag)];
    ConditionalValue(m, [Var(1, Bool)], Inner(), [B(flag)], [B(flag)], Var(2, Float));
    ConditionalValue(m, [Var(0, Float)], outer, [R(x)], [B(flag), B(flag)], Var(3, Float));
    assert Atoms([Var(3, Float)]) == [V(Var(3, Float))];
  }

  /** An instance of the failure. The program is well-typed and can be evaluated, but not linearized. */
  lemma NestedOnLiteral(m: Math, order: Order, names: Naming, flag: bool, x: real)
    requires IsOrder(order) && Allocation(names, ChoiceOnLiteral(flag))
    ensures Typecheck(ChoiceOnLiteral(flag)) == Some(JaxprType([Float], [Float]))
    ensures Eval(m, ChoiceOnLiteral(flag), [R(x)]) == Some([R(1.0)])
    ensures LinearizeFlat(m, order, names, ChoiceOnLiteral(flag), [R(x)]) == None
  {
    hide LinearizeFlat, Typecheck, Eval, NoClash, Flow, NamesBelow, Allocation;
    InstanceTypes(flag);
    InstanceValue(m, flag, x);
    var j := ChoiceOnLiteral(flag);
    assert TypesOf([R(x)]) == [Float] == Avals(j.binders);
    RecordedSameBranches(m, order, names, [Var(0, Float)], Choice(), 1, [Lit(B(flag)), Lit(B(flag))], [Var(3, Float)],
                         [R(x)]);
    ChoiceResidual();
  }

  lemma ChoiceResidual()
    ensures Res(Choice(), Repeat(false, |Choice().binders|), Flow(Choice(), Repeat(false, |Choice().binders|))) != {}
  {
    hide Flow;
    assert Choice().eqns[0].inputs[0].V?;
    PredicateIsResidual(Choice().eqns, WriteUnks(map[], Repeat(false, |Choice().binders|), Choice().binders));
  }

  lemma ConstantTypes(j: Jaxpr)
    requires j == Jaxpr([], [], [Lit(R(1.0))])
    ensures Typecheck(j) == Some(JaxprType([], [Float]))
  {
    assert AtomTys(j.outs) == [Float] && Avals(j.binders) == [];
  }

  lemma ConstantValue(m: Math, j: Jaxpr)
    requires j == Jaxpr([], [], [Lit(R(1.0))])
    ensures Eval(m, j, []) == Some([R(1.0)])
  {
    assert Gets(map[], j.outs) == [R(1.0)];
  }

  /** The type of a program that consists of one conditional. */
  lemma ConditionalTypes(binders: seq<Var>, e: Eqn, tys: seq<Ty>, out: Var)
    requires e.CondEqn? && e.outs == [out] && out.aval == Float && Distinct(binders) && out !in binders
    requires AllBound(ToSet(binders), e.inputs) && AtomTys(e.inputs) == [Bool] + tys
    requires Typecheck(e.onTrue) == Some(JaxprType(tys, [Float])) == Typecheck(e.onFalse)
    ensures Typecheck(Jaxpr(binders, [e], [V(out)])) == Some(JaxprType(Avals(binders), [Float]))
  {
    hide Typecheck, TypecheckEqns;
    assert AtomTys(e.inputs)[1..] == tys && Avals(e.outs) == [Float];
    SingleEqn(ToSet(binders), e);
    assert out in ToSet([out]);
    TypecheckWhole(Jaxpr(binders, [e], [V(out)]), ToSet(binders), ToSet(binders) + ToSet(e.outs));
    assert AtomTys([V(out)]) == [Float];
  }

  lemma ConditionalValue(m: Math, binders: seq<Var>, e: Eqn, args: seq<Val>, vals: seq<Val>, out: Var)
    requires e.CondEqn? && e.outs == [out] && |binders| == |args| == 1 && out !in binders && vals != []
    requires ReadAll(map[binders[0] := args[0]], e.inputs) == Some(vals)
    requires Eval(m, e.onTrue, vals[1..]) == Eval(m, e.onFalse, vals[1..]) == Some([R(1.0)])
    ensures Eval(m, Jaxpr(binders, [e], [V(out)]), args) == Some([R(1.0)])
  {
    hide Eval;
    var j := Jaxpr(binders, [e], [V(out)]);
    var env := map[binders[0] := args[0]];
    assert binders[1..] == [] && args[1..] == [] && [out][1..] == [] && [R(1.0)][1..] == [] && [e][1..] == [];
    assert Write(map[], binders, args) == Some(env);
    assert Bind(m, e, vals) == Some([R(1.0)]);
    var env1 := env[out := R(1.0)];
    assert Write(env, [out], [R(1.0)]) == Some(env1);
    assert EvalEqns(m, [], env1) == Some(env1);
    assert EvalEqns(m, [e], env) == Some(env1);
    assert FinalEnv(m, j, args) == Some(env1);
    assert Gets(env1, [V(out)]) == [R(1.0)];
    EvalIs(m, j, args, env1);
  }

  lemma EvalIs(m: Math, j: Jaxpr, args: seq<Val>, env: Env)
    requires FinalEnv(m, j, args) == Some(env)
    ensures Eval(m, j, args) == ReadAll(env, j.outs)
  {
  }
}
