/** Exactly when eval_jaxpr_transposed returns: no equation but add, neg and mul, exactly one
    linear operand of each mul, known predicates, and the same inside calls and branches. */
module TransposeTotal {
  import opened Wrappers
  import opened Lists
  import opened Jaxprs
  import opened Soundness
  import opened Transposition
  import opened PartialEvalProof

  function PrimalTy(p: Primal): Ty {
    if p.Known? then TypeOf(p.val) else p.aval
  }

  function PrimalTys(ins: seq<Primal>): (r: seq<Ty>)
    ensures |r| == |ins| && forall i :: 0 <= i < |ins| ==> r[i] == PrimalTy(ins[i])
  {
    seq(|ins|, i requires 0 <= i < |ins| => PrimalTy(ins[i]))
  }

  function Undefs(ins: seq<Primal>): (r: seq<bool>)
    ensures |r| == |ins| && forall i :: 0 <= i < |ins| ==> r[i] == ins[i].Undef?
  {
    seq(|ins|, i requires 0 <= i < |ins| => ins[i].Undef?)
  }

  /** The cotangents that are not cut off have the types of the outputs. */
  ghost predicate CtsFit(cts: seq<Val>, tys: seq<Ty>) {
    forall i :: 0 <= i < |cts| && i < |tys| ==> TypeOf(cts[i]) == tys[i]
  }

  ghost predicate OptsFit(vals: seq<Option<Val>>, tys: seq<Ty>) {
    forall i :: 0 <= i < |vals| && i < |tys| && vals[i].Some? ==> TypeOf(vals[i].value) == tys[i]
  }

  lemma {:induction false} ReadCtsTyped(ct: CtEnv, vs: seq<Var>)
    requires WellTyped(ct)
    ensures TypesOf(ReadCts(ct, vs).0) == Avals(vs) && WellTyped(ReadCts(ct, vs).1)
    decreases vs
  {
    if vs != [] {
      ReadCtsTyped(ct - {vs[0]}, vs[1..]);
      var r := ReadCts(ct - {vs[0]}, vs[1..]).0;
      assert ReadCts(ct, vs).0[1..] == r;
      forall i | 0 <= i < |vs| ensures TypeOf(ReadCts(ct, vs).0[i]) == vs[i].aval {
        if i > 0 {
          assert TypesOf(r)[i - 1] == Avals(vs[1..])[i - 1];
        }
      }
    }
  }

  lemma {:induction false} WriteCtsTyped(ct: CtEnv, xs: seq<Atom>, vals: seq<Option<Val>>)
    requires WellTyped(ct) && OptsFit(vals, AtomTys(xs))
    ensures WriteCts(ct, xs, vals).Some? && WellTyped(WriteCts(ct, xs, vals).value)
    decreases xs
  {
    if xs != [] && vals != [] {
      assert OptsFit(vals[1..], AtomTys(xs[1..])) by {
        forall i | 0 <= i < |vals[1..]| && i < |xs[1..]| && vals[1..][i].Some?
          ensures TypeOf(vals[1..][i].value) == AtomTys(xs[1..])[i]
        {
          assert AtomTys(xs)[i + 1] == AtomTys(xs[1..])[i] && vals[i + 1] == vals[1..][i];
        }
      }
      if xs[0].Lit? || vals[0].None? {
        WriteCtsTyped(ct, xs[1..], vals[1..]);
      } else {
        var v, val := xs[0].v, vals[0].value;
        assert AtomTys(xs)[0] == v.aval;
        var sum := (if v in ct then AddVals(ct[v], val) else Some(val)).value;
        WriteCtsTyped(ct[v := sum], xs[1..], vals[1..]);
      }
    }
  }

  lemma {:induction false} ScatterTotal(ins: seq<Primal>, outs: seq<Val>, tys: seq<Ty>)
    requires |tys| == |ins| && TypesOf(outs) == Select(Undefs(ins), true, tys)
    ensures Scatter(ins, outs).Some? && |Scatter(ins, outs).value| == |ins|
    ensures OptsFit(Scatter(ins, outs).value, tys)
  {
    if ins != [] {
      assert Undefs(ins)[1..] == Undefs(ins[1..]);
      if ins[0].Known? {
        ScatterTotal(ins[1..], outs, tys[1..]);
      } else {
        assert TypesOf(outs)[0] == tys[0];
        assert TypesOf(outs[1..]) == TypesOf(outs)[1..];
        assert Select(Undefs(ins), true, tys)[1..] == Select(Undefs(ins[1..]), true, tys[1..]);
        ScatterTotal(ins[1..], outs[1..], tys[1..]);
      }
    }
  }

  lemma PrimTotal(p: Prim, cts: seq<Val>, ins: seq<Primal>)
    requires AbstractEvalPrim(p, PrimalTys(ins)).Some?
    requires TypesOf(cts) == AbstractEvalPrim(p, PrimalTys(ins)).value
    ensures TransposePrim(p, cts, ins).Some? <==> RuleApplies(PrimEqn(p, [], []), Undefs(ins))
    ensures TransposePrim(p, cts, ins).Some? ==> OptsFit(TransposePrim(p, cts, ins).value, PrimalTys(ins))
  {
    assert forall i :: 0 <= i < |ins| ==> PrimalTys(ins)[i] == PrimalTy(ins[i]);
    assert |cts| == 1 && TypesOf(cts)[0] == TypeOf(cts[0]);
  }

  lemma {:induction false} RuleTotal(e: Eqn, cts: seq<Val>, ins: seq<Primal>)
    requires AbstractEval(e, PrimalTys(ins)).Some? && TypesOf(cts) == AbstractEval(e, PrimalTys(ins)).value
    ensures TransposeRule(e, cts, ins).Some? <==> RuleApplies(e, Undefs(ins))
    ensures TransposeRule(e, cts, ins).Some? ==> OptsFit(TransposeRule(e, cts, ins).value, PrimalTys(ins))
    decreases e, 0
  {
    hide Typecheck, Transpose, Transposable, Scatter, TransposePrim, Select;
    match e
    case PrimEqn(p, _, _) =>
      PrimTotal(p, cts, ins);
    case CallEqn(body, _, _) =>
      BodyTotal(body, cts, ins);
    case CondEqn(onTrue, onFalse, _, _) =>
      assert PrimalTys(ins)[1..] == PrimalTys(ins[1..]) && Undefs(ins)[1..] == Undefs(ins[1..]);
      BodyTotal(onTrue, cts, ins[1..]);
      BodyTotal(onFalse, cts, ins[1..]);
      if TransposeRule(e, cts, ins).Some? {
        var r := TransposeRule(e, cts, ins).value;
        assert r[1..] == (if Truthy(ins[0].val) then Scatter(ins[1..], Transpose(onTrue, ins[1..], cts).value)
                          else Scatter(ins[1..], Transpose(onFalse, ins[1..], cts).value)).value;
        forall i | 0 <= i < |r| && i < |ins| && r[i].Some? ensures TypeOf(r[i].value) == PrimalTys(ins)[i] {
          assert r[i] == r[1..][i - 1];
        }
      }
  }

  lemma {:induction false} BodyTotal(j: Jaxpr, cts: seq<Val>, ins: seq<Primal>)
    requires Typecheck(j).Some? && Typecheck(j).value.inTypes == PrimalTys(ins)
    requires TypesOf(cts) == Typecheck(j).value.outTypes
    ensures Transpose(j, ins, cts).Some? <==> Transposable(j, Undefs(ins))
    ensures Transpose(j, ins, cts).Some? ==>
              && Scatter(ins, Transpose(j, ins, cts).value).Some?
              && OptsFit(Scatter(ins, Transpose(j, ins, cts).value).value, PrimalTys(ins))
    decreases j, 2
  {
    hide Typecheck, Transpose, Transposable, Scatter, Select;
    TypecheckTypes(j);
    TransposeReturns(j, ins, cts);
    if Transpose(j, ins, cts).Some? {
      SelectPointwise(Undefs(ins), true, j.binders, Avals(j.binders), (v: Var) => v.aval);
      assert Select(Undefs(ins), true, Avals(j.binders)) == Avals(Select(Undefs(ins), true, j.binders));
      ScatterTotal(ins, Transpose(j, ins, cts).value, Avals(j.binders));
    }
  }

  lemma ReadPrimalsTyped(primals: Env, xs: seq<Atom>)
    requires WellTyped(primals)
    ensures PrimalTys(ReadPrimals(primals, xs)) == AtomTys(xs)
    ensures Undefs(ReadPrimals(primals, xs)) == UndefFlags(primals.Keys, xs)
  {
  }

  lemma {:induction false} EqnTotal(e: Eqn, bound: set<Var>, primals: Env, ct: CtEnv)
    requires TypecheckEqn(bound, e).Some? && WellTyped(primals) && WellTyped(ct)
    ensures TransposeEqn(e, primals, ct).Some? <==> RuleApplies(e, UndefFlags(primals.Keys, e.inputs))
    ensures TransposeEqn(e, primals, ct).Some? ==> WellTyped(TransposeEqn(e, primals, ct).value)
    decreases e, 1
  {
    hide TransposeRule, RuleApplies, AbstractEval, ReadCts, WriteCts;
    var (cts, ct1) := ReadCts(ct, e.outs);
    ReadCtsTyped(ct, e.outs);
    ReadPrimalsTyped(primals, e.inputs);
    var ins := ReadPrimals(primals, e.inputs);
    RuleTotal(e, cts, ins);
    if TransposeRule(e, cts, ins).Some? {
      WriteCtsTyped(ct1, e.inputs, TransposeRule(e, cts, ins).value);
    }
  }

  lemma {:induction false} EqnsTotal(eqns: seq<Eqn>, bound: set<Var>, primals: Env, ct: CtEnv)
    requires TypecheckEqns(bound, eqns).Some? && WellTyped(primals) && WellTyped(ct)
    ensures TransposeEqns(eqns, primals, ct).Some?
       <==> forall e :: e in eqns ==> RuleApplies(e, UndefFlags(primals.Keys, e.inputs))
    ensures TransposeEqns(eqns, primals, ct).Some? ==> WellTyped(TransposeEqns(eqns, primals, ct).value)
    decreases eqns, 0
  {
    hide TransposeEqn, TypecheckEqn, RuleApplies;
    if eqns != [] {
      assert eqns == [eqns[0]] + eqns[1..];
      EqnsTotal(eqns[1..], TypecheckEqn(bound, eqns[0]).value, primals, ct);
      var tail := TransposeEqns(eqns[1..], primals, ct);
      if tail.Some? {
        EqnTotal(eqns[0], bound, primals, tail.value);
      }
    }
  }

  lemma {:induction false} WritePrimalsKeys(primals: Env, vs: seq<Var>, args: seq<Primal>)
    requires |vs| == |args| && WellTyped(primals) && PrimalTys(args) == Avals(vs)
    ensures WritePrimals(primals, vs, args).Keys == primals.Keys + KnownBinders(vs, Undefs(args))
    ensures WellTyped(WritePrimals(primals, vs, args))
    decreases vs
  {
    if vs != [] {
      var primals1 := if args[0].Known? then primals[vs[0] := args[0].val] else primals;
      assert PrimalTys(args)[0] == Avals(vs)[0];
      assert PrimalTys(args[1..]) == PrimalTys(args)[1..] && Avals(vs[1..]) == Avals(vs)[1..];
      WritePrimalsKeys(primals1, vs[1..], args[1..]);
      assert Undefs(args)[1..] == Undefs(args[1..]);
      KnownBindersStep(vs, Undefs(args));
    }
  }

  lemma KnownBindersStep(vs: seq<Var>, undefs: seq<bool>)
    requires |vs| == |undefs| > 0
    ensures KnownBinders(vs, undefs) == (if undefs[0] then {} else {vs[0]}) + KnownBinders(vs[1..], undefs[1..])
  {
  }

  lemma {:induction false} UndefBindersSelect(vs: seq<Var>, args: seq<Primal>)
    requires |vs| == |args|
    ensures UndefBinders(vs, args) == Select(Undefs(args), true, vs)
  {
    if vs != [] {
      UndefBindersSelect(vs[1..], args[1..]);
      assert Undefs(args)[1..] == Undefs(args[1..]);
    }
  }

  /** eval_jaxpr_transposed returns if and only if the jaxpr is transposable in the given
      positions, and then returns one cotangent of the right type for each of them. */
  lemma {:induction false} TransposeReturns(j: Jaxpr, args: seq<Primal>, cts: seq<Val>)
    requires Typecheck(j).Some? && PrimalTys(args) == Avals(j.binders)
    requires CtsFit(cts, AtomTys(j.outs))
    ensures Transpose(j, args, cts).Some? <==> Transposable(j, Undefs(args))
    ensures Transpose(j, args, cts).Some? ==>
              TypesOf(Transpose(j, args, cts).value) == Avals(Select(Undefs(args), true, j.binders))
    decreases j, 1
  {
    hide TransposeEqns, RuleApplies, TypecheckEqns, ReadCts, WriteCts, WritePrimals;
    var bound := TypecheckStart(j);
    WritePrimalsKeys(map[], j.binders, args);
    var primals := WritePrimals(map[], j.binders, args);
    WriteCtsTyped(map[], j.outs, Somes(cts));
    var ct0 := WriteCts(map[], j.outs, Somes(cts)).value;
    EqnsTotal(j.eqns, bound, primals, ct0);
    assert primals.Keys == KnownBinders(j.binders, Undefs(args));
    if TransposeEqns(j.eqns, primals, ct0).Some? {
      ReadCtsTyped(TransposeEqns(j.eqns, primals, ct0).value, UndefBinders(j.binders, args));
      UndefBindersSelect(j.binders, args);
    }
  }
}
