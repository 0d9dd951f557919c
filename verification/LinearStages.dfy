/** Partial evaluation keeps linearity: the second stage of a jaxpr that is linear in its unknown
    inputs can be transposed with respect to them. */
module LinearStages {
  import opened Wrappers
  import opened Lists
  import opened Jaxprs
  import opened PartialEvaluation
  import opened PartialEvalProof
  import opened Residuals
  import opened PartialEvalTotal
  import opened Transposition
  import opened Linearity

  /** The first `r` binders of a second stage are residuals, the others are linear. */
  function LateFlags(r: nat, k: nat): (flags: seq<bool>)
    ensures |flags| == r + k
  {
    Repeat(false, r) + Repeat(true, k)
  }

  ghost predicate RulesApply(eqns: seq<Eqn>, known: set<Var>) {
    forall e :: e in eqns ==> RuleApplies(e, UndefFlags(known, e.inputs))
  }

  lemma KnownResiduals(vs: seq<Var>, r: nat)
    requires r <= |vs|
    ensures KnownBinders(vs, LateFlags(r, |vs| - r)) == ToSet(vs[..r])
  {
  }

  lemma {:induction false} OutsApart(bound: set<Var>, eqns: seq<Eqn>)
    requires TypecheckEqns(bound, eqns).Some?
    ensures OutVars(eqns) !! bound
    decreases eqns
  {
    hide TypecheckEqn;
    if eqns != [] {
      DistinctOuts(bound, eqns[0]);
      OutsApart(TypecheckEqn(bound, eqns[0]).value, eqns[1..]);
    }
  }

  /** The variables of a well-typed jaxpr are bound once. */
  lemma LevelApart(j: Jaxpr, r: nat)
    requires Typecheck(j).Some? && r <= |j.binders|
    ensures ToSet(j.binders[..r]) !! ToSet(j.binders[r..]) && ToSet(j.binders[..r]) !! OutVars(j.eqns)
  {
    hide TypecheckEqns;
    var bound := OutsBoundSet(j);
    assert j.binders == j.binders[..r] + j.binders[r..];
    DistinctParts(j.binders[..r], j.binders[r..]);
    OutsApart(bound, j.eqns);
  }

  /** The operands of a delayed equation: residuals are known, and nothing else is. */
  lemma LateOperands(known: set<Var>, env: Unknowns, xs: seq<Atom>)
    requires AllBound(env.Keys, xs) && known !! Unknown(env)
    requires KnownVars(Flags(env, xs), xs) <= known
    ensures UndefFlags(known, xs) == Flags(env, xs)
  {
  }

  /** The operands of the second half of a call: residuals first, then unknown operands. */
  lemma CallOperands(known: set<Var>, env: Unknowns, residuals: seq<Var>, xs: seq<Atom>)
    requires AllBound(env.Keys, xs) && known !! Unknown(env) && ToSet(residuals) <= known
    ensures var late := Select(Flags(env, xs), true, xs);
            UndefFlags(known, Atoms(residuals) + late) == LateFlags(|residuals|, |late|)
  {
    hide Select;
    var flags := Flags(env, xs);
    var late := Select(flags, true, xs);
    var r := |residuals|;
    forall i | 0 <= i < r + |late|
      ensures UndefFlags(known, Atoms(residuals) + late)[i] == LateFlags(r, |late|)[i]
    {
      if i < r {
        assert residuals[i] in ToSet(residuals);
      } else {
        var k := SelectIndex(flags, true, xs, late[i - r]);
        assert xs[k].V? && xs[k].v in Unknown(env);
      }
    }
  }

  lemma {:induction false} SelectCount<S, T>(bs: seq<bool>, b: bool, xs: seq<S>, ys: seq<T>)
    requires |bs| == |xs| == |ys|
    ensures |Select(bs, b, xs)| == |Select(bs, b, ys)|
  {
    if bs != [] {
      SelectCount(bs[1..], b, xs[1..], ys[1..]);
    }
  }

  /** A delayed plain equation has a transpose rule for its flags. */
  lemma PrimApplies(e: Eqn, flags: seq<bool>)
    requires e.PrimEqn? && LinearEqn(e, flags) && true in flags
    requires |flags| == |e.inputs| && AbstractEval(e, AtomTys(e.inputs)).Some?
    ensures RuleApplies(e, flags)
  {
    var i :| 0 <= i < |flags| && flags[i];
    if e.prim.Neg? {
      assert i == 0;
    }
  }

  lemma OneEqn(e: Eqn, known: set<Var>)
    requires RuleApplies(e, UndefFlags(known, e.inputs))
    ensures RulesApply([e], known)
  {
  }

  lemma {:induction false} EqnLate(order: Order, e: Eqn, env: Unknowns, n: nat, known: set<Var>)
    requires IsOrder(order) && NamesBelowEqn(e, n) && AllBound(env.Keys, e.inputs)
    requires AbstractEval(e, AtomTys(e.inputs)) == Some(Avals(e.outs))
    requires LinearEqn(e, Flags(env, e.inputs)) && PevalEqn(order, Flags(env, e.inputs), e, n).Some?
    requires known !! Unknown(env) && PevalEqn(order, Flags(env, e.inputs), e, n).value.residuals <= known
    ensures RulesApply(PevalEqn(order, Flags(env, e.inputs), e, n).value.unknown, known)
    decreases e, 2
  {
    hide PartialEval, CondPartialEval, LinearIn, Transposable, NamesBelow, Typecheck, Select, RulesApply;
    var flags := Flags(env, e.inputs);
    var s := PevalEqn(order, flags, e, n).value;
    match e
    case PrimEqn(_, inputs, _) =>
      if true in flags {
        LateOperands(known, env, inputs);
        PrimApplies(e, flags);
        OneEqn(e, known);
      } else {
        NoneLate(known);
      }
    case CallEqn(body, inputs, outs) =>
      TypecheckTypes(body);
      var b := PartialEval(order, body, flags, None, n).value;
      LateTransposable(order, body, flags, None, n);
      SplitShape(order, body, flags, None, n);
      var residuals := FreshVars(Avals(b.unknown.binders[..b.numRes]), b.next);
      CallOperands(known, env, residuals, inputs);
      SelectCount(flags, true, inputs, body.binders);
      OneEqn(s.unknown[0], known);
    case CondEqn(onTrue, onFalse, inputs, outs) =>
      var c := CondPartialEval(order, e, flags[1..], n).value;
      assert AtomTys(inputs)[1..] == AtomTys(inputs[1..]);
      CondLate(order, e, flags[1..], n, AtomTys(inputs[1..]));
      assert Flags(env, inputs[1..]) == flags[1..];
      assert Bound(env.Keys, inputs[0]);
      forall x | x in inputs[1..] ensures Bound(env.Keys, x) {
        assert x in inputs;
      }
      var residuals := c.trueUnknown.binders[..c.numRes];
      CallOperands(known, env, residuals, inputs[1..]);
      SelectCount(flags[1..], true, inputs[1..], onTrue.binders);
      CondUndef(known, inputs[0], Atoms(residuals) + Select(flags[1..], true, inputs[1..]));
      OneEqn(s.unknown[0], known);
  }

  lemma CondUndef(known: set<Var>, pred: Atom, xs: seq<Atom>)
    requires pred.V? ==> pred.v in known
    ensures UndefFlags(known, [pred] + xs) == [false] + UndefFlags(known, xs)
    ensures UndefFlags(known, [pred] + xs)[1..] == UndefFlags(known, xs)
  {
  }

  lemma NoneLate(known: set<Var>)
    ensures RulesApply([], known)
  {
  }

  /** Joining the branches gives each the other's residuals as additional known inputs. */
  lemma {:induction false} CondLate(order: Order, e: Eqn, unks: seq<bool>, n: nat, ins: seq<Ty>)
    requires IsOrder(order) && e.CondEqn? && NamesBelowEqn(e, n)
    requires Typecheck(e.onTrue).Some? && Typecheck(e.onFalse) == Typecheck(e.onTrue)
    requires Typecheck(e.onTrue).value.inTypes == ins && |unks| == |ins|
    requires LinearIn(e.onTrue, unks) && LinearIn(e.onFalse, unks)
    requires CondPartialEval(order, e, unks, n).Some?
    ensures var c := CondPartialEval(order, e, unks, n).value;
            && c.numRes <= |c.trueUnknown.binders|
            && |e.onTrue.binders| == |unks|
            && var flags := LateFlags(c.numRes, |Select(unks, true, e.onTrue.binders)|);
            && Transposable(c.trueUnknown, flags) && Transposable(c.falseUnknown, flags)
    decreases e, 1
  {
    hide PartialEval, LinearIn, Transposable, NamesBelow, Typecheck, Select, JoinRes, JoinConsts;
    var t0 := PartialEval(order, e.onTrue, unks, None, n).value;
    var f0 := PartialEval(order, e.onFalse, unks, None, t0.next).value;
    var outUnks := Or(t0.outUnks, f0.outUnks);
    var t := PartialEval(order, e.onTrue, unks, Some(outUnks), f0.next).value;
    var f := PartialEval(order, e.onFalse, unks, Some(outUnks), t.next).value;
    TypecheckTypes(e.onTrue);
    TypecheckTypes(e.onFalse);
    CondNext(order, e, unks, n);
    NamesBelowMore(e.onTrue, n, f0.next);
    NamesBelowMore(e.onFalse, n, t.next);
    SplitShape(order, e.onTrue, unks, Some(outUnks), f0.next);
    SplitShape(order, e.onFalse, unks, Some(outUnks), t.next);
    SelectCount(unks, true, e.onTrue.binders, e.onFalse.binders);
    var u := JoinConsts(t.unknown, f.unknown, t.numRes, f.numRes).value;
    JoinedBinders(t, f, unks, e.onTrue, e.onFalse, u.0, u.1);
    BranchLate(order, e.onTrue, unks, Some(outUnks), f0.next, u.0, t.numRes + f.numRes);
    BranchLate(order, e.onFalse, unks, Some(outUnks), t.next, u.1, t.numRes + f.numRes);
  }

  lemma JoinedBinders(t: Split, f: Split, unks: seq<bool>, jt: Jaxpr, jf: Jaxpr, ut: Jaxpr, uf: Jaxpr)
    requires SplitOf(jt, unks, t) && SplitOf(jf, unks, f)
    requires JoinConsts(t.unknown, f.unknown, t.numRes, f.numRes) == Some((ut, uf))
    ensures ut.eqns == t.unknown.eqns && uf.eqns == f.unknown.eqns
    ensures var r := t.numRes + f.numRes;
            && |ut.binders| == r + |Select(unks, true, jt.binders)|
            && |uf.binders| == r + |Select(unks, true, jf.binders)|
            && ut.binders[r..] == Select(unks, true, jt.binders)
            && uf.binders[r..] == Select(unks, true, jf.binders)
            && ToSet(t.unknown.binders[..t.numRes]) <= ToSet(ut.binders[..r])
            && ToSet(f.unknown.binders[..f.numRes]) <= ToSet(uf.binders[..r])
  {
    hide Typecheck, Select, TypecheckSplit;
    var rt, rf := t.unknown.binders[..t.numRes], f.unknown.binders[..f.numRes];
    var lt, lf := Select(unks, true, jt.binders), Select(unks, true, jf.binders);
    assert t.unknown.binders == rt + lt && f.unknown.binders == rf + lf;
    assert ut.binders == rt + rf + lt && uf.binders == rt + rf + lf;
    assert (rt + rf + lt)[..|rt| + |rf|] == rt + rf && (rt + rf + lf)[..|rt| + |rf|] == rt + rf;
  }

  lemma {:induction false} CondNext(order: Order, e: Eqn, unks: seq<bool>, n: nat)
    requires IsOrder(order) && e.CondEqn? && NamesBelowEqn(e, n)
    requires Typecheck(e.onTrue).Some? && Typecheck(e.onFalse).Some?
    requires |unks| == |e.onTrue.binders| == |e.onFalse.binders| && |e.onTrue.outs| == |e.onFalse.outs|
    requires CondPartialEval(order, e, unks, n).Some?
    ensures var t0 := PartialEval(order, e.onTrue, unks, None, n).value;
            var f0 := PartialEval(order, e.onFalse, unks, None, t0.next).value;
            var outUnks := Or(t0.outUnks, f0.outUnks);
            var t := PartialEval(order, e.onTrue, unks, Some(outUnks), f0.next).value;
            && n <= t0.next <= f0.next <= t.next
            && IsInstantiate(Some(outUnks), |e.onTrue.outs|)
  {
    hide PartialEval, NamesBelow, Typecheck, Select, JoinRes, JoinConsts, KnownPreds, Flow, SplitOf;
    var t0 := PartialEval(order, e.onTrue, unks, None, n).value;
    var f0 := PartialEval(order, e.onFalse, unks, None, t0.next).value;
    var outUnks := Or(t0.outUnks, f0.outUnks);
    PartialEvalReturns(order, e.onTrue, unks, None, n);
    NamesBelowMore(e.onFalse, n, t0.next);
    PartialEvalReturns(order, e.onFalse, unks, None, t0.next);
    FlowOuts(e.onTrue, unks);
    FlowOuts(e.onFalse, unks);
    NamesBelowMore(e.onTrue, n, f0.next);
    PartialEvalReturns(order, e.onTrue, unks, Some(outUnks), f0.next);
  }

  /** The second stage of one branch, with the residuals of both. */
  lemma {:induction false} BranchLate(order: Order, j: Jaxpr, unks: seq<bool>, instantiate: Option<seq<bool>>, n: nat,
                                      late: Jaxpr, r: nat)
    requires IsOrder(order) && Typecheck(j).Some? && |unks| == |j.binders| && IsInstantiate(instantiate, |j.outs|)
    requires NamesBelow(j, n) && LinearIn(j, unks) && PartialEval(order, j, unks, instantiate, n).Some?
    requires Typecheck(late).Some? && r <= |late.binders| && late.binders[r..] == Select(unks, true, j.binders)
    requires var s := PartialEval(order, j, unks, instantiate, n).value;
             && s.numRes <= |s.unknown.binders|
             && late.eqns == s.unknown.eqns && ToSet(s.unknown.binders[..s.numRes]) <= ToSet(late.binders[..r])
    ensures Transposable(late, LateFlags(r, |Select(unks, true, j.binders)|))
    decreases j, 3
  {
    hide PartialEval, LinearIn, NamesBelow, Typecheck, Select, RuleApplies;
    var known := ToSet(late.binders[..r]);
    LevelApart(late, r);
    KnownResiduals(late.binders, r);
    assert |late.binders[r..]| == |late.binders| - r;
    LateRules(order, j, unks, instantiate, n, known);
  }

  /** The second stage of a split of a jaxpr that is linear in its unknown inputs is transposable
      with respect to these inputs, with the residuals known. */
  lemma {:induction false} LateTransposable(order: Order, j: Jaxpr, unks: seq<bool>, instantiate: Option<seq<bool>>,
                                            n: nat)
    requires IsOrder(order) && Typecheck(j).Some? && |unks| == |j.binders| && IsInstantiate(instantiate, |j.outs|)
    requires NamesBelow(j, n) && LinearIn(j, unks) && PartialEval(order, j, unks, instantiate, n).Some?
    ensures var s := PartialEval(order, j, unks, instantiate, n).value;
            Transposable(s.unknown, LateFlags(s.numRes, |Select(unks, true, j.binders)|))
    decreases j, 4
  {
    hide PartialEval, LinearIn, NamesBelow, Typecheck, Select, Transposable;
    SplitShape(order, j, unks, instantiate, n);
    var s := PartialEval(order, j, unks, instantiate, n).value;
    assert s.unknown.binders[s.numRes..] == Select(unks, true, j.binders);
    BranchLate(order, j, unks, instantiate, n, s.unknown, s.numRes);
  }

  lemma {:induction false} LateRules(order: Order, j: Jaxpr, unks: seq<bool>, instantiate: Option<seq<bool>>, n: nat,
                                     known: set<Var>)
    requires IsOrder(order) && Typecheck(j).Some? && |unks| == |j.binders| && IsInstantiate(instantiate, |j.outs|)
    requires NamesBelow(j, n) && LinearIn(j, unks) && PartialEval(order, j, unks, instantiate, n).Some?
    requires var s := PartialEval(order, j, unks, instantiate, n).value;
             && s.numRes <= |s.unknown.binders| && ToSet(s.unknown.binders[..s.numRes]) <= known
             && known !! ToSet(Select(unks, true, j.binders)) && known !! OutVars(s.unknown.eqns)
    ensures RulesApply(PartialEval(order, j, unks, instantiate, n).value.unknown.eqns, known)
    decreases j, 2
  {
    hide PevalEqns, LinearEqns, NamesBelowEqns, Typecheck, TypecheckEqns, Select, RulesApply, OutVars, FinishSplit;
    var env := WriteUnks(map[], unks, j.binders);
    var p := PevalEqns(order, j.eqns, env, n).value;
    var s := PartialEval(order, j, unks, instantiate, n).value;
    SplitParts(order, j, unks, instantiate, p, s);
    var bound := OutsBoundSet(j);
    WriteUnksExact(map[], unks, j.binders);
    assert env.Keys == bound;
    SplitEnv(map[], unks, j.binders);
    LateEqns(order, j.eqns, env, n, known);
  }

  lemma {:induction false} LateEqns(order: Order, eqns: seq<Eqn>, env: Unknowns, n: nat, known: set<Var>)
    requires IsOrder(order) && TypecheckEqns(env.Keys, eqns).Some?
    requires NamesBelowEqns(eqns, n)
    requires LinearEqns(eqns, env) && PevalEqns(order, eqns, env, n).Some?
    requires known !! Unknown(env)
    requires var p := PevalEqns(order, eqns, env, n).value;
             p.residuals <= known && known !! OutVars(p.unknown)
    ensures RulesApply(PevalEqns(order, eqns, env, n).value.unknown, known)
    decreases eqns, 0
  {
    hide PevalEqn, LinearEqn, NamesBelowEqn, AbstractEval, RuleApplies, FlowEqn;
    if eqns != [] {
      var e := eqns[0];
      DistinctOuts(env.Keys, e);
      var flags := Flags(env, e.inputs);
      UnksFlags(env, e.inputs);
      var s := PevalEqn(order, flags, e, n).value;
      EqnReturns(order, e, flags, n);
      LateOuts(order, e, flags, n);
      EqnLate(order, e, env, n, known);
      SplitEnv(env, s.outUnks, e.outs);
      WriteUnksExact(env, s.outUnks, e.outs);
      var env1 := WriteUnks(env, s.outUnks, e.outs);
      NamesBelowEqnsMore(eqns[1..], n, s.next);
      var rest := PevalEqns(order, eqns[1..], env1, s.next).value;
      OutVarsAppend(s.unknown, rest.unknown);
      LateEqns(order, eqns[1..], env1, s.next, known);
    }
  }

  lemma {:induction false} OutVarsAppend(xs: seq<Eqn>, ys: seq<Eqn>)
    ensures OutVars(xs + ys) == OutVars(xs) + OutVars(ys)
  {
    if xs == [] {
      assert xs + ys == ys;
    } else {
      assert (xs + ys)[1..] == xs[1..] + ys;
      OutVarsAppend(xs[1..], ys);
    }
  }

  /** The unknown outputs of an equation are outputs of its delayed part. */
  lemma LateOuts(order: Order, e: Eqn, flags: seq<bool>, n: nat)
    requires |flags| == |e.inputs| && PevalEqn(order, flags, e, n).Some?
    requires |PevalEqn(order, flags, e, n).value.outUnks| == |e.outs|
    ensures var s := PevalEqn(order, flags, e, n).value;
            ToSet(Select(s.outUnks, true, e.outs)) <= OutVars(s.unknown)
  {
    hide PartialEval, CondPartialEval, Select, Typecheck;
    var s := PevalEqn(order, flags, e, n).value;
    if e.PrimEqn? && true !in flags {
      SelectRepeat(false, true, e.outs);
    } else if e.PrimEqn? {
      SelectRepeat(true, true, e.outs);
    }
  }
}
