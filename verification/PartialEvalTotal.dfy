/** When partial_eval_jaxpr returns: on a well-typed jaxpr, exactly when every predicate is known and
    no residual would be bound twice. Both stages are then well-typed and single-assignment. */
module PartialEvalTotal {
  import opened Wrappers
  import opened Lists
  import opened Jaxprs
  import opened PartialEvaluation
  import opened PartialEvalProof
  import opened JvpTyping
  import opened Residuals

  /** The types of the two stages. */
  ghost predicate StageTys(s: Split, unks: seq<bool>, ins: seq<Ty>, outs: seq<Ty>) {
    && |unks| == |ins| && |s.outUnks| == |outs| && s.numRes <= |s.unknown.binders|
    && var res := Avals(s.unknown.binders[..s.numRes]);
    && Typecheck(s.known) == Some(JaxprType(Select(unks, false, ins), Select(s.outUnks, false, outs) + res))
    && Typecheck(s.unknown) == Some(JaxprType(res + Select(unks, true, ins), Select(s.outUnks, true, outs)))
  }

  lemma SplitTys(j: Jaxpr, unks: seq<bool>, s: Split)
    requires SplitOf(j, unks, s)
    ensures StageTys(s, unks, Avals(j.binders), AtomTys(j.outs))
  {
    hide Select, TypecheckEqns;
    TypecheckTypes(j);
    TypecheckTypes(s.known);
    TypecheckTypes(s.unknown);
    var res := s.unknown.binders[..s.numRes];
    AvalsSelect(unks, false, j.binders);
    AvalsSelect(unks, true, j.binders);
    AvalsAppend(res, Select(unks, true, j.binders));
    AtomTysAppend(Select(s.outUnks, false, j.outs), Atoms(res));
    AtomTysOfVars(res);
    SelectTys(s.outUnks, false, j.outs);
    SelectTys(s.outUnks, true, j.outs);
  }

  ghost function FinalSet(j: Jaxpr): set<Var>
    requires Typecheck(j).Some?
  {
    TypecheckEqns(BindVars({}, j.binders).value, j.eqns).value
  }

  /** A variable made between the counters `n` and `n'`. */
  ghost predicate Made(v: Var, n: nat, n': nat) {
    n <= v.id < n'
  }

  /** A set holds `own` and otherwise only made variables. */
  ghost predicate Exactly(s: set<Var>, own: set<Var>, n: nat, n': nat) {
    own <= s && forall v :: v in s ==> v in own || Made(v, n, n')
  }

  /** What the proof knows about a split that partial_eval_jaxpr has returned: which variables are
      its residuals, and which variables its second stage binds. */
  ghost predicate GoodSplit(j: Jaxpr, unks: seq<bool>, inst: seq<bool>, s: Split, n: nat) {
    && SplitOf(j, unks, s)
    && n <= s.next
    && var residuals := s.unknown.binders[..s.numRes];
    && Distinct(residuals) && Exactly(ToSet(residuals), Res(j, unks, inst), n, s.next)
    && FinalSet(s.unknown) == ToSet(residuals) + UnknownVars(j, unks)
  }

  ghost predicate GoodEqnSplit(e: Eqn, flags: seq<bool>, s: EqnSplit, n: nat)
    requires |flags| == |e.inputs|
  {
    && s.outUnks == FlowEqn(e, flags) && |s.outUnks| == |e.outs| && n <= s.next
    && Exactly(s.residuals, OwnRes(e, flags), n, s.next)
  }

  // ---------- one equation ----------

  /** The two calls that xla_call_peval_eqn makes type-check in the two stages. */
  lemma CallStages(b: Split, flags: seq<bool>, inputs: seq<Atom>, outs: seq<Var>, n: nat, s: EqnSplit,
                   s1: set<Var>, s2: set<Var>)
    requires |flags| == |inputs| && CallSplit(b, flags, inputs, outs) == Some(s) && n <= b.next
    requires StageTys(b, flags, AtomTys(inputs), Avals(outs)) && Distinct(outs)
    requires AllBound(s1, Select(flags, false, inputs)) && ToSet(outs) !! s1
    requires forall v :: v in s1 || v in outs ==> !(n <= v.id < s.next)
    requires AllBound(s2, Select(flags, true, inputs)) && s.residuals <= s2
    requires ToSet(Select(s.outUnks, true, outs)) !! s2
    ensures TypecheckEqns(s1, s.known) == Some(s1 + ToSet(Select(s.outUnks, false, outs)) + s.residuals)
    ensures TypecheckEqns(s2, s.unknown) == Some(s2 + ToSet(Select(s.outUnks, true, outs)))
    ensures s1 !! s.residuals && n <= s.next
  {
    hide Typecheck, Select, TypecheckEqns;
    var tys := Avals(b.unknown.binders[..b.numRes]);
    var residuals := FreshVars(tys, b.next);
    FreshDistinct(tys, b.next);
    var known, late := Select(s.outUnks, false, outs), Select(s.outUnks, true, outs);
    SelectDistinct(s.outUnks, false, outs);
    SelectDistinct(s.outUnks, true, outs);
    DistinctAppend(known, residuals);
    AvalsAppend(known, residuals);
    AvalsSelect(s.outUnks, false, outs);
    AvalsSelect(s.outUnks, true, outs);
    SelectTys(flags, false, inputs);
    SelectTys(flags, true, inputs);
    SingleEqn(s1, s.known[0]);
    BoundAtoms(s2, residuals);
    BoundAppend(s2, Atoms(residuals), Select(flags, true, inputs));
    AtomTysAppend(Atoms(residuals), Select(flags, true, inputs));
    AtomTysOfVars(residuals);
    SingleEqn(s2, s.unknown[0]);
    assert s1 + ToSet(known + residuals) == s1 + ToSet(known) + s.residuals;
  }

  ghost predicate CondTys(c: CondSplit, unks: seq<bool>, ins: seq<Ty>, outs: seq<Ty>) {
    && |unks| == |ins| && |c.outUnks| == |outs| && c.numRes <= |c.trueUnknown.binders|
    && var res := Avals(c.trueUnknown.binders[..c.numRes]);
    && Typecheck(c.trueKnown) == Some(JaxprType(Select(unks, false, ins), Select(c.outUnks, false, outs) + res))
    && Typecheck(c.falseKnown) == Typecheck(c.trueKnown)
    && Typecheck(c.trueUnknown) == Some(JaxprType(res + Select(unks, true, ins), Select(c.outUnks, true, outs)))
    && Typecheck(c.falseUnknown) == Typecheck(c.trueUnknown)
  }

  /** The two conditionals that cond_peval_eqn makes type-check in the two stages. */
  lemma CondStages(c: CondSplit, flags: seq<bool>, pred: Atom, inputs: seq<Atom>, outs: seq<Var>, s: EqnSplit,
                   s1: set<Var>, s2: set<Var>)
    requires |flags| == |inputs| && CondEqnSplit(c, flags, pred, inputs, outs) == Some(s) && AtomTy(pred) == Bool
    requires CondTys(c, flags, AtomTys(inputs), Avals(outs)) && Distinct(outs)
    requires var residuals := c.trueUnknown.binders[..c.numRes];
             Distinct(residuals) && ToSet(residuals) !! s1 && ToSet(residuals) !! ToSet(outs)
    requires Bound(s1, pred) && AllBound(s1, Select(flags, false, inputs)) && ToSet(outs) !! s1
    requires AllBound(s2, Select(flags, true, inputs)) && s.residuals <= s2
    requires ToSet(Select(s.outUnks, true, outs)) !! s2
    ensures TypecheckEqns(s1, s.known)
         == Some(s1 + ToSet(Select(s.outUnks, false, outs)) + ToSet(c.trueUnknown.binders[..c.numRes]))
    ensures TypecheckEqns(s2, s.unknown) == Some(s2 + ToSet(Select(s.outUnks, true, outs)))
  {
    hide Typecheck, Select, TypecheckEqns;
    var residuals := c.trueUnknown.binders[..c.numRes];
    var known, late := Select(s.outUnks, false, outs), Select(s.outUnks, true, outs);
    SelectDistinct(s.outUnks, false, outs);
    SelectDistinct(s.outUnks, true, outs);
    DistinctAppend(known, residuals);
    AvalsAppend(known, residuals);
    AvalsSelect(s.outUnks, false, outs);
    AvalsSelect(s.outUnks, true, outs);
    SelectTys(flags, false, inputs);
    SelectTys(flags, true, inputs);
    PredFirst(s1, pred, Select(flags, false, inputs));
    SingleEqn(s1, s.known[0]);
    BoundAtoms(s2, residuals);
    BoundAppend(s2, Atoms(residuals), Select(flags, true, inputs));
    AtomTysAppend(Atoms(residuals), Select(flags, true, inputs));
    AtomTysOfVars(residuals);
    assert pred.V? ==> pred.v in s.residuals;
    PredFirst(s2, pred, Atoms(residuals) + Select(flags, true, inputs));
    SingleEqn(s2, s.unknown[0]);
    assert s1 + ToSet(known + residuals) == s1 + ToSet(known) + ToSet(residuals);
  }

  lemma PredFirst(s: set<Var>, pred: Atom, xs: seq<Atom>)
    requires Bound(s, pred) && AllBound(s, xs)
    ensures AllBound(s, [pred] + xs)
    ensures AtomTys([pred] + xs)[0] == AtomTy(pred) && AtomTys([pred] + xs)[1..] == AtomTys(xs)
  {
  }

  /** Binding variables that a jaxpr does not mention leaves its type check as it is. */
  lemma {:induction false} TypecheckMore(s: set<Var>, extra: set<Var>, eqns: seq<Eqn>)
    requires TypecheckEqns(s, eqns).Some? && TypecheckEqns(s, eqns).value !! extra
    ensures TypecheckEqns(s + extra, eqns) == Some(TypecheckEqns(s, eqns).value + extra)
    decreases eqns
  {
    if eqns != [] {
      DistinctOuts(s, eqns[0]);
      var s1 := TypecheckEqn(s, eqns[0]).value;
      TypecheckGrows(s1, eqns[1..]);
      forall x | x in eqns[0].inputs ensures Bound(s + extra, x) {
        assert Bound(s, x);
      }
      BindOne(s + extra, eqns[0].outs);
      assert s + extra + ToSet(eqns[0].outs) == s1 + extra;
      TypecheckMore(s1, extra, eqns[1..]);
    }
  }

  /** And a jaxpr that binds a variable itself does not type-check where it is already bound. */
  lemma {:induction false} TypecheckForeign(s: set<Var>, extra: set<Var>, eqns: seq<Eqn>)
    requires TypecheckEqns(s, eqns).Some? && TypecheckEqns(s + extra, eqns).Some? && s !! extra
    ensures TypecheckEqns(s, eqns).value !! extra
    decreases eqns
  {
    if eqns != [] {
      DistinctOuts(s, eqns[0]);
      DistinctOuts(s + extra, eqns[0]);
      var s1 := TypecheckEqn(s, eqns[0]).value;
      assert s + extra + ToSet(eqns[0].outs) == s1 + extra;
      TypecheckForeign(s1, extra, eqns[1..]);
    }
  }

  /** The second stage of a branch still type-checks when it also binds the other branch's
      residuals if, and only if, they are foreign to it. */
  lemma JoinedSecondStage(j: Jaxpr, pre: seq<Var>, b1: seq<Var>, post: seq<Var>, b2: seq<Var>)
    requires Typecheck(j).Some? && j.binders == b1 + b2
    requires Distinct(pre) && Distinct(post)
    requires pre == [] || post == []
    ensures var j' := Jaxpr(pre + b1 + post + b2, j.eqns, j.outs);
            && (Typecheck(j').Some? <==> FinalSet(j) !! ToSet(pre) + ToSet(post))
            && (Typecheck(j').Some? ==>
                Typecheck(j') == Some(JaxprType(Avals(j'.binders), Typecheck(j).value.outTypes)))
  {
    hide TypecheckEqns, FinalSet;
    var bound := TypecheckStart(j);
    var extra := ToSet(pre) + ToSet(post);
    BindersBound(j, bound);
    Subset(j, bound);
    var j' := Jaxpr(pre + b1 + post + b2, j.eqns, j.outs);
    TypecheckTypes(j);
    if FinalSet(j) !! extra {
      JoinedAll(pre, b1, post, b2);
      BindOne({}, j'.binders);
      assert {} + ToSet(j'.binders) == bound + extra;
      TypecheckMore(bound, extra, j.eqns);
      forall x | x in j.outs ensures Bound(FinalSet(j) + extra, x) {
        assert Bound(FinalSet(j), x);
      }
    }
    if Typecheck(j').Some? {
      TypecheckTypes(j');
      var bound' := TypecheckStart(j');
      JoinedDistinct(pre, b1, post, b2);
      assert {} + ToSet(j'.binders) == bound + extra;
      TypecheckForeign(bound, extra, j.eqns);
    }
  }

  lemma JoinedAll(pre: seq<Var>, b1: seq<Var>, post: seq<Var>, b2: seq<Var>)
    requires Distinct(pre) && Distinct(post) && Distinct(b1 + b2) && (pre == [] || post == [])
    requires ToSet(b1 + b2) !! ToSet(pre) + ToSet(post)
    ensures Distinct(pre + b1 + post + b2)
    ensures ToSet(pre + b1 + post + b2) == ToSet(b1 + b2) + (ToSet(pre) + ToSet(post))
  {
    DistinctParts(b1, b2);
    assert forall v :: v in b1 || v in b2 ==> v in ToSet(b1 + b2);
    DistinctAppend(pre, b1);
    DistinctAppend(pre + b1, post);
    DistinctAppend(pre + b1 + post, b2);
  }

  lemma JoinedDistinct(pre: seq<Var>, b1: seq<Var>, post: seq<Var>, b2: seq<Var>)
    requires Distinct(pre + b1 + post + b2)
    ensures ToSet(b1 + b2) !! ToSet(pre) + ToSet(post)
    ensures ToSet(pre + b1 + post + b2) == ToSet(b1 + b2) + (ToSet(pre) + ToSet(post))
  {
    DistinctParts(pre + b1 + post, b2);
    DistinctParts(pre + b1, post);
    DistinctParts(pre, b1);
    assert forall v :: v in pre || v in b1 ==> v in ToSet(pre + b1);
    assert forall v :: v in pre + b1 || v in post ==> v in ToSet(pre + b1 + post);
    assert forall v :: v in b1 + b2 ==> v in ToSet(b1) || v in ToSet(b2);
  }

  lemma Subset(j: Jaxpr, bound: set<Var>)
    requires Typecheck(j).Some? && BindVars({}, j.binders) == Some(bound)
    ensures bound <= FinalSet(j) && FinalSet(j) == TypecheckEqns(bound, j.eqns).value
  {
    TypecheckGrows(bound, j.eqns);
  }

  // ---------- the induction ----------

  ghost predicate IsInstantiate(instantiate: Option<seq<bool>>, n: nat) {
    instantiate.Some? ==> |instantiate.value| == n
  }

  ghost function Instantiated(j: Jaxpr, instantiate: Option<seq<bool>>): seq<bool> {
    if instantiate.Some? then instantiate.value else Repeat(false, |j.outs|)
  }

  ghost function OutFlags(j: Jaxpr, unks: seq<bool>, instantiate: Option<seq<bool>>): seq<bool> {
    Or(Flow(j, unks), Instantiated(j, instantiate))
  }

  /** What has to hold of the branches of a conditional. */
  ghost predicate Branches(t: Jaxpr, f: Jaxpr, unks: seq<bool>) {
    && KnownPreds(t, unks) && KnownPreds(f, unks)
    && NoClash(t, unks) && NoClash(f, unks) && Joinable(t, f, unks)
  }

  /** The branches of a conditional are split, joined and type-checked. */
  lemma {:induction false} CondTotal(order: Order, e: Eqn, unks: seq<bool>, n: nat, ins: seq<Ty>, outs: seq<Ty>)
    requires IsOrder(order) && e.CondEqn? && NamesBelowEqn(e, n)
    requires Typecheck(e.onTrue) == Some(JaxprType(ins, outs)) == Typecheck(e.onFalse) && |unks| == |ins|
    ensures CondPartialEval(order, e, unks, n).Some? <==> Branches(e.onTrue, e.onFalse, unks)
    ensures CondPartialEval(order, e, unks, n).Some? ==>
              var c := CondPartialEval(order, e, unks, n).value;
              && CondTys(c, unks, ins, outs) && n <= c.next
              && c.outUnks == Or(Flow(e.onTrue, unks), Flow(e.onFalse, unks))
              && var residuals := c.trueUnknown.binders[..c.numRes];
              && Distinct(residuals) && Exactly(ToSet(residuals), CondRes(e, [false] + unks), n, c.next)
    decreases e, 1
  {
    hide PartialEval, KnownPreds, Flow, Typecheck, TypecheckEqns, Select, JoinRes, JoinConsts, NoClash, Joinable,
      NamesBelow, Res, JoinedOk;
    TypecheckTypes(e.onTrue);
    TypecheckTypes(e.onFalse);
    FlowOuts(e.onTrue, unks);
    FlowOuts(e.onFalse, unks);
    PartialEvalReturns(order, e.onTrue, unks, None, n);
    if PartialEval(order, e.onTrue, unks, None, n).Some? {
      var t0 := PartialEval(order, e.onTrue, unks, None, n).value;
      NamesBelowMore(e.onFalse, n, t0.next);
      PartialEvalReturns(order, e.onFalse, unks, None, t0.next);
      if PartialEval(order, e.onFalse, unks, None, t0.next).Some? {
        var f0 := PartialEval(order, e.onFalse, unks, None, t0.next).value;
        OrNothing(Flow(e.onTrue, unks), Flow(e.onFalse, unks));
        CondInstantiated(order, e, unks, n, f0.next, ins, outs);
        assert ([false] + unks)[1..] == unks;
        CondJoined(order, e, unks, n, t0, f0, ins, outs);
      }
    }
  }

  /** The second round of _cond_partial_eval, after both branches have been split once. */
  lemma {:induction false} CondInstantiated(order: Order, e: Eqn, unks: seq<bool>, n: nat, n1: nat, ins: seq<Ty>,
                                            outs: seq<Ty>)
    requires IsOrder(order) && e.CondEqn? && NamesBelowEqn(e, n) && n <= n1
    requires Typecheck(e.onTrue) == Some(JaxprType(ins, outs)) == Typecheck(e.onFalse) && |unks| == |ins|
    requires KnownPreds(e.onTrue, unks) && KnownPreds(e.onFalse, unks) && NoClash(e.onTrue, unks)
             && NoClash(e.onFalse, unks)
    ensures var inst := Or(Flow(e.onTrue, unks), Flow(e.onFalse, unks));
            && PartialEval(order, e.onTrue, unks, Some(inst), n1).Some?
            && var t := PartialEval(order, e.onTrue, unks, Some(inst), n1).value;
            && PartialEval(order, e.onFalse, unks, Some(inst), t.next).Some?
            && var f := PartialEval(order, e.onFalse, unks, Some(inst), t.next).value;
            && JoinedOk(e.onTrue, e.onFalse, t, f, unks, ins, outs, n)
    decreases e, 0
  {
    hide PartialEval, KnownPreds, Flow, Typecheck, TypecheckEqns, Select, JoinedOk, NoClash, NamesBelow, Res;
    TypecheckTypes(e.onTrue);
    TypecheckTypes(e.onFalse);
    FlowOuts(e.onTrue, unks);
    FlowOuts(e.onFalse, unks);
    OrNothing(Flow(e.onTrue, unks), Flow(e.onFalse, unks));
    var inst := Or(Flow(e.onTrue, unks), Flow(e.onFalse, unks));
    NamesBelowMore(e.onTrue, n, n1);
    PartialEvalReturns(order, e.onTrue, unks, Some(inst), n1);
    var t := PartialEval(order, e.onTrue, unks, Some(inst), n1).value;
    NamesBelowMore(e.onFalse, n, t.next);
    PartialEvalReturns(order, e.onFalse, unks, Some(inst), t.next);
    var f := PartialEval(order, e.onFalse, unks, Some(inst), t.next).value;
    JoinTotal(e.onTrue, e.onFalse, unks, t, f, n, n1, ins, outs);
  }

  lemma OrNothing(xs: seq<bool>, ys: seq<bool>)
    requires |xs| == |ys|
    ensures Or(xs, Repeat(false, |xs|)) == xs && Or(ys, Repeat(false, |ys|)) == ys
    ensures Or(xs, Or(xs, ys)) == Or(xs, ys) && Or(ys, Or(xs, ys)) == Or(xs, ys)
  {
  }

  /** The end of _cond_partial_eval: the type check of the joined stages. */
  function Joined(t: Split, f: Split, outUnks: seq<bool>): Option<CondSplit> {
    var known :- JoinRes(t.known, f.known, t.numRes, f.numRes);
    var unknown :- JoinConsts(t.unknown, f.unknown, t.numRes, f.numRes);
    var ty1 :- Typecheck(known.0);
    var ty2 :- Typecheck(unknown.0);
    if Typecheck(known.1) == Some(ty1) && Typecheck(unknown.1) == Some(ty2)
    then Some(CondSplit(known.0, known.1, unknown.0, unknown.1, outUnks, t.numRes + f.numRes, f.next))
    else None
  }

  lemma CondJoined(order: Order, e: Eqn, unks: seq<bool>, n: nat, t0: Split, f0: Split, ins: seq<Ty>, outs: seq<Ty>)
    requires e.CondEqn? && PartialEval(order, e.onTrue, unks, None, n) == Some(t0)
    requires PartialEval(order, e.onFalse, unks, None, t0.next) == Some(f0)
    requires t0.outUnks == Flow(e.onTrue, unks) && f0.outUnks == Flow(e.onFalse, unks)
    requires var inst := Or(Flow(e.onTrue, unks), Flow(e.onFalse, unks));
             && PartialEval(order, e.onTrue, unks, Some(inst), f0.next).Some?
             && var t := PartialEval(order, e.onTrue, unks, Some(inst), f0.next).value;
             && PartialEval(order, e.onFalse, unks, Some(inst), t.next).Some?
             && var f := PartialEval(order, e.onFalse, unks, Some(inst), t.next).value;
             && JoinedOk(e.onTrue, e.onFalse, t, f, unks, ins, outs, n)
    ensures CondPartialEval(order, e, unks, n).Some? <==> Joinable(e.onTrue, e.onFalse, unks)
    ensures CondPartialEval(order, e, unks, n).Some? ==>
              var c := CondPartialEval(order, e, unks, n).value;
              GoodCond(c, e.onTrue, e.onFalse, unks, ins, outs, n)
  {
    hide PartialEval, Flow, JoinRes, JoinConsts, Typecheck, Joinable, GoodCond;
  }

  ghost predicate GoodCond(c: CondSplit, jt: Jaxpr, jf: Jaxpr, unks: seq<bool>, ins: seq<Ty>, outs: seq<Ty>, n: nat) {
    var inst := Or(Flow(jt, unks), Flow(jf, unks));
    && c.outUnks == inst && CondTys(c, unks, ins, outs) && n <= c.next
    && var residuals := c.trueUnknown.binders[..c.numRes];
    && Distinct(residuals) && Exactly(ToSet(residuals), Res(jt, unks, inst) + Res(jf, unks, inst), n, c.next)
  }

  /** The joined stages of the two branches type-check if and only if the branches are joinable, and
      then have equal types. */
  ghost predicate JoinedOk(jt: Jaxpr, jf: Jaxpr, t: Split, f: Split, unks: seq<bool>, ins: seq<Ty>, outs: seq<Ty>,
                           n: nat) {
    var c := Joined(t, f, Or(Flow(jt, unks), Flow(jf, unks)));
    && (c.Some? <==> Joinable(jt, jf, unks))
    && (c.Some? ==> GoodCond(c.value, jt, jf, unks, ins, outs, n))
  }

  /** _join_jaxpr_res and _join_jaxpr_consts on two good splits. */
  lemma JoinTotal(jt: Jaxpr, jf: Jaxpr, unks: seq<bool>, t: Split, f: Split, n: nat, n1: nat, ins: seq<Ty>,
                  outs: seq<Ty>)
    requires var inst := Or(Flow(jt, unks), Flow(jf, unks));
             n <= n1 && GoodSplit(jt, unks, inst, t, n1) && GoodSplit(jf, unks, inst, f, t.next)
             && t.outUnks == inst == f.outUnks
    requires Typecheck(jt) == Some(JaxprType(ins, outs)) == Typecheck(jf) && |unks| == |ins|
    requires NamesBelow(jt, n) && NamesBelow(jf, n)
    ensures JoinedOk(jt, jf, t, f, unks, ins, outs, n)
  {
    hide Typecheck, TypecheckEqns, Select, Res, UnknownVars, Flow, NamesBelow, FinalSet, JoinRes, JoinConsts, Joinable;
    TypecheckTypes(jt);
    TypecheckTypes(jf);
    SplitTys(jt, unks, t);
    SplitTys(jf, unks, f);
    var inst := Or(Flow(jt, unks), Flow(jf, unks));
    var rt, rf := t.unknown.binders[..t.numRes], f.unknown.binders[..f.numRes];
    OldNames(jt, unks, inst, n);
    OldNames(jf, unks, inst, n);
    JoinableExactly(jt, jf, unks, inst, ToSet(rt), ToSet(rf), n, n1, t.next, f.next);
    KnownOuts(jt, unks, t, outs);
    KnownOuts(jf, unks, f, outs);
    JoinedFirstStages(t, f, Select(inst, false, outs), unks, ins, rt, rf);
    JoinedSecondStages(t.unknown, f.unknown, t.numRes, f.numRes, Select(unks, true, ins), Select(inst, true, outs));
    if ToSet(rt) !! ToSet(rf) {
      DistinctAppend(rt, rf);
    }
    assert |outs| == |inst| by {
      FlowOuts(jt, unks);
      FlowOuts(jf, unks);
    }
    assert FinalSet(t.unknown) == ToSet(rt) + UnknownVars(jt, unks)
           && FinalSet(f.unknown) == ToSet(rf) + UnknownVars(jf, unks);
    assert Exactly(ToSet(rt + rf), Res(jt, unks, inst) + Res(jf, unks, inst), n, f.next) by {
      NewPart(rt, rf);
    }
    var (k1, k2) := JoinRes(t.known, f.known, t.numRes, f.numRes).value;
    var (u, v) := JoinConsts(t.unknown, f.unknown, t.numRes, f.numRes).value;
    var ty1 := JaxprType(Select(unks, false, ins), Select(inst, false, outs) + (Avals(rt) + Avals(rf)));
    var ty2 := JaxprType((Avals(rt) + Avals(rf)) + Select(unks, true, ins), Select(inst, true, outs));
    hide SplitOf, StageTys, Exactly, GoodSplit, Made, CondTys;
    JoinedIs(t, f, inst, k1, k2, u, v, ty1, ty2);
    if Typecheck(u).Some? && Typecheck(v).Some? {
      JoinedTys(CondSplit(k1, k2, u, v, inst, t.numRes + f.numRes, f.next), rt + rf, unks, ins, outs);
    }
  }

  lemma JoinedIs(t: Split, f: Split, inst: seq<bool>, k1: Jaxpr, k2: Jaxpr, u: Jaxpr, v: Jaxpr, ty1: JaxprType,
                 ty2: JaxprType)
    requires JoinRes(t.known, f.known, t.numRes, f.numRes) == Some((k1, k2))
             && Typecheck(k1) == Some(ty1) == Typecheck(k2)
    requires JoinConsts(t.unknown, f.unknown, t.numRes, f.numRes) == Some((u, v))
    requires (Typecheck(u).Some? ==> Typecheck(u) == Some(ty2)) && (Typecheck(v).Some? ==> Typecheck(v) == Some(ty2))
    ensures Joined(t, f, inst) ==
            if Typecheck(u).Some? && Typecheck(v).Some?
            then Some(CondSplit(k1, k2, u, v, inst, t.numRes + f.numRes, f.next))
            else None
  {
    hide Typecheck, JoinRes, JoinConsts;
  }

  lemma JoinedTys(c: CondSplit, residuals: seq<Var>, unks: seq<bool>, ins: seq<Ty>, outs: seq<Ty>)
    requires |unks| == |ins| && |c.outUnks| == |outs| && c.numRes <= |c.trueUnknown.binders|
    requires c.trueUnknown.binders[..c.numRes] == residuals
    requires Typecheck(c.trueKnown) == Typecheck(c.falseKnown)
             == Some(JaxprType(Select(unks, false, ins), Select(c.outUnks, false, outs) + Avals(residuals)))
    requires Typecheck(c.trueUnknown) == Typecheck(c.falseUnknown)
             == Some(JaxprType(Avals(residuals) + Select(unks, true, ins), Select(c.outUnks, true, outs)))
    ensures CondTys(c, unks, ins, outs)
  {
    hide Typecheck, Select;
  }

  /** The second stages can be joined if and only if each is foreign to the residuals of the other. */
  lemma JoinedSecondStages(ju: Jaxpr, jv: Jaxpr, n1: nat, n2: nat, late: seq<Ty>, outs: seq<Ty>)
    requires n1 <= |ju.binders| && n2 <= |jv.binders| && Distinct(ju.binders[..n1]) && Distinct(jv.binders[..n2])
    requires Typecheck(ju) == Some(JaxprType(Avals(ju.binders[..n1]) + late, outs))
    requires Typecheck(jv) == Some(JaxprType(Avals(jv.binders[..n2]) + late, outs))
    ensures JoinConsts(ju, jv, n1, n2).Some?
    ensures var (u, v) := JoinConsts(ju, jv, n1, n2).value;
            var rt, rf := ju.binders[..n1], jv.binders[..n2];
            && (Typecheck(u).Some? <==> FinalSet(ju) !! ToSet(rf))
            && (Typecheck(v).Some? <==> FinalSet(jv) !! ToSet(rt))
            && (Typecheck(u).Some? ==> Typecheck(u) == Some(JaxprType((Avals(rt) + Avals(rf)) + late, outs)))
            && (Typecheck(v).Some? ==> Typecheck(v) == Some(JaxprType((Avals(rt) + Avals(rf)) + late, outs)))
            && |u.binders| >= n1 + n2 && u.binders[..n1 + n2] == rt + rf && Avals(rt + rf) == Avals(rt) + Avals(rf)
  {
    hide Typecheck, TypecheckEqns, FinalSet, JoinConsts;
    var rt, rf, lt, lf := ju.binders[..n1], jv.binders[..n2], ju.binders[n1..], jv.binders[n2..];
    assert ju.binders == rt + lt && jv.binders == rf + lf;
    JoinedSecondStage(ju, [], rt, rf, lt);
    JoinedSecondStage(jv, rt, rf, [], lf);
    SecondStageTypes(ju, jv, rt, rf, lt, lf, late, outs);
    JoinedUnknown(ju, jv, n1, n2);
    AvalsAppend(rt, rf);
  }

  lemma OldNames(j: Jaxpr, unks: seq<bool>, inst: seq<bool>, n: nat)
    requires Typecheck(j).Some? && |unks| == |j.binders| && NamesBelow(j, n)
    ensures Below(Res(j, unks, inst), n) && Below(UnknownVars(j, unks), n)
  {
    hide Typecheck, Res, UnknownVars, Scope, NamesBelow;
    ResScope(j, unks, inst);
    LevelInScope(j);
    ScopeBelow(j, n);
  }

  /** Made variables do not matter for whether two branches can be joined. */
  lemma JoinableExactly(jt: Jaxpr, jf: Jaxpr, unks: seq<bool>, inst: seq<bool>, rt: set<Var>, rf: set<Var>,
                        n: nat, n1: nat, n2: nat, n3: nat)
    requires n <= n1 <= n2 <= n3 && inst == Or(Flow(jt, unks), Flow(jf, unks))
    requires Exactly(rt, Res(jt, unks, inst), n1, n2) && Exactly(rf, Res(jf, unks, inst), n2, n3)
    requires Below(Res(jt, unks, inst), n) && Below(UnknownVars(jt, unks), n)
    requires Below(Res(jf, unks, inst), n) && Below(UnknownVars(jf, unks), n)
    ensures Joinable(jt, jf, unks) <==> rt + UnknownVars(jt, unks) !! rf && rf + UnknownVars(jf, unks) !! rt
    ensures Exactly(rt + rf, Res(jt, unks, inst) + Res(jf, unks, inst), n, n3)
  {
    hide Res, UnknownVars, Flow;
    if Joinable(jt, jf, unks) {
      forall v | v in rt ensures v !in rf && v !in UnknownVars(jf, unks) {
        assert v in Res(jt, unks, inst) || Made(v, n1, n2);
      }
      forall v | v in rf ensures v !in UnknownVars(jt, unks) {
        assert v in Res(jf, unks, inst) || Made(v, n2, n3);
      }
    }
  }

  lemma KnownOuts(j: Jaxpr, unks: seq<bool>, s: Split, outs: seq<Ty>)
    requires SplitOf(j, unks, s) && outs == AtomTys(j.outs)
    ensures var k := |Select(s.outUnks, false, outs)|;
            |s.known.outs| == k + s.numRes && s.known.outs[k..] == Atoms(s.unknown.binders[..s.numRes])
  {
    hide Typecheck, Select;
    SelectTys(s.outUnks, false, j.outs);
  }

  /** _join_jaxpr_res: both first stages return the residuals of both branches. */
  lemma JoinedFirstStages(t: Split, f: Split, b1: seq<Ty>, unks: seq<bool>, ins: seq<Ty>, rt: seq<Var>, rf: seq<Var>)
    requires |unks| == |ins| && |rt| == t.numRes && |rf| == f.numRes
    requires Typecheck(t.known) == Some(JaxprType(Select(unks, false, ins), b1 + Avals(rt)))
    requires Typecheck(f.known) == Some(JaxprType(Select(unks, false, ins), b1 + Avals(rf)))
    requires |t.known.outs| == |b1| + |rt| && t.known.outs[|b1|..] == Atoms(rt)
    requires |f.known.outs| == |b1| + |rf| && f.known.outs[|b1|..] == Atoms(rf)
    ensures JoinRes(t.known, f.known, t.numRes, f.numRes).Some?
    ensures var r := JoinRes(t.known, f.known, t.numRes, f.numRes).value;
            Typecheck(r.0) == Some(JaxprType(Select(unks, false, ins), b1 + (Avals(rt) + Avals(rf)))) == Typecheck(r.1)
  {
    hide Typecheck, Select, Zeros, Lits;
    assert (b1 + Avals(rt))[..|b1|] == b1 && (b1 + Avals(rf))[..|b1|] == b1;
    PaddedStage(t.known, rt, Select(unks, false, ins), b1, rt, rf);
    PaddedStage(f.known, rf, Select(unks, false, ins), b1, rt, rf);
  }

  /** The first stage of one branch, with zeros for the residuals of the other. */
  lemma PaddedStage(j: Jaxpr, own: seq<Var>, ins: seq<Ty>, b1: seq<Ty>, rt: seq<Var>, rf: seq<Var>)
    requires Typecheck(j) == Some(JaxprType(ins, b1 + Avals(own)))
    requires |j.outs| == |b1| + |own| && j.outs[|b1|..] == Atoms(own)
    ensures own == rt ==> Typecheck(Jaxpr(j.binders, j.eqns,
                                          j.outs[..|b1|] + Atoms(rt) + Lits(Zeros(AtomTys(Atoms(rf))))))
                          == Some(JaxprType(ins, b1 + (Avals(rt) + Avals(rf))))
    ensures own == rf ==> Typecheck(Jaxpr(j.binders, j.eqns,
                                          j.outs[..|b1|] + Lits(Zeros(AtomTys(Atoms(rt)))) + Atoms(rf)))
                          == Some(JaxprType(ins, b1 + (Avals(rt) + Avals(rf))))
  {
    var o := j.outs[..|b1|];
    FirstOuts(j, b1, own);
    PaddedTys(o, own, b1, rt, rf);
    TypecheckTypes(j);
    hide Typecheck, Zeros, Lits, AtomTys, Avals;
    OnlyLits(Zeros(AtomTys(Atoms(rf))));
    OnlyLits(Zeros(AtomTys(Atoms(rt))));
    assert j.outs == o + Atoms(own);
    if own == rt {
      MoreOuts(j, o + Atoms(rt) + Lits(Zeros(AtomTys(Atoms(rf)))));
    }
    if own == rf {
      MoreOuts(j, o + Lits(Zeros(AtomTys(Atoms(rt)))) + Atoms(rf));
    }
  }

  lemma OnlyLits(vs: seq<Val>)
    ensures forall x :: x in Lits(vs) ==> x.Lit?
  {
  }

  lemma FirstOuts(j: Jaxpr, b1: seq<Ty>, own: seq<Var>)
    requires Typecheck(j).Some? && Typecheck(j).value.outTypes == b1 + Avals(own) && |j.outs| == |b1| + |own|
    ensures AtomTys(j.outs[..|b1|]) == b1
  {
    hide TypecheckEqns;
    TypecheckTypes(j);
    assert AtomTys(j.outs[..|b1|]) == (b1 + Avals(own))[..|b1|];
  }

  /** The zeros have the types of the residuals in whose places they stand. */
  lemma PaddedTys(o: seq<Atom>, own: seq<Var>, b1: seq<Ty>, rt: seq<Var>, rf: seq<Var>)
    requires AtomTys(o) == b1
    ensures own == rt ==> AtomTys(o + Atoms(rt) + Lits(Zeros(AtomTys(Atoms(rf))))) == b1 + (Avals(rt) + Avals(rf))
    ensures own == rf ==> AtomTys(o + Lits(Zeros(AtomTys(Atoms(rt)))) + Atoms(rf)) == b1 + (Avals(rt) + Avals(rf))
  {
    ZeroLits(Avals(rt));
    ZeroLits(Avals(rf));
    AtomTysOfVars(rt);
    AtomTysOfVars(rf);
    hide AtomTys, Atoms, Lits, Zeros, Avals;
    var z1, z2 := Lits(Zeros(AtomTys(Atoms(rt)))), Lits(Zeros(AtomTys(Atoms(rf))));
    AtomTysAppend(o, Atoms(rt));
    AtomTysAppend(o + Atoms(rt), z2);
    AtomTysAppend(o, z1);
    AtomTysAppend(o + z1, Atoms(rf));
    ConcatAssoc(b1, Avals(rt), Avals(rf));
  }

  lemma ZeroLits(tys: seq<Ty>)
    ensures AtomTys(Lits(Zeros(tys))) == tys
  {
  }

  /** Returning literals as well, or the same atoms in another order, keeps a jaxpr well-typed. */
  lemma MoreOuts(j: Jaxpr, outs: seq<Atom>)
    requires Typecheck(j).Some? && forall x :: x in outs ==> x in j.outs || x.Lit?
    ensures Typecheck(Jaxpr(j.binders, j.eqns, outs)) == Some(JaxprType(Avals(j.binders), AtomTys(outs)))
  {
  }

  lemma SecondStageTypes(ju: Jaxpr, jv: Jaxpr, rt: seq<Var>, rf: seq<Var>, lt: seq<Var>, lf: seq<Var>,
                         late: seq<Ty>, outs: seq<Ty>)
    requires ju.binders == rt + lt && jv.binders == rf + lf
    requires Typecheck(ju) == Some(JaxprType(Avals(rt) + late, outs))
    requires Typecheck(jv) == Some(JaxprType(Avals(rf) + late, outs))
    ensures Avals([] + rt + rf + lt) == (Avals(rt) + Avals(rf)) + late
    ensures Avals(rt + rf + [] + lf) == (Avals(rt) + Avals(rf)) + late
    ensures JoinConsts(ju, jv, |rt|, |rf|).Some?
    ensures Avals((rt + rf + [] + lf)[..|rt| + |rf|]) == Avals(rt) + Avals(rf)
    ensures ([] + rt + rf + lt)[..|rt| + |rf|] == rt + rf
  {
    hide TypecheckEqns;
    TypecheckTypes(ju);
    TypecheckTypes(jv);
    AvalsAppend(rt, lt);
    AvalsAppend(rf, lf);
    assert Avals(lt) == (Avals(rt) + late)[|rt|..] == late;
    assert Avals(lf) == (Avals(rf) + late)[|rf|..] == late;
    AvalsAppend(rt, rf);
    assert [] + rt == rt;
    AppendNothing(rt + rf, []);
    AvalsAppend(rt + rf, lt);
    AvalsAppend(rt + rf, lf);
    assert (rt + rf + lf)[..|rt| + |rf|] == rt + rf;
    assert (rt + rf + lt)[..|rt| + |rf|] == rt + rf;
    assert Typecheck(ju).value.inTypes[|rt|..] == late && Typecheck(jv).value.inTypes[|rf|..] == late;
  }

  lemma {:induction false} EqnReturns(order: Order, e: Eqn, flags: seq<bool>, n: nat)
    requires IsOrder(order) && NamesBelowEqn(e, n) && |flags| == |e.inputs|
    requires AbstractEval(e, AtomTys(e.inputs)) == Some(Avals(e.outs))
    ensures PevalEqn(order, flags, e, n).Some? <==> KnownPredsEqn(e, flags) && NoClashEqn(e, flags)
    ensures PevalEqn(order, flags, e, n).Some? ==> GoodEqnSplit(e, flags, PevalEqn(order, flags, e, n).value, n)
    decreases e, 2
  {
    hide PartialEval, CondPartialEval, KnownPreds, Flow, Typecheck, Select, NoClash, Joinable, NamesBelow, Res;
    FlowLength(e, flags);
    match e
    case PrimEqn(_, _, _) =>
    case CallEqn(body, inputs, outs) =>
      TypecheckTypes(body);
      PartialEvalReturns(order, body, flags, None, n);
      FlowOuts(body, flags);
      if PartialEval(order, body, flags, None, n).Some? {
        var b := PartialEval(order, body, flags, None, n).value;
        OrNothing(Flow(body, flags), Flow(body, flags));
        FreshDistinct(Avals(b.unknown.binders[..b.numRes]), b.next);
      }
    case CondEqn(onTrue, onFalse, inputs, outs) =>
      assert |e.inputs| > 0;
      var ins := AtomTys(inputs[1..]);
      assert AtomTys(inputs)[1..] == ins;
      TypecheckTypes(onTrue);
      CondTotal(order, e, flags[1..], n, ins, Avals(outs));
      SameCondRes(e, flags);
      if PevalEqn(order, flags, e, n).Some? {
        var c := CondPartialEval(order, e, flags[1..], n).value;
        assert PevalEqn(order, flags, e, n).value.residuals
               == PredVar(inputs) + ToSet(c.trueUnknown.binders[..c.numRes]);
      }
  }

  lemma SameCondRes(e: Eqn, flags: seq<bool>)
    requires |flags| > 0
    ensures CondRes(e, [false] + flags[1..]) == CondRes(e, flags)
  {
  }

  lemma {:induction false} EqnStages(order: Order, e: Eqn, flags: seq<bool>, n: nat, s1: set<Var>, s2: set<Var>)
    requires IsOrder(order) && NamesBelowEqn(e, n) && |flags| == |e.inputs|
    requires AbstractEval(e, AtomTys(e.inputs)) == Some(Avals(e.outs)) && PevalEqn(order, flags, e, n).Some?
    requires Distinct(e.outs) && ToSet(e.outs) !! CondRes(e, flags) && s1 !! CondRes(e, flags)
    requires AllBound(s1, Select(flags, false, e.inputs)) && ToSet(e.outs) !! s1
    requires var s := PevalEqn(order, flags, e, n).value;
             && (forall v :: v in s1 ==> !Made(v, n, s.next))
             && AllBound(s2, Select(flags, true, e.inputs)) && s.residuals <= s2
             && |s.outUnks| == |e.outs| && ToSet(Select(s.outUnks, true, e.outs)) !! s2
    ensures var s := PevalEqn(order, flags, e, n).value;
            && TypecheckEqns(s1, s.known)
               == Some(s1 + ToSet(Select(s.outUnks, false, e.outs)) + (s.residuals - KnownVars(flags, e.inputs)))
            && TypecheckEqns(s2, s.unknown) == Some(s2 + ToSet(Select(s.outUnks, true, e.outs)))
    decreases e, 2
  {
    hide PartialEval, CondPartialEval, KnownPreds, Flow, Typecheck, TypecheckEqns, Select, NoClash, NamesBelow, Res;
    var s := PevalEqn(order, flags, e, n).value;
    KnownInS1(flags, e.inputs, s1);
    match e
    case PrimEqn(_, inputs, outs) =>
      PrimStages(e, flags, s, s1, s2);
    case CallEqn(body, inputs, outs) =>
      TypecheckTypes(body);
      PartialEvalReturns(order, body, flags, None, n);
      var b := PartialEval(order, body, flags, None, n).value;
      SplitTys(body, flags, b);
      CallStages(b, flags, inputs, outs, n, s, s1, s2);
      assert s.residuals - KnownVars(flags, inputs) == s.residuals;
    case CondEqn(onTrue, onFalse, inputs, outs) =>
      var ins := AtomTys(inputs[1..]);
      assert AtomTys(inputs)[1..] == ins;
      TypecheckTypes(onTrue);
      CondTotal(order, e, flags[1..], n, ins, Avals(outs));
      SameCondRes(e, flags);
      var c := CondPartialEval(order, e, flags[1..], n).value;
      var residuals := c.trueUnknown.binders[..c.numRes];
      SelectHead(flags, inputs);
      CondStages(c, flags[1..], inputs[0], inputs[1..], outs, s, s1, s2);
      assert inputs[0].V? ==> inputs[0].v in KnownVars(flags, inputs);
      assert s.residuals - KnownVars(flags, inputs) == ToSet(residuals);
  }

  /** Where the halves of an equation type-check, its outputs and the residuals of a conditional are
      new. */
  lemma {:induction false} EqnNeeds(order: Order, e: Eqn, flags: seq<bool>, n: nat, s1: set<Var>, s2: set<Var>)
    requires IsOrder(order) && NamesBelowEqn(e, n) && |flags| == |e.inputs|
    requires AbstractEval(e, AtomTys(e.inputs)) == Some(Avals(e.outs)) && PevalEqn(order, flags, e, n).Some?
    requires var s := PevalEqn(order, flags, e, n).value;
             |s.outUnks| == |e.outs| && TypecheckEqns(s1, s.known).Some? && TypecheckEqns(s2, s.unknown).Some?
    ensures var s := PevalEqn(order, flags, e, n).value;
            var known, late := ToSet(Select(s.outUnks, false, e.outs)), ToSet(Select(s.outUnks, true, e.outs));
            && CondRes(e, flags) !! s1 && CondRes(e, flags) !! known && known !! s1 && late !! s2
            && s1 + known + CondRes(e, flags) <= TypecheckEqns(s1, s.known).value
            && s2 + late <= TypecheckEqns(s2, s.unknown).value
    decreases e, 2
  {
    hide PartialEval, CondPartialEval, KnownPreds, Flow, Typecheck, Select, NoClash, NamesBelow, Res;
    var s := PevalEqn(order, flags, e, n).value;
    match e
    case PrimEqn(_, inputs, outs) =>
      SelectRepeat(true in flags, false, outs);
      SelectRepeat(true in flags, true, outs);
      PrimNeeds(e, s, s1, s2);
    case CallEqn(body, inputs, outs) =>
      OneNeeds(s1, s.known[0]);
      OneNeeds(s2, s.unknown[0]);
      var b := PartialEval(order, body, flags, None, n).value;
      NewPart(Select(s.outUnks, false, outs), FreshVars(Avals(b.unknown.binders[..b.numRes]), b.next));
    case CondEqn(onTrue, onFalse, inputs, outs) =>
      var ins := AtomTys(inputs[1..]);
      assert AtomTys(inputs)[1..] == ins;
      TypecheckTypes(onTrue);
      CondTotal(order, e, flags[1..], n, ins, Avals(outs));
      SameCondRes(e, flags);
      var c := CondPartialEval(order, e, flags[1..], n).value;
      OneNeeds(s1, s.known[0]);
      OneNeeds(s2, s.unknown[0]);
      NewPart(Select(s.outUnks, false, outs), c.trueUnknown.binders[..c.numRes]);
  }

  lemma OneNeeds(s: set<Var>, e: Eqn)
    requires TypecheckEqns(s, [e]).Some?
    ensures Distinct(e.outs) && ToSet(e.outs) !! s && TypecheckEqns(s, [e]).value == s + ToSet(e.outs)
  {
    DistinctOuts(s, e);
    assert [e][1..] == [];
  }

  lemma PrimNeeds(e: Eqn, s: EqnSplit, s1: set<Var>, s2: set<Var>)
    requires (s.known == [e] && s.unknown == []) || (s.known == [] && s.unknown == [e])
    requires TypecheckEqns(s1, s.known).Some? && TypecheckEqns(s2, s.unknown).Some?
    ensures s.known != [] ==> ToSet(e.outs) !! s1 && TypecheckEqns(s1, s.known).value == s1 + ToSet(e.outs)
    ensures s.known == [] ==> TypecheckEqns(s1, s.known).value == s1
    ensures s.unknown != [] ==> ToSet(e.outs) !! s2 && TypecheckEqns(s2, s.unknown).value == s2 + ToSet(e.outs)
    ensures s.unknown == [] ==> TypecheckEqns(s2, s.unknown).value == s2
  {
    if s.known != [] {
      OneNeeds(s1, e);
    } else {
      OneNeeds(s2, e);
    }
  }

  lemma NewPart(vs: seq<Var>, ws: seq<Var>)
    ensures ToSet(vs + ws) == ToSet(vs) + ToSet(ws)
    ensures Distinct(vs + ws) ==> ToSet(vs) !! ToSet(ws)
  {
    if Distinct(vs + ws) {
      DistinctParts(vs, ws);
    }
  }

  lemma SelectHead(flags: seq<bool>, xs: seq<Atom>)
    requires |flags| == |xs| > 0 && !flags[0]
    ensures Select(flags, false, xs) == [xs[0]] + Select(flags[1..], false, xs[1..])
    ensures Select(flags, true, xs) == Select(flags[1..], true, xs[1..])
    ensures xs[0] in Select(flags, false, xs)
    ensures forall x :: x in Select(flags[1..], false, xs[1..]) ==> x in Select(flags, false, xs)
  {
  }

  lemma KnownInS1(flags: seq<bool>, xs: seq<Atom>, s1: set<Var>)
    requires |flags| == |xs| && AllBound(s1, Select(flags, false, xs))
    ensures KnownVars(flags, xs) <= s1
  {
    forall v | v in KnownVars(flags, xs) ensures v in s1 {
      var i :| 0 <= i < |xs| && !flags[i] && xs[i].V? && xs[i].v == v;
      SelectMember(flags, false, xs, i);
      assert Bound(s1, xs[i]);
    }
  }

  lemma PrimStages(e: Eqn, flags: seq<bool>, s: EqnSplit, s1: set<Var>, s2: set<Var>)
    requires e.PrimEqn? && |flags| == |e.inputs| && Distinct(e.outs)
    requires AbstractEval(e, AtomTys(e.inputs)) == Some(Avals(e.outs))
    requires s.outUnks == Repeat(true in flags, |e.outs|)
    requires if true in flags then s.known == [] && s.unknown == [e] && s.residuals == KnownVars(flags, e.inputs)
             else s.known == [e] && s.unknown == [] && s.residuals == {}
    requires AllBound(s1, Select(flags, false, e.inputs)) && ToSet(e.outs) !! s1
    requires AllBound(s2, Select(flags, true, e.inputs)) && s.residuals <= s2
    requires ToSet(Select(s.outUnks, true, e.outs)) !! s2
    ensures TypecheckEqns(s1, s.known)
         == Some(s1 + ToSet(Select(s.outUnks, false, e.outs)) + (s.residuals - KnownVars(flags, e.inputs)))
    ensures TypecheckEqns(s2, s.unknown) == Some(s2 + ToSet(Select(s.outUnks, true, e.outs)))
  {
    hide Select, AbstractEval, TypecheckEqns;
    SelectRepeat(true in flags, false, e.outs);
    SelectRepeat(true in flags, true, e.outs);
    NoEqns(s1);
    NoEqns(s2);
    if true in flags {
      forall i | 0 <= i < |e.inputs| ensures Bound(s2, e.inputs[i]) {
        if flags[i] {
          SelectMember(flags, true, e.inputs, i);
        } else if e.inputs[i].V? {
          assert e.inputs[i].v in KnownVars(flags, e.inputs);
        }
      }
      SingleEqn(s2, e);
      assert s.residuals - KnownVars(flags, e.inputs) == {};
      assert s1 + ToSet(Select(s.outUnks, false, e.outs)) + {} == s1;
    } else {
      assert s.residuals - KnownVars(flags, e.inputs) == {};
      forall i | 0 <= i < |e.inputs| ensures Bound(s1, e.inputs[i]) {
        SelectMember(flags, false, e.inputs, i);
      }
      SingleEqn(s1, e);
      assert s1 + ToSet(e.outs) + {} == s1 + ToSet(e.outs);
      assert s2 + ToSet(Select(s.outUnks, true, e.outs)) == s2;
    }
  }

  lemma NoEqns(s: set<Var>)
    ensures TypecheckEqns(s, []) == Some(s)
  {
  }

  // ---------- the loop ----------

  ghost predicate GoodEqns(p: EqnsSplit, eqns: seq<Eqn>, env: Unknowns, n: nat) {
    && p.env == FlowEqns(eqns, env) && n <= p.next
    && Exactly(p.residuals, OwnResEqns(eqns, env), n, p.next)
    && OwnResEqns(eqns, env) <= Known(p.env) + CondResEqns(eqns, env) && CondResEqns(eqns, env) <= p.residuals
    && (forall v :: v in env ==> v in p.env && p.env[v] == env[v])
  }

  lemma {:induction false} EqnsReturn(order: Order, eqns: seq<Eqn>, env: Unknowns, n: nat)
    requires IsOrder(order) && TypecheckEqns(env.Keys, eqns).Some? && NamesBelowEqns(eqns, n)
    ensures PevalEqns(order, eqns, env, n).Some? <==> KnownPredsEqns(eqns, env) && NoClashInside(eqns, env)
    ensures PevalEqns(order, eqns, env, n).Some? ==> GoodEqns(PevalEqns(order, eqns, env, n).value, eqns, env, n)
    ensures PevalEqns(order, eqns, env, n).Some? ==>
              PevalEqns(order, eqns, env, n).value.env.Keys == TypecheckEqns(env.Keys, eqns).value
    decreases eqns, 0
  {
    hide PevalEqn, KnownPredsEqn, FlowEqn, TypecheckEqn, NoClashEqn, NamesBelowEqn, OwnRes, CondRes, GoodEqns,
      GoodEqnSplit;
    if eqns == [] {
      NoLoop(env, n);
    } else {
      var e := eqns[0];
      var flags := Flags(env, e.inputs);
      DistinctOuts(env.Keys, e);
      UnksFlags(env, e.inputs);
      EqnReturns(order, e, flags, n);
      if PevalEqn(order, flags, e, n).Some? {
        var s := PevalEqn(order, flags, e, n).value;
        EqnSplitFacts(e, flags, s, n);
        var env1 := WriteUnks(env, s.outUnks, e.outs);
        WriteUnksExact(env, s.outUnks, e.outs);
        NamesBelowEqnsMore(eqns[1..], n, s.next);
        EqnsReturn(order, eqns[1..], env1, s.next);
        if PevalEqns(order, eqns[1..], env1, s.next).Some? {
          LoopStep(e, eqns, flags, env, env1, s, PevalEqns(order, eqns[1..], env1, s.next).value, n);
        }
      }
    }
  }

  lemma NoLoop(env: Unknowns, n: nat)
    ensures GoodEqns(EqnsSplit([], [], env, {}, n), [], env, n)
  {
  }

  lemma EqnSplitFacts(e: Eqn, flags: seq<bool>, s: EqnSplit, n: nat)
    requires |flags| == |e.inputs| && GoodEqnSplit(e, flags, s, n)
    ensures s.outUnks == FlowEqn(e, flags) && |s.outUnks| == |e.outs| && n <= s.next
  {
  }

  lemma LoopFacts(p: EqnsSplit, eqns: seq<Eqn>, env: Unknowns, n: nat)
    requires GoodEqns(p, eqns, env, n)
    ensures n <= p.next && forall v :: v in env ==> v in p.env && p.env[v] == env[v]
  {
  }

  lemma LoopStep(e: Eqn, eqns: seq<Eqn>, flags: seq<bool>, env: Unknowns, env1: Unknowns, s: EqnSplit, rest: EqnsSplit,
                 n: nat)
    requires |eqns| > 0 && e == eqns[0] && flags == Flags(env, e.inputs) && AllBound(env.Keys, e.inputs)
    requires GoodEqnSplit(e, flags, s, n) && env1 == WriteUnks(env, FlowEqn(e, flags), e.outs)
             && KnownPredsEqn(e, flags)
    requires forall v :: v in env ==> v in env1 && env1[v] == env[v]
    requires GoodEqns(rest, eqns[1..], env1, s.next)
    ensures GoodEqns(EqnsSplit(s.known + rest.known, s.unknown + rest.unknown, rest.env,
                               s.residuals + rest.residuals, rest.next), eqns, env, n)
  {
    hide FlowEqn, CondRes, OwnRes, KnownPredsEqn;
    OwnResParts(e, env);
    assert OwnResEqns(eqns, env) == OwnRes(e, flags) + OwnResEqns(eqns[1..], env1);
    assert CondResEqns(eqns, env) == CondRes(e, flags) + CondResEqns(eqns[1..], env1);
    forall v | v in s.residuals + rest.residuals ensures v in OwnResEqns(eqns, env) || Made(v, n, rest.next) {
      if v in s.residuals {
        assert v in OwnRes(e, flags) || Made(v, n, s.next);
      } else {
        assert v in OwnResEqns(eqns[1..], env1) || Made(v, s.next, rest.next);
      }
    }
  }

  lemma OperandsBound(env: Unknowns, xs: seq<Atom>)
    requires AllBound(env.Keys, xs)
    ensures AllBound(Known(env), Select(Flags(env, xs), false, xs))
    ensures AllBound(Unknown(env), Select(Flags(env, xs), true, xs))
  {
    var flags := Flags(env, xs);
    forall b: bool, x | x in Select(flags, b, xs) ensures Bound(if b then Unknown(env) else Known(env), x) {
      var i := SelectIndex(flags, b, xs, x);
      assert Bound(env.Keys, xs[i]);
    }
  }

  lemma ResTail(level: set<Var>, eqns: seq<Eqn>, env: Unknowns)
    requires eqns != [] && ResApart(level, eqns, env)
    ensures var env1 := WriteUnks(env, FlowEqn(eqns[0], Flags(env, eqns[0].inputs)), eqns[0].outs);
            ResApart(level, eqns[1..], env1) && CondResEqns(eqns[1..], env1) <= CondResEqns(eqns, env)
  {
  }

  /** The stages of the rest of the loop, where `extra` are residuals from before, and `res` is what the
      second stage binds first. */
  lemma {:induction false} EqnsStages(order: Order, eqns: seq<Eqn>, env: Unknowns, level: set<Var>, n: nat,
                                      extra: set<Var>, res: set<Var>)
    requires IsOrder(order) && TypecheckEqns(env.Keys, eqns).Some?
    requires env.Keys + OutVars(eqns) <= level && ResApart(level, eqns, env)
    requires NamesBelowEqns(eqns, n) && Below(level, n)
    requires PevalEqns(order, eqns, env, n).Some?
    requires var p := PevalEqns(order, eqns, env, n).value;
             && (forall v :: v in extra ==> v !in level && v !in CondResEqns(eqns, env) && !Made(v, n, p.next))
             && p.residuals <= res && res !! Unknown(p.env)
    ensures var p := PevalEqns(order, eqns, env, n).value;
            && TypecheckEqns(Known(env) + extra, p.known) == Some(Known(p.env) + extra + (p.residuals - level))
            && TypecheckEqns(res + Unknown(env), p.unknown) == Some(res + Unknown(p.env))
    decreases eqns, 1
  {
    hide PevalEqn, KnownPredsEqn, FlowEqn, TypecheckEqn, NoClashEqn, NamesBelowEqn, Select, CondRes, OwnRes, OwnResEqns,
      CondResEqns, ResApart, GoodEqns, GoodEqnSplit, Known, Unknown, AllBound;
    var p := PevalEqns(order, eqns, env, n).value;
    if eqns == [] {
      assert Known(env) + extra + (p.residuals - level) == Known(env) + extra;
    } else {
      var e := eqns[0];
      var flags := Flags(env, e.inputs);
      DistinctOuts(env.Keys, e);
      UnksFlags(env, e.inputs);
      EqnReturns(order, e, flags, n);
      var s := PevalEqn(order, flags, e, n).value;
      EqnSplitFacts(e, flags, s, n);
      var env1 := WriteUnks(env, s.outUnks, e.outs);
      WriteUnksExact(env, s.outUnks, e.outs);
      SplitEnv(env, s.outUnks, e.outs);
      NamesBelowEqnsMore(eqns[1..], n, s.next);
      EqnsReturn(order, eqns[1..], env1, s.next);
      var rest := PevalEqns(order, eqns[1..], env1, s.next).value;
      LoopFacts(rest, eqns[1..], env1, s.next);
      ResTail(level, eqns, env);
      var s1, s2 := Known(env) + extra, res + Unknown(env);
      OperandsBound(env, e.inputs);
      HeadStages(order, eqns, env, env1, flags, s, rest, level, n, extra, res);
      ResScopes(eqns, env);
      ScopesBelow(eqns, n);
      ExtraForeign(e, eqns, flags, env, s, level, n, p.next);
      var more := s.residuals - level;
      EqnsStages(order, eqns[1..], env1, level, s.next, extra + more, res);
      JoinSets(Known(env), extra, ToSet(Select(s.outUnks, false, e.outs)), more);
      JoinSets(res, Unknown(env), ToSet(Select(s.outUnks, true, e.outs)), {});
      TypecheckAppend(s1, s.known, rest.known);
      TypecheckAppend(s2, s.unknown, rest.unknown);
      ResidualSets(Known(p.env), extra, s.residuals, rest.residuals, level);
    }
  }

  /** What an equation adds to the residuals beyond the variables of this level is foreign to
      everything that follows. */
  lemma ExtraForeign(e: Eqn, eqns: seq<Eqn>, flags: seq<bool>, env: Unknowns, s: EqnSplit, level: set<Var>, n: nat,
                     n': nat)
    requires |eqns| > 0 && e == eqns[0] && flags == Flags(env, e.inputs) && GoodEqnSplit(e, flags, s, n)
    requires AllBound(env.Keys, e.inputs) && env.Keys <= level && Below(level, n) && KnownPredsEqn(e, flags)
    requires ResApart(level, eqns, env) && NamesBelowEqns(eqns, n)
    requires Below(CondResEqns(eqns, env), n)
    ensures s.residuals - KnownVars(flags, e.inputs) == s.residuals - level
    ensures var env1 := WriteUnks(env, FlowEqn(e, flags), e.outs);
            forall v | v in s.residuals && v !in level :: v !in CondResEqns(eqns[1..], env1) && !Made(v, s.next, n')
  {
    hide NamesBelowEqn, FlowEqn, CondRes, OwnRes, KnownPredsEqn;
    OwnResParts(e, env);
    KnownOperands(env, e.inputs);
    var env1 := WriteUnks(env, FlowEqn(e, flags), e.outs);
    assert CondResEqns(eqns, env) == CondRes(e, flags) + CondResEqns(eqns[1..], env1);
    hide CondResEqns, WriteUnks;
    forall v | v in s.residuals ensures v in KnownVars(flags, e.inputs) <==> v in level {
      if v in OwnRes(e, flags) {
        OwnResKnown(e, flags, v);
      } else {
        assert Made(v, n, s.next);
      }
    }
    forall v | v in s.residuals && v !in level ensures v !in CondResEqns(eqns[1..], env1) && !Made(v, s.next, n') {
      assert v in OwnRes(e, flags) || Made(v, n, s.next);
    }
  }

  lemma OwnResKnown(e: Eqn, flags: seq<bool>, v: Var)
    requires |flags| == |e.inputs| && v in OwnRes(e, flags) && KnownPredsEqn(e, flags)
    ensures v in KnownVars(flags, e.inputs) || v in CondRes(e, flags)
  {
  }

  lemma JoinSets(a: set<Var>, b: set<Var>, c: set<Var>, d: set<Var>)
    ensures a + b + c + d == (a + c) + (b + d)
    ensures a + b + c == a + (b + c)
  {
  }

  lemma ResidualSets(known: set<Var>, extra: set<Var>, r1: set<Var>, r2: set<Var>, level: set<Var>)
    ensures known + (extra + (r1 - level)) + (r2 - level) == known + extra + ((r1 + r2) - level)
  {
  }

  lemma HeadStages(order: Order, eqns: seq<Eqn>, env: Unknowns, env1: Unknowns, flags: seq<bool>, s: EqnSplit,
                   rest: EqnsSplit, level: set<Var>, n: nat, extra: set<Var>, res: set<Var>)
    requires IsOrder(order) && |eqns| > 0 && TypecheckEqn(env.Keys, eqns[0]).Some?
    requires flags == Flags(env, eqns[0].inputs) && PevalEqn(order, flags, eqns[0], n) == Some(s)
    requires GoodEqnSplit(eqns[0], flags, s, n)
    requires env.Keys + ToSet(eqns[0].outs) <= level && ResApart(level, eqns, env)
    requires NamesBelowEqns(eqns, n) && Below(level, n) && s.next <= rest.next
    requires env1 == WriteUnks(env, s.outUnks, eqns[0].outs)
    requires forall v :: v in env1 ==> v in rest.env && rest.env[v] == env1[v]
    requires forall v :: v in extra ==> v !in level && v !in CondResEqns(eqns, env) && !Made(v, n, rest.next)
    requires s.residuals <= res && res !! Unknown(rest.env)
    ensures TypecheckEqns(Known(env) + extra, s.known)
         == Some(Known(env) + extra + ToSet(Select(s.outUnks, false, eqns[0].outs))
                 + (s.residuals - KnownVars(flags, eqns[0].inputs)))
    ensures TypecheckEqns(res + Unknown(env), s.unknown)
         == Some(res + Unknown(env) + ToSet(Select(s.outUnks, true, eqns[0].outs)))
    decreases eqns, 0
  {
    hide PevalEqn, TypecheckEqn, TypecheckEqns, NamesBelowEqn, Select, FlowEqn, CondRes, OwnRes;
    var e := eqns[0];
    DistinctOuts(env.Keys, e);
    OperandsBound(env, e.inputs);
    SplitEnv(env, s.outUnks, e.outs);
    var s1, s2 := Known(env) + extra, res + Unknown(env);
    BoundMore(Known(env), s1, Select(flags, false, e.inputs));
    BoundMore(Unknown(env), s2, Select(flags, true, e.inputs));
    assert ToSet(e.outs) !! s1;
    assert Unknown(env1) <= Unknown(rest.env);
    EqnStages(order, e, flags, n, s1, s2);
  }

  lemma BoundMore(s: set<Var>, s': set<Var>, xs: seq<Atom>)
    requires AllBound(s, xs) && s <= s'
    ensures AllBound(s', xs)
  {
  }

  /** Where the two stages type-check, the residuals of conditionals are bound nowhere else: the
      converse. */
  lemma {:induction false} EqnsNeed(order: Order, eqns: seq<Eqn>, env: Unknowns, n: nat, s1: set<Var>, s2: set<Var>)
    requires IsOrder(order) && TypecheckEqns(env.Keys, eqns).Some? && NamesBelowEqns(eqns, n)
    requires PevalEqns(order, eqns, env, n).Some? && Known(env) <= s1
    requires var p := PevalEqns(order, eqns, env, n).value;
             TypecheckEqns(s1, p.known).Some? && TypecheckEqns(s2, p.unknown).Some?
    ensures var p := PevalEqns(order, eqns, env, n).value;
            && CondResEqns(eqns, env) !! s1 && CondResEqns(eqns, env) !! Known(p.env)
            && Known(p.env) - Known(env) !! s1 && Unknown(p.env) - Unknown(env) !! s2
            && ResApart({}, eqns, env)
    decreases eqns
  {
    hide PevalEqn, KnownPredsEqn, FlowEqn, TypecheckEqn, NoClashEqn, NamesBelowEqn, Select, CondRes, OwnRes;
    if eqns != [] {
      var e := eqns[0];
      var flags := Flags(env, e.inputs);
      DistinctOuts(env.Keys, e);
      UnksFlags(env, e.inputs);
      EqnReturns(order, e, flags, n);
      var s := PevalEqn(order, flags, e, n).value;
      var env1 := WriteUnks(env, s.outUnks, e.outs);
      WriteUnksExact(env, s.outUnks, e.outs);
      SplitEnv(env, s.outUnks, e.outs);
      NamesBelowEqnsMore(eqns[1..], n, s.next);
      EqnsReturn(order, eqns[1..], env1, s.next);
      var rest := PevalEqns(order, eqns[1..], env1, s.next).value;
      TypecheckAppend(s1, s.known, rest.known);
      TypecheckAppend(s2, s.unknown, rest.unknown);
      EqnNeeds(order, e, flags, n, s1, s2);
      EqnsNeed(order, eqns[1..], env1, s.next, TypecheckEqns(s1, s.known).value, TypecheckEqns(s2, s.unknown).value);
    }
  }

  lemma {:induction false} ResApartFrom(level: set<Var>, eqns: seq<Eqn>, env: Unknowns)
    ensures ResApart(level, eqns, env) <==> ResApart({}, eqns, env) && CondResEqns(eqns, env) !! level
    decreases eqns
  {
    hide CondRes, FlowEqn;
    if eqns != [] {
      ResApartFrom(level, eqns[1..], WriteUnks(env, FlowEqn(eqns[0], Flags(env, eqns[0].inputs)), eqns[0].outs));
    }
  }

  // ---------- the whole ----------

  /** What the loop of partial_eval_jaxpr has achieved at its end. */
  ghost predicate LoopDone(j: Jaxpr, unks: seq<bool>, p: EqnsSplit, n: nat)
    requires Typecheck(j).Some?
  {
    var env0 := WriteUnks(map[], unks, j.binders);
    && GoodEqns(p, j.eqns, env0, n)
    && p.env.Keys == Level(j)
    && (ResApart(Level(j), j.eqns, env0) ==>
          && p.residuals !! Unknown(p.env)
          && TypecheckEqns(Known(env0), p.known) == Some(Known(p.env) + (p.residuals - Level(j)))
          && forall res | p.residuals <= res && res !! Unknown(p.env) ::
               TypecheckEqns(res + Unknown(env0), p.unknown) == Some(res + Unknown(p.env)))
    && forall res | p.residuals <= res && res !! Unknown(env0)
                    && TypecheckEqns(Known(env0), p.known).Some?
                    && TypecheckEqns(res + Unknown(env0), p.unknown).Some? ::
         ResApart(Level(j), j.eqns, env0)
  }

  /** The two jaxprs that partial_eval_jaxpr builds after its loop pass the final type check if and
      only if the residuals of the conditionals are bound nowhere else. */
  lemma FinishReturns(order: Order, j: Jaxpr, unks: seq<bool>, instantiate: Option<seq<bool>>, p: EqnsSplit, n: nat)
    requires IsOrder(order) && Typecheck(j).Some? && |unks| == |j.binders| && IsInstantiate(instantiate, |j.outs|)
    requires LoopDone(j, unks, p, n)
    ensures FinishSplit(order, j, unks, instantiate, p).Some? <==>
              ResApart(Level(j), j.eqns, WriteUnks(map[], unks, j.binders))
    ensures FinishSplit(order, j, unks, instantiate, p).Some? ==>
              var s := FinishSplit(order, j, unks, instantiate, p).value;
              && s.outUnks == OutFlags(j, unks, instantiate) && s.next == p.next
              && s.numRes <= |s.unknown.binders|
              && var residuals := s.unknown.binders[..s.numRes];
              && Distinct(residuals) && Typecheck(s.unknown).Some?
              && ToSet(residuals) == p.residuals + Asked(j.outs, Flow(j, unks), Instantiated(j, instantiate))
              && FinalSet(s.unknown) == ToSet(residuals) + UnknownVars(j, unks)
  {
    hide Typecheck, TypecheckEqns, Select, WriteUnks, TypecheckSplit, FinalSet, FlowEqns, Level, FinishSplit,
      ResApart, GoodEqns, OwnResEqns, CondResEqns;
    var flags := Flags(p.env, j.outs);
    LoopFlow(j, unks, p, n);
    UnksFlags(p.env, j.outs);
    var inst := Instantiated(j, instantiate);
    var outUnks := Or(flags, inst);
    var forced := Forced(j.outs, flags, inst);
    assert forced == Asked(j.outs, flags, inst);
    var residuals := order(p.residuals + forced);
    var known := Jaxpr(Select(unks, false, j.binders), p.known, Select(outUnks, false, j.outs) + Atoms(residuals));
    var unknown := Jaxpr(residuals + Select(unks, true, j.binders), p.unknown, Select(outUnks, true, j.outs));
    FinishIs(order, j, unks, instantiate, p, flags, inst, known, unknown, residuals);
    assert unknown.binders[..|residuals|] == residuals;
    if ResApart(Level(j), j.eqns, WriteUnks(map[], unks, j.binders)) {
      ForcedKnown(j, p, flags, inst);
      BothStagesOk(j, unks, outUnks, flags, inst, p, known, unknown, residuals, n);
    }
    if TypecheckSplit(j, unks, outUnks, known, unknown) {
      StagesNeed(j, unks, outUnks, p, known, unknown, residuals, n);
    }
  }

  lemma LoopFlow(j: Jaxpr, unks: seq<bool>, p: EqnsSplit, n: nat)
    requires Typecheck(j).Some? && |unks| == |j.binders| && LoopDone(j, unks, p, n)
    ensures AllBound(p.env.Keys, j.outs) && Flow(j, unks) == Flags(p.env, j.outs)
    ensures UnknownVars(j, unks) == Unknown(p.env)
  {
    hide Level, TypecheckEqns, OwnResEqns, CondResEqns, ResApart;
    var bound := OutsBoundSet(j);
  }

  lemma FinishIs(order: Order, j: Jaxpr, unks: seq<bool>, instantiate: Option<seq<bool>>, p: EqnsSplit,
                 flags: seq<bool>, inst: seq<bool>, known: Jaxpr, unknown: Jaxpr, residuals: seq<Var>)
    requires |unks| == |j.binders| && IsInstantiate(instantiate, |j.outs|) && Unks(p.env, j.outs) == Some(flags)
    requires inst == Instantiated(j, instantiate)
    requires residuals == order(p.residuals + Forced(j.outs, flags, inst))
    requires known == Jaxpr(Select(unks, false, j.binders), p.known,
                            Select(Or(flags, inst), false, j.outs) + Atoms(residuals))
    requires unknown == Jaxpr(residuals + Select(unks, true, j.binders), p.unknown,
                              Select(Or(flags, inst), true, j.outs))
    ensures FinishSplit(order, j, unks, instantiate, p)
         == if TypecheckSplit(j, unks, Or(flags, inst), known, unknown)
            then Some(Split(known, unknown, Or(flags, inst), |residuals|, p.next)) else None
  {
    hide Typecheck, Select, TypecheckSplit, Forced;
  }

  lemma StagesNeed(j: Jaxpr, unks: seq<bool>, outUnks: seq<bool>, p: EqnsSplit, known: Jaxpr, unknown: Jaxpr,
                   residuals: seq<Var>, n: nat)
    requires Typecheck(j).Some? && |unks| == |j.binders| && LoopDone(j, unks, p, n)
    requires TypecheckSplit(j, unks, outUnks, known, unknown) && p.residuals <= ToSet(residuals)
    requires known.binders == Select(unks, false, j.binders) && known.eqns == p.known
    requires unknown.binders == residuals + Select(unks, true, j.binders) && unknown.eqns == p.unknown
    ensures ResApart(Level(j), j.eqns, WriteUnks(map[], unks, j.binders)) && Typecheck(unknown).Some?
  {
    hide TypecheckEqns, Select, WriteUnks, FlowEqns, Level, ResApart, GoodEqns, OwnResEqns, CondResEqns;
    var bound := OutsBoundSet(j);
    SplitEnv(map[], unks, j.binders);
    var env0 := WriteUnks(map[], unks, j.binders);
    var bound1 := TypecheckStart(known);
    var bound2 := TypecheckStart(unknown);
    assert Known(map[]) == {} && Unknown(map[]) == {};
    assert bound1 == Known(env0);
    DistinctParts(residuals, Select(unks, true, j.binders));
    NewPart(residuals, Select(unks, true, j.binders));
    assert bound2 == ToSet(residuals) + Unknown(env0);
  }

  lemma BothStagesOk(j: Jaxpr, unks: seq<bool>, outUnks: seq<bool>, flags: seq<bool>, inst: seq<bool>,
                     p: EqnsSplit, known: Jaxpr, unknown: Jaxpr, residuals: seq<Var>, n: nat)
    requires Typecheck(j).Some? && |unks| == |j.binders| && |inst| == |j.outs| && LoopDone(j, unks, p, n)
    requires ResApart(Level(j), j.eqns, WriteUnks(map[], unks, j.binders))
    requires flags == Flags(p.env, j.outs) && AllBound(p.env.Keys, j.outs) && outUnks == Or(flags, inst)
    requires Forced(j.outs, flags, inst) <= Known(p.env)
    requires Distinct(residuals) && ToSet(residuals) == p.residuals + Forced(j.outs, flags, inst)
    requires known == Jaxpr(Select(unks, false, j.binders), p.known, Select(outUnks, false, j.outs) + Atoms(residuals))
    requires unknown == Jaxpr(residuals + Select(unks, true, j.binders), p.unknown, Select(outUnks, true, j.outs))
    ensures TypecheckSplit(j, unks, outUnks, known, unknown)
    ensures Typecheck(unknown).Some? && FinalSet(unknown) == ToSet(residuals) + Unknown(p.env)
  {
    hide Typecheck, TypecheckEqns, Select, WriteUnks, TypecheckSplit, FlowEqns, FinalSet, Level, ResApart, OwnResEqns,
      CondResEqns;
    assert forall v :: v in residuals ==> v in ToSet(residuals);
    FirstStageOk(j, unks, outUnks, flags, inst, p, known, residuals);
    SecondStageOk(j, unks, outUnks, flags, inst, p, unknown, residuals, Forced(j.outs, flags, inst));
    FinishTypes(j, unks, outUnks, known, unknown, residuals);
  }

  lemma ForcedKnown(j: Jaxpr, p: EqnsSplit, flags: seq<bool>, inst: seq<bool>)
    requires flags == Flags(p.env, j.outs) && |inst| == |j.outs| && AllBound(p.env.Keys, j.outs)
    ensures Forced(j.outs, flags, inst) <= Known(p.env)
  {
    forall v | v in Forced(j.outs, flags, inst) ensures v in Known(p.env) {
      var i :| 0 <= i < |j.outs| && inst[i] && !flags[i] && j.outs[i].V? && j.outs[i].v == v;
      assert Bound(p.env.Keys, j.outs[i]);
    }
  }

  lemma TypecheckWhole(j: Jaxpr, s0: set<Var>, s: set<Var>)
    requires Distinct(j.binders) && s0 == ToSet(j.binders)
    requires TypecheckEqns(s0, j.eqns) == Some(s) && AllBound(s, j.outs)
    ensures Typecheck(j) == Some(JaxprType(Avals(j.binders), AtomTys(j.outs))) && FinalSet(j) == s
  {
    BindOne({}, j.binders);
    assert {} + ToSet(j.binders) == s0;
  }

  lemma FirstStageOk(j: Jaxpr, unks: seq<bool>, outUnks: seq<bool>, flags: seq<bool>, inst: seq<bool>,
                     p: EqnsSplit, known: Jaxpr, residuals: seq<Var>)
    requires Typecheck(j).Some? && |unks| == |j.binders| && |inst| == |j.outs|
    requires flags == Flags(p.env, j.outs) && AllBound(p.env.Keys, j.outs) && outUnks == Or(flags, inst)
    requires var env0 := WriteUnks(map[], unks, j.binders);
             TypecheckEqns(Known(env0), p.known) == Some(Known(p.env) + (p.residuals - Level(j)))
    requires forall v :: v in residuals ==> v in p.residuals || v in Known(p.env)
    requires p.env.Keys == Level(j) && p.residuals !! Unknown(p.env)
    requires forall v :: v in WriteUnks(map[], unks, j.binders) ==> v in p.env
    requires known == Jaxpr(Select(unks, false, j.binders), p.known, Select(outUnks, false, j.outs) + Atoms(residuals))
    ensures Typecheck(known) == Some(JaxprType(Avals(known.binders), AtomTys(known.outs)))
  {
    hide TypecheckEqns, Select, WriteUnks;
    var bound := TypecheckStart(j);
    BindersBound(j, bound);
    var env0 := WriteUnks(map[], unks, j.binders);
    SplitEnv(map[], unks, j.binders);
    SelectDistinct(unks, false, j.binders);
    var s := Known(p.env) + (p.residuals - Level(j));
    forall x | x in Select(outUnks, false, j.outs) ensures Bound(s, x) {
      var i := SelectIndex(outUnks, false, j.outs, x);
      assert Bound(p.env.Keys, j.outs[i]) && !flags[i];
    }
    BoundAtoms(s, residuals);
    BoundAppend(s, Select(outUnks, false, j.outs), Atoms(residuals));
    assert Known(map[]) + ToSet(Select(unks, false, j.binders)) == ToSet(known.binders);
    TypecheckWhole(known, Known(env0), s);
  }

  lemma SecondStageOk(j: Jaxpr, unks: seq<bool>, outUnks: seq<bool>, flags: seq<bool>, inst: seq<bool>,
                      p: EqnsSplit, unknown: Jaxpr, residuals: seq<Var>, forced: set<Var>)
    requires Typecheck(j).Some? && |unks| == |j.binders| && |inst| == |j.outs|
    requires flags == Flags(p.env, j.outs) && AllBound(p.env.Keys, j.outs) && outUnks == Or(flags, inst)
    requires |flags| == |j.outs| && forced == Forced(j.outs, flags, inst)
    requires Distinct(residuals) && ToSet(residuals) == p.residuals + forced
    requires ToSet(residuals) !! Unknown(p.env)
    requires var env0 := WriteUnks(map[], unks, j.binders);
             && (forall v :: v in env0 ==> v in p.env && p.env[v] == env0[v])
             && TypecheckEqns(ToSet(residuals) + Unknown(env0), p.unknown) == Some(ToSet(residuals) + Unknown(p.env))
    requires unknown == Jaxpr(residuals + Select(unks, true, j.binders), p.unknown, Select(outUnks, true, j.outs))
    ensures Typecheck(unknown) == Some(JaxprType(Avals(unknown.binders), AtomTys(unknown.outs)))
    ensures FinalSet(unknown) == ToSet(residuals) + Unknown(p.env)
  {
    hide TypecheckEqns, Select, WriteUnks;
    var bound := TypecheckStart(j);
    BindersBound(j, bound);
    var env0 := WriteUnks(map[], unks, j.binders);
    SplitEnv(map[], unks, j.binders);
    SelectDistinct(unks, true, j.binders);
    var s := ToSet(residuals) + Unknown(p.env);
    forall x | x in Select(outUnks, true, j.outs) ensures Bound(s, x) {
      var i := SelectIndex(outUnks, true, j.outs, x);
      assert Bound(p.env.Keys, j.outs[i]);
      if !flags[i] && x.V? {
        assert x.v in forced;
      }
    }
    assert Unknown(map[]) + ToSet(Select(unks, true, j.binders)) == ToSet(Select(unks, true, j.binders))
           == Unknown(env0);
    assert Unknown(env0) <= Unknown(p.env);
    DistinctAppend(residuals, Select(unks, true, j.binders));
    TypecheckWhole(unknown, ToSet(residuals) + Unknown(env0), s);
  }

  lemma FinishTypes(j: Jaxpr, unks: seq<bool>, outUnks: seq<bool>, known: Jaxpr, unknown: Jaxpr, residuals: seq<Var>)
    requires Typecheck(j).Some? && |unks| == |j.binders| && |outUnks| == |j.outs|
    requires Typecheck(known) == Some(JaxprType(Avals(known.binders), AtomTys(known.outs)))
    requires Typecheck(unknown) == Some(JaxprType(Avals(unknown.binders), AtomTys(unknown.outs)))
    requires known.binders == Select(unks, false, j.binders)
    requires known.outs == Select(outUnks, false, j.outs) + Atoms(residuals)
    requires unknown.binders == residuals + Select(unks, true, j.binders)
    requires unknown.outs == Select(outUnks, true, j.outs)
    ensures TypecheckSplit(j, unks, outUnks, known, unknown)
  {
    hide Typecheck, Select;
    TypecheckTypes(j);
    AvalsSelect(unks, false, j.binders);
    AvalsSelect(unks, true, j.binders);
    AvalsAppend(residuals, Select(unks, true, j.binders));
    SelectTys(outUnks, false, j.outs);
    SelectTys(outUnks, true, j.outs);
    AtomTysAppend(Select(outUnks, false, j.outs), Atoms(residuals));
    AtomTysOfVars(residuals);
    var b1 := Select(outUnks, false, AtomTys(j.outs));
    assert (b1 + Avals(residuals))[..|b1|] == b1 && (b1 + Avals(residuals))[|b1|..] == Avals(residuals);
  }

  /** partial_eval_jaxpr returns on a well-typed jaxpr if and only if every predicate is known and no
      residual would be bound twice; the unknown outputs are those that depend on unknown inputs or are
      asked for. On a jaxpr without conditionals it therefore always returns. */
  lemma {:induction false} PartialEvalReturns(order: Order, j: Jaxpr, unks: seq<bool>, instantiate: Option<seq<bool>>,
                                              n: nat)
    requires IsOrder(order) && Typecheck(j).Some? && |unks| == |j.binders| && IsInstantiate(instantiate, |j.outs|)
    requires NamesBelow(j, n)
    ensures PartialEval(order, j, unks, instantiate, n).Some? <==> KnownPreds(j, unks) && NoClash(j, unks)
    ensures PartialEval(order, j, unks, instantiate, n).Some? ==>
              var s := PartialEval(order, j, unks, instantiate, n).value;
              GoodSplit(j, unks, Instantiated(j, instantiate), s, n) && s.outUnks == OutFlags(j, unks, instantiate)
    decreases j, 2
  {
    hide PevalEqns, KnownPredsEqns, FlowEqns, NoClashInside, ResApart, NamesBelowEqns, Typecheck, TypecheckEqns,
      Select, FinishSplit;
    hide Level, LoopDone, WriteUnks, FinalSet, UnknownVars, OwnResEqns;
    LoopReturns(order, j, unks, n);
    var env0 := WriteUnks(map[], unks, j.binders);
    if PevalEqns(order, j.eqns, env0, n).Some? {
      var p := PevalEqns(order, j.eqns, env0, n).value;
      FinishReturns(order, j, unks, instantiate, p, n);
      if PartialEval(order, j, unks, instantiate, n).Some? {
        SplitShape(order, j, unks, instantiate, n);
        DoneExactly(j, unks, p, n);
      }
    }
  }

  lemma DoneExactly(j: Jaxpr, unks: seq<bool>, p: EqnsSplit, n: nat)
    requires Typecheck(j).Some? && LoopDone(j, unks, p, n)
    ensures n <= p.next && Exactly(p.residuals, OwnResEqns(j.eqns, WriteUnks(map[], unks, j.binders)), n, p.next)
  {
    hide Typecheck, TypecheckEqns, FlowEqns, BindVars, CondResEqns, OwnResEqns, ResApart;
  }

  lemma {:induction false} LoopReturns(order: Order, j: Jaxpr, unks: seq<bool>, n: nat)
    requires IsOrder(order) && Typecheck(j).Some? && |unks| == |j.binders| && NamesBelow(j, n)
    ensures var env0 := WriteUnks(map[], unks, j.binders);
            var p := PevalEqns(order, j.eqns, env0, n);
            && (p.Some? <==> KnownPreds(j, unks) && NoClashInside(j.eqns, env0))
            && (p.Some? ==> LoopDone(j, unks, p.value, n))
    decreases j, 1
  {
    hide PevalEqns, KnownPredsEqns, FlowEqns, NoClashInside, ResApart, NamesBelowEqns, Typecheck, TypecheckEqns,
      OwnResEqns, CondResEqns, Level;
    var bound := OutsBoundSet(j);
    var env0 := WriteUnks(map[], unks, j.binders);
    WriteUnksExact(map[], unks, j.binders);
    assert env0.Keys == bound;
    EqnsReturn(order, j.eqns, env0, n);
    if PevalEqns(order, j.eqns, env0, n).Some? {
      var p := PevalEqns(order, j.eqns, env0, n).value;
      assert p.env.Keys == Level(j);
      if ResApart(Level(j), j.eqns, env0) {
        LoopStages(order, j, unks, env0, p, n);
      }
      forall res | p.residuals <= res && res !! Unknown(env0)
                   && TypecheckEqns(Known(env0), p.known).Some? && TypecheckEqns(res + Unknown(env0), p.unknown).Some?
        ensures ResApart(Level(j), j.eqns, env0)
      {
        EqnsNeed(order, j.eqns, env0, n, Known(env0), res + Unknown(env0));
        assert CondResEqns(j.eqns, env0) <= res;
        assert CondResEqns(j.eqns, env0) !! Unknown(p.env);
        assert Level(j) == Known(p.env) + Unknown(p.env);
        ResApartFrom(Level(j), j.eqns, env0);
      }
    }
  }

  lemma {:induction false} LoopStages(order: Order, j: Jaxpr, unks: seq<bool>, env0: Unknowns, p: EqnsSplit, n: nat)
    requires IsOrder(order) && Typecheck(j).Some? && |unks| == |j.binders| && NamesBelow(j, n)
    requires env0 == WriteUnks(map[], unks, j.binders) && PevalEqns(order, j.eqns, env0, n) == Some(p)
    requires GoodEqns(p, j.eqns, env0, n) && p.env.Keys == Level(j) && ResApart(Level(j), j.eqns, env0)
    ensures p.residuals !! Unknown(p.env)
    ensures TypecheckEqns(Known(env0), p.known) == Some(Known(p.env) + (p.residuals - Level(j)))
    ensures forall res | p.residuals <= res && res !! Unknown(p.env) ::
              TypecheckEqns(res + Unknown(env0), p.unknown) == Some(res + Unknown(p.env))
    decreases j, 0
  {
    hide PevalEqns, FlowEqns, ResApart, NamesBelowEqns, Typecheck, TypecheckEqns, OwnResEqns, CondResEqns;
    var bound := OutsBoundSet(j);
    WriteUnksExact(map[], unks, j.binders);
    assert env0.Keys == bound;
    ScopeBelow(j, n);
    LevelInScope(j);
    assert Below(Level(j), n);
    ResApartFrom(Level(j), j.eqns, env0);
    forall v | v in p.residuals ensures v !in Unknown(p.env) {
      assert v in OwnResEqns(j.eqns, env0) || Made(v, n, p.next);
    }
    forall res | p.residuals <= res && res !! Unknown(p.env)
      ensures TypecheckEqns(res + Unknown(env0), p.unknown) == Some(res + Unknown(p.env))
    {
      EqnsStages(order, j.eqns, env0, Level(j), n, {}, res);
    }
    EqnsStages(order, j.eqns, env0, Level(j), n, {}, p.residuals);
    assert Known(env0) + {} == Known(env0);
    assert Known(p.env) + {} + (p.residuals - Level(j)) == Known(p.env) + (p.residuals - Level(j));
  }
}
