/** The headline: reverse mode is the adjoint of forward mode. */
module ReverseModeProof {
  import opened Wrappers
  import opened Lists
  import opened Jaxprs
  import opened Soundness
  import opened PartialEvaluation
  import opened PartialEvalProof
  import opened Residuals
  import opened PartialEvalTotal
  import opened Transposition
  import opened TransposeProof
  import opened TransposeTotal
  import opened Jvp
  import opened JvpTyping
  import opened JvpProof
  import opened JvpNames
  import opened Linearity
  import opened LinearStages
  import opened ReverseMode

  /** The inputs of linearize and vjp: a well-typed jaxpr, values of its input types, and names for the
      variables that are made. */
  ghost predicate Ready(order: Order, names: Naming, j: Jaxpr, xs: seq<Val>) {
    && IsOrder(order) && Typecheck(j).Some? && TypesOf(xs) == Avals(j.binders)
    && Allocation(names, j)
  }

  /** The residuals of the staged JVP do not clash. */
  ghost predicate Splittable(names: Naming, j: Jaxpr) {
    JvpJaxpr(names, j).Some?
    && NoClash(JvpJaxpr(names, j).value.jaxpr, Repeat(false, |j.binders|) + Repeat(true, |j.binders|))
  }

  /** A staged JVP can be split if no Jaxpr object occurs twice as a branch in it: that conditionals share
      variables is no obstacle, because every object is staged with new ones. */
  lemma SeparateSplits(names: Naming, j: Jaxpr)
    requires Typecheck(j).Some? && Separate(j) && Allocation(names, j)
    ensures Splittable(names, j)
  {
    hide Typecheck, JvpJaxpr, NoClash, Apart, Separate, NamesBelow, Level, MadeFor, Allocated, AllFrom, Objects;
    JvpTotal(names, j);
    JvpScope(names, j);
    var d := JvpJaxpr(names, j).value.jaxpr;
    TypecheckTypes(j);
    TypecheckTypes(d);
    ApartNoClash(d, Repeat(false, |j.binders|) + Repeat(true, |j.binders|));
  }

  /** Which of the tangent outputs of a JVP depend on the tangents. */
  ghost function TangentFlow(d: Jaxpr, n: nat, k: nat): seq<bool> {
    var flags := Flow(d, Repeat(false, n) + Repeat(true, n));
    if k <= |flags| then flags[k..] else []
  }

  /** The JVP splits into stages; only tangent outputs are delayed. */
  lemma JvpSplits(order: Order, names: Naming, j: Jaxpr) returns (d: Jvped, s: Split, unks: seq<bool>)
    requires IsOrder(order) && Typecheck(j).Some? && Allocation(names, j) && Splittable(names, j)
    ensures JvpJaxpr(names, j) == Some(d) && Typecheck(d.jaxpr) == Some(Doubled(Typecheck(j).value))
    ensures var n := |j.binders|;
            && |d.jaxpr.binders| == 2 * n
            && PartialEval(order, d.jaxpr, Repeat(false, n) + Repeat(true, n), None, names.next) == Some(s)
            && SplitOf(d.jaxpr, Repeat(false, n) + Repeat(true, n), s)
            && s.outUnks == Repeat(false, |j.outs|) + unks && |unks| == |j.outs|
            && unks == TangentFlow(d.jaxpr, n, |j.outs|)
            && Transposable(s.unknown, LateFlags(s.numRes, n))
  {
    hide PartialEval, JvpJaxpr, LinearIn, Flow, KnownPreds, Typecheck, Transposable, NoClash, NamesBelow, Allocation,
      GoodSplit, SplitOf;
    var n, k := |j.binders|, |j.outs|;
    JvpTotal(names, j);
    d := JvpJaxpr(names, j).value;
    var flags := Repeat(false, n) + Repeat(true, n);
    TypecheckTypes(j);
    TypecheckTypes(d.jaxpr);
    StagedBelow(names, j);
    JvpLinear(names, j, Repeat(true, n));
    LinearKnownPreds(d.jaxpr, flags);
    PartialEvalReturns(order, d.jaxpr, flags, None, names.next);
    s := PartialEval(order, d.jaxpr, flags, None, names.next).value;
    GoodShape(d.jaxpr, flags, Instantiated(d.jaxpr, None), s, names.next);
    FlowOuts(d.jaxpr, flags);
    OrNothing(Flow(d.jaxpr, flags), Flow(d.jaxpr, flags));
    unks := s.outUnks[k..];
    assert s.outUnks[..k] == Repeat(false, k);
    LateTransposable(order, d.jaxpr, flags, None, names.next);
    SelectHalves(d.jaxpr.binders, n);
  }

  lemma SelectHalves<T>(xs: seq<T>, n: nat)
    requires |xs| == 2 * n
    ensures var flags := Repeat(false, n) + Repeat(true, n);
            Select(flags, false, xs) == xs[..n] && Select(flags, true, xs) == xs[n..]
  {
    hide Select;
    SelectRepeat(true, false, xs[n..]);
    SelectRepeat(true, true, xs[n..]);
    SelectFirstHalf(n, Repeat(true, n), xs[..n], xs[n..]);
    assert xs == xs[..n] + xs[n..];
    AppendNothing(xs[..n], []);
  }

  lemma SelectFirstHalf<T>(k: nat, unks: seq<bool>, xs: seq<T>, ys: seq<T>)
    requires |xs| == k && |unks| == |ys|
    ensures Select(Repeat(false, k) + unks, false, xs + ys) == xs + Select(unks, false, ys)
    ensures Select(Repeat(false, k) + unks, true, xs + ys) == Select(unks, true, ys)
  {
    SelectAppend(Repeat(false, k), false, xs, unks, ys);
    SelectAppend(Repeat(false, k), true, xs, unks, ys);
    SelectRepeat(false, false, xs);
    SelectRepeat(false, true, xs);
  }

  /** The first stage returns the known outputs and residuals, and the second one the other outputs. */
  ghost predicate StageValues(m: Math, s: Split, xs: seq<Val>, ts: seq<Val>, unks: seq<bool>, us: seq<Val>,
                              vs: seq<Val>, first: seq<Val>)
    requires |us| == |vs| == |unks|
  {
    && Eval(m, s.known, xs) == Some(first) && s.numRes <= |first|
    && first[..|first| - s.numRes] == us + Select(unks, false, vs)
    && Eval(m, s.unknown, first[|first| - s.numRes..] + ts) == Some(Select(unks, true, vs))
  }

  lemma HalvesRun(m: Math, s: Split, xs: seq<Val>, ts: seq<Val>, unks: seq<bool>, us: seq<Val>, vs: seq<Val>)
    returns (first: seq<Val>)
    requires |xs| == |ts| && |us| == |vs| == |unks| && s.outUnks == Repeat(false, |us|) + unks
    requires RunSplit(m, s, Repeat(false, |xs|) + Repeat(true, |xs|), xs + ts) == Some(us + vs)
    ensures StageValues(m, s, xs, ts, unks, us, vs, first)
  {
    hide Eval, Select, Merge;
    var args, n := xs + ts, |xs|;
    SelectHalves(args, n);
    assert args[..n] == xs && args[n..] == ts;
    first := Eval(m, s.known, xs).value;
    SelectMerge(s.outUnks, first[..|first| - s.numRes], Eval(m, s.unknown, first[|first| - s.numRes..] + ts).value);
    SelectFirstHalf(|us|, unks, us, vs);
  }

  /** What the two stages of the JVP compute, in terms of dual numbers. */
  lemma StagesCompute(m: Math, order: Order, names: Naming, j: Jaxpr, ds: seq<DVal>, d: Jvped, s: Split,
                      unks: seq<bool>)
    returns (first: seq<Val>, out: seq<DVal>)
    requires Typecheck(j).Some? && DTyped(ds, Avals(j.binders)) && IsOrder(order)
    requires JvpJaxpr(names, j) == Some(d) && Typecheck(d.jaxpr) == Some(Doubled(Typecheck(j).value))
    requires |d.jaxpr.binders| == 2 * |j.binders|
    requires PartialEval(order, d.jaxpr, Repeat(false, |j.binders|) + Repeat(true, |j.binders|), None, names.next)
             == Some(s)
    requires s.outUnks == Repeat(false, |j.outs|) + unks && |unks| == |j.outs|
    ensures EvalDual(m, j, ds) == Some(out) && |out| == |j.outs| && DTyped(out, AtomTys(j.outs))
    ensures StageValues(m, s, Vals(ds), Derivs(ds), unks, Vals(out), Derivs(out), first)
  {
    hide PartialEval, JvpJaxpr, Eval, EvalDual, Typecheck, StageValues, RunSplit;
    TypecheckTypes(j);
    TypecheckTypes(d.jaxpr);
    DualSound(m, j, ds);
    out := EvalDual(m, j, ds).value;
    assert |out| == |TypesOf(Vals(out))| == |j.outs| && |ds| == |TypesOf(Vals(ds))| == |j.binders|;
    JvpCorrect(m, names, j, ds);
    TypesAppend(Vals(ds), Derivs(ds));
    PartialEvalCorrect(m, order, d.jaxpr, Repeat(false, |ds|) + Repeat(true, |ds|), None, names.next,
                       Vals(ds) + Derivs(ds));
    first := HalvesRun(m, s, Vals(ds), Derivs(ds), unks, Vals(out), Derivs(out));
  }

  /** The staged jaxpr type-checks, computes the second stage, and is transposable. */
  lemma StagedOk(late: Jaxpr, res: seq<Val>, tys: seq<Ty>, outTys: seq<Ty>, next: nat)
    requires Typecheck(late) == Some(JaxprType(TypesOf(res) + tys, outTys)) && outTys == AtomTys(late.outs)
    requires Transposable(late, LateFlags(|res|, |tys|))
    ensures var lin, consts := Staged(late, res, tys, next), Consts(late, res);
            && Avals(lin.binders) == TypesOf(consts) + tys && AtomTys(lin.outs) == outTys
            && Typecheck(lin) == Some(JaxprType(TypesOf(consts) + tys, outTys))
            && Transposable(lin, LateFlags(|consts|, |tys|))
  {
    hide Typecheck, TypecheckEqns, RuleApplies, Transposable;
    var lin, consts := Staged(late, res, tys, next), Consts(late, res);
    FreshDistinct(TypesOf(consts) + tys, next);
    if late.outs == [] {
      assert TypesOf([]) + tys == tys;
      EmptyEqns(ToSet(lin.binders));
      TypecheckWhole(lin, ToSet(lin.binders), ToSet(lin.binders));
      NothingToTranspose(lin, LateFlags(|consts|, |tys|));
    } else {
      FreshDistinct(outTys, next + |lin.binders|);
      OneCall(late, lin.binders, |res|, lin.eqns[0].outs);
    }
  }

  lemma NothingToTranspose(j: Jaxpr, undefs: seq<bool>)
    requires j.eqns == [] && |undefs| == |j.binders|
    ensures Transposable(j, undefs)
  {
  }

  /** A jaxpr that consists of one call of `body`. */
  lemma OneCall(body: Jaxpr, binders: seq<Var>, r: nat, outs: seq<Var>)
    requires Typecheck(body) == Some(JaxprType(Avals(binders), Avals(outs))) && r <= |binders|
    requires Distinct(binders) && Distinct(outs) && ToSet(outs) !! ToSet(binders)
    requires Transposable(body, LateFlags(r, |binders| - r))
    ensures var j := Jaxpr(binders, [CallEqn(body, Atoms(binders), outs)], Atoms(outs));
            && AtomTys(j.outs) == Avals(outs) && Typecheck(j) == Some(JaxprType(Avals(binders), Avals(outs)))
            && Transposable(j, LateFlags(r, |binders| - r))
  {
    hide Typecheck, TypecheckEqns, RuleApplies;
    var e := CallEqn(body, Atoms(binders), outs);
    var s := ToSet(binders);
    BoundAtoms(s, binders);
    AtomTysOfVars(binders);
    AtomTysOfVars(outs);
    SingleEqn(s, e);
    BoundAtoms(s + ToSet(outs), outs);
    TypecheckWhole(Jaxpr(binders, [e], Atoms(outs)), s, s + ToSet(outs));
    StagedFlags(binders, r);
    CallApplies(e, LateFlags(r, |binders| - r));
  }

  lemma EmptyEqns(s: set<Var>)
    ensures TypecheckEqns(s, []) == Some(s)
  {
  }

  lemma CallApplies(e: Eqn, undefs: seq<bool>)
    requires e.CallEqn?
    ensures RuleApplies(e, undefs) == Transposable(e.body, undefs)
  {
  }

  lemma StagedFlags(vs: seq<Var>, r: nat)
    requires r <= |vs| && Distinct(vs)
    ensures UndefFlags(KnownBinders(vs, LateFlags(r, |vs| - r)), Atoms(vs)) == LateFlags(r, |vs| - r)
  {
  }

  lemma StagedEval(m: Math, late: Jaxpr, res: seq<Val>, tys: seq<Ty>, outTys: seq<Ty>, next: nat, ts: seq<Val>)
    requires Typecheck(late) == Some(JaxprType(TypesOf(res) + tys, outTys)) && TypesOf(ts) == tys
    requires var lin, consts := Staged(late, res, tys, next), Consts(late, res);
             Typecheck(lin) == Some(JaxprType(TypesOf(consts) + tys, outTys))
    ensures Eval(m, late, res + ts).Some?
    ensures Eval(m, Staged(late, res, tys, next), Consts(late, res) + ts) == Eval(m, late, res + ts)
  {
    hide Typecheck, Eval, FinalEnv;
    var lin, consts := Staged(late, res, tys, next), Consts(late, res);
    TypesAppend(consts, ts);
    TypesAppend(res, ts);
    EvalSound(m, lin, consts + ts);
    EvalSound(m, late, res + ts);
    TypecheckTypes(late);
    TypecheckTypes(lin);
    var env := FinalEnv(m, lin, consts + ts).value;
    if late.outs == [] {
      assert |Eval(m, late, res + ts).value| == |outTys| == 0;
    } else {
      assert Sat(m, lin.eqns[0], env);
    }
  }

  /** linearize_flat fails only if residuals clash. It returns the value of the function and a
      well-typed jaxpr that can be transposed in all its inputs. */
  lemma LinearizeReturns(m: Math, order: Order, names: Naming, j: Jaxpr, xs: seq<Val>)
    requires Ready(order, names, j, xs)
    ensures LinearizeFlat(m, order, names, j, xs).Some? <==> Splittable(names, j)
    ensures LinearizeFlat(m, order, names, j, xs).Some? ==>
              var l := LinearizeFlat(m, order, names, j, xs).value;
              && JvpJaxpr(names, j).Some?
              && Eval(m, j, xs) == Some(l.outs)
              && |l.unks| == |j.outs| && Avals(l.lin.binders) == TypesOf(l.consts) + Avals(j.binders)
              && l.unks == TangentFlow(JvpJaxpr(names, j).value.jaxpr, |j.binders|, |j.outs|)
              && Typecheck(l.lin) == Some(JaxprType(TypesOf(l.consts) + Avals(j.binders),
                                                    Select(l.unks, true, AtomTys(j.outs))))
              && AtomTys(l.lin.outs) == Select(l.unks, true, AtomTys(j.outs))
              && Transposable(l.lin, LateFlags(|l.consts|, |j.binders|))
  {
    hide PartialEval, JvpJaxpr, Eval, EvalDual, Typecheck, Select, Transposable, Staged, NoClash, NamesBelow,
      Allocation, GoodSplit, TangentFlow, Splittable;
    if !Splittable(names, j) {
      NotSplit(m, order, names, j, xs);
      return;
    }
    var ds := DVals(xs, Zeros(Avals(j.binders)));
    ZerosTyped(Avals(j.binders));
    TypecheckTypes(j);
    var d, s, unks, first, out := LinearizeParts(m, order, names, j, ds);
    DualSound(m, j, ds);
    var l := LinearizeFlat(m, order, names, j, xs).value;
    StagedOk(s.unknown, first[|first| - s.numRes..], Avals(j.binders), Select(unks, true, AtomTys(j.outs)), s.next);
    assert l.outs == Vals(out);
  }

  lemma NotSplit(m: Math, order: Order, names: Naming, j: Jaxpr, xs: seq<Val>)
    requires Ready(order, names, j, xs) && !Splittable(names, j)
    ensures LinearizeFlat(m, order, names, j, xs).None?
  {
    hide PartialEval, JvpJaxpr, Eval, Typecheck, Staged, NoClash, NamesBelow, Allocation, KnownPreds, GoodSplit;
    TypecheckTypes(j);
    JvpTotal(names, j);
    StagedBelow(names, j);
    var d := JvpJaxpr(names, j).value;
    TypecheckTypes(d.jaxpr);
    PartialEvalReturns(order, d.jaxpr, Repeat(false, |j.binders|) + Repeat(true, |j.binders|), None, names.next);
  }

  lemma ZerosTyped(tys: seq<Ty>)
    ensures TypesOf(Zeros(tys)) == tys
  {
  }

  /** The pieces that linearize_flat puts together, with their values on dual numbers. */
  lemma LinearizeParts(m: Math, order: Order, names: Naming, j: Jaxpr, ds: seq<DVal>)
    returns (d: Jvped, s: Split, unks: seq<bool>, first: seq<Val>, out: seq<DVal>)
    requires Ready(order, names, j, Vals(ds)) && DTyped(ds, Avals(j.binders)) && Splittable(names, j)
    ensures EvalDual(m, j, ds) == Some(out) && |out| == |j.outs| == |unks| && DTyped(out, AtomTys(j.outs))
    ensures s.numRes <= |first|
    ensures var res := first[|first| - s.numRes..];
            && LinearizeFlat(m, order, names, j, Vals(ds))
               == Some(Linearized(Vals(out), Staged(s.unknown, res, Avals(j.binders), s.next), Consts(s.unknown, res),
                                  unks))
            && Eval(m, s.unknown, res + Derivs(ds)) == Some(Select(unks, true, Derivs(out)))
            && Typecheck(s.unknown)
               == Some(JaxprType(TypesOf(res) + Avals(j.binders), Select(unks, true, AtomTys(j.outs))))
            && AtomTys(s.unknown.outs) == Select(unks, true, AtomTys(j.outs))
            && Transposable(s.unknown, LateFlags(|res|, |j.binders|))
    ensures first[..|first| - s.numRes] == Vals(out) + Select(unks, false, Derivs(out))
    ensures Eval(m, s.known, Vals(ds)) == Some(first)
    ensures JvpJaxpr(names, j) == Some(d) && unks == TangentFlow(d.jaxpr, |j.binders|, |j.outs|)
    ensures PartialEval(order, d.jaxpr, Repeat(false, |j.binders|) + Repeat(true, |j.binders|), None, names.next)
            == Some(s)
  {
    hide PartialEval, JvpJaxpr, Eval, EvalDual, Typecheck, Select, Transposable, Staged, NoClash, NamesBelow,
      Allocation, SplitOf, TangentFlow, Splittable;
    d, s, unks := JvpSplits(order, names, j);
    TypecheckTypes(j);
    first, out := StagesCompute(m, order, names, j, ds, d, s, unks);
    LateTypes(m, order, names, j, ds, d, s, unks, first);
    LinearizeIs(m, order, names, j, Vals(ds), d, s, unks, first, Vals(out));
  }

  lemma GoodShape(j: Jaxpr, unks: seq<bool>, inst: seq<bool>, s: Split, n: nat)
    requires GoodSplit(j, unks, inst, s, n)
    ensures SplitOf(j, unks, s)
  {
  }

  lemma LinearizeIs(m: Math, order: Order, names: Naming, j: Jaxpr, xs: seq<Val>, d: Jvped, s: Split, unks: seq<bool>,
                    first: seq<Val>, outs: seq<Val>)
    requires |xs| == |j.binders| && JvpJaxpr(names, j) == Some(d)
    requires PartialEval(order, d.jaxpr, Repeat(false, |xs|) + Repeat(true, |xs|), None, names.next) == Some(s)
    requires s.outUnks == Repeat(false, |outs|) + unks && |unks| == |outs|
    requires Eval(m, s.known, xs) == Some(first) && s.numRes <= |first| && outs <= first[..|first| - s.numRes]
    ensures LinearizeFlat(m, order, names, j, xs)
         == Some(Linearized(outs, Staged(s.unknown, first[|first| - s.numRes..], Avals(j.binders), s.next),
                            Consts(s.unknown, first[|first| - s.numRes..]), unks))
  {
    hide PartialEval, JvpJaxpr, Eval, Staged;
    var half := |outs|;
    assert s.outUnks[..half] == Repeat(false, half) && s.outUnks[half..] == unks;
    assert first[..half] == outs;
  }

  lemma LateTypes(m: Math, order: Order, names: Naming, j: Jaxpr, ds: seq<DVal>, d: Jvped, s: Split, unks: seq<bool>,
                  first: seq<Val>)
    requires Typecheck(j).Some? && DTyped(ds, Avals(j.binders)) && |d.jaxpr.binders| == 2 * |j.binders|
    requires Typecheck(d.jaxpr) == Some(Doubled(Typecheck(j).value))
    requires SplitOf(d.jaxpr, Repeat(false, |j.binders|) + Repeat(true, |j.binders|), s)
    requires s.outUnks == Repeat(false, |j.outs|) + unks && |unks| == |j.outs|
    requires Eval(m, s.known, Vals(ds)) == Some(first) && s.numRes <= |first|
    ensures var res := first[|first| - s.numRes..];
            && |res| == s.numRes
            && Typecheck(s.unknown)
               == Some(JaxprType(TypesOf(res) + Avals(j.binders), Select(unks, true, AtomTys(j.outs))))
            && AtomTys(s.unknown.outs) == Select(unks, true, AtomTys(j.outs))
  {
    hide Eval, Typecheck, Select, TypecheckSplit, SplitOf;
    var n := |j.binders|;
    var flags := Repeat(false, n) + Repeat(true, n);
    var args := Vals(ds) + Derivs(ds);
    TypecheckTypes(j);
    TypecheckTypes(d.jaxpr);
    TypesAppend(Vals(ds), Derivs(ds));
    assert |ds| == |TypesOf(Vals(ds))| == n;
    SelectHalves(args, n);
    assert args[..n] == Vals(ds) && args[n..] == Derivs(ds);
    StageTypes(m, d.jaxpr, s, flags, args);
    LateTys(j, d.jaxpr, s, unks);
    TypecheckTypes(s.unknown);
  }

  lemma LateTys(j: Jaxpr, d: Jaxpr, s: Split, unks: seq<bool>)
    requires Typecheck(j).Some? && Typecheck(d) == Some(Doubled(Typecheck(j).value)) && |d.binders| == 2 * |j.binders|
    requires SplitOf(d, Repeat(false, |j.binders|) + Repeat(true, |j.binders|), s)
    requires s.outUnks == Repeat(false, |j.outs|) + unks && |unks| == |j.outs|
    ensures s.numRes <= |s.unknown.binders|
    ensures Typecheck(s.unknown) == Some(JaxprType(Avals(s.unknown.binders[..s.numRes]) + Avals(j.binders),
                                                   Select(unks, true, AtomTys(j.outs))))
  {
    hide Typecheck, Select, SplitOf;
    var n := |j.binders|;
    TypecheckTypes(j);
    TypecheckTypes(d);
    SplitTys(d, Repeat(false, n) + Repeat(true, n), s);
    var tys := Avals(j.binders) + Avals(j.binders);
    SelectHalves(tys, n);
    assert tys[n..] == Avals(j.binders);
    SelectFirstHalf(|j.outs|, unks, AtomTys(j.outs), AtomTys(j.outs));
  }

  /** The linear jaxpr computes the tangents of forward mode that it has not dropped, and the
      dropped ones are zero. */
  lemma LinearizeCorrect(m: Math, order: Order, names: Naming, j: Jaxpr, ds: seq<DVal>)
    requires Ready(order, names, j, Vals(ds)) && DTyped(ds, Avals(j.binders))
    requires LinearizeFlat(m, order, names, j, Vals(ds)).Some?
    ensures EvalDual(m, j, ds).Some?
    ensures var l, out := LinearizeFlat(m, order, names, j, Vals(ds)).value, EvalDual(m, j, ds).value;
            && |l.unks| == |out|
            && Eval(m, l.lin, l.consts + Derivs(ds)) == Some(Select(l.unks, true, Derivs(out)))
            && forall i :: 0 <= i < |out| && !l.unks[i] ==> out[i].dv == Zero(TypeOf(out[i].v))
  {
    hide PartialEval, JvpJaxpr, Eval, EvalDual, Typecheck, Select, Transposable, Staged, NamesBelow, Allocation,
      LinearizeFlat, TangentFlow, Splittable;
    var xs := Vals(ds);
    LinearizeReturns(m, order, names, j, xs);
    var d, s, unks, first, out := LinearizeParts(m, order, names, j, ds);
    StagedEval(m, s.unknown, first[|first| - s.numRes..], Avals(j.binders), Select(unks, true, AtomTys(j.outs)), s.next,
               Derivs(ds));
    var still := DVals(xs, Zeros(Avals(j.binders)));
    ZerosTyped(Avals(j.binders));
    var d0, s0, unks0, first0, out0 := LinearizeParts(m, order, names, j, still);
    TypecheckTypes(j);
    DualSound(m, j, still);
    DroppedZero(unks, out, out0);
  }

  /** The first stage does not see the tangents, so it returns the same for zero tangents. */
  lemma DroppedZero(unks: seq<bool>, out: seq<DVal>, out0: seq<DVal>)
    requires |unks| == |out| == |out0| && Vals(out) == Vals(out0) && Still(out0)
    requires Vals(out) + Select(unks, false, Derivs(out)) == Vals(out0) + Select(unks, false, Derivs(out0))
    ensures forall i :: 0 <= i < |out| && !unks[i] ==> out[i].dv == Zero(TypeOf(out[i].v))
  {
    hide Select;
    var k := |out|;
    var a, b := Select(unks, false, Derivs(out)), Select(unks, false, Derivs(out0));
    assert (Vals(out) + a)[k..] == a && (Vals(out0) + b)[k..] == b;
    forall i | 0 <= i < k && !unks[i] ensures out[i].dv == Zero(TypeOf(out[i].v)) {
      SelectedEqual(unks, Derivs(out), Derivs(out0), i);
      assert Vals(out)[i] == Vals(out0)[i];
    }
  }

  lemma {:induction false} SelectedEqual<T>(bs: seq<bool>, xs: seq<T>, ys: seq<T>, i: nat)
    requires |bs| == |xs| == |ys| && i < |xs| && !bs[i] && Select(bs, false, xs) == Select(bs, false, ys)
    ensures xs[i] == ys[i]
  {
    var a, b := Select(bs[1..], false, xs[1..]), Select(bs[1..], false, ys[1..]);
    if !bs[0] {
      assert ([xs[0]] + a)[0] == ([ys[0]] + b)[0] && ([xs[0]] + a)[1..] == a && ([ys[0]] + b)[1..] == b;
    } else {
      assert [] + a == a && [] + b == b;
    }
    if i > 0 {
      SelectedEqual(bs[1..], xs[1..], ys[1..], i - 1);
    }
  }

  lemma {:induction false} DotZeros(xs: seq<Val>, ys: seq<Val>)
    requires forall y :: y in ys ==> Num(y) == 0.0
    ensures Dot(xs, ys) == 0.0
  {
    if xs != [] && ys != [] {
      assert ys[0] in ys;
      DotZeros(xs[1..], ys[1..]);
    }
  }

  lemma {:induction false} AllUndef(args: seq<Transposition.Primal>, xs: seq<Val>)
    requires |args| == |xs| && forall a :: a in args ==> a.Undef?
    ensures Fits(args, xs) && UndefVals(args, xs) == xs
  {
    if args != [] {
      assert args[0] in args;
      AllUndef(args[1..], xs[1..]);
    }
  }

  lemma {:induction false} LinearInputs(consts: seq<Val>, ts: seq<Val>)
    ensures var args := TransposeInputs(consts, TypesOf(ts));
            Fits(args, consts + ts) && UndefVals(args, consts + ts) == ts
    decreases consts
  {
    hide UndefVals;
    var args, xs := TransposeInputs(consts, TypesOf(ts)), consts + ts;
    if consts == [] {
      assert xs == ts;
      AllUndef(args, ts);
    } else {
      assert args[1..] == TransposeInputs(consts[1..], TypesOf(ts));
      assert xs[1..] == consts[1..] + ts;
      LinearInputs(consts[1..], ts);
      UndefValsStep(args, xs);
    }
  }

  lemma TransposeInputsOk(consts: seq<Val>, tys: seq<Ty>)
    ensures Undefs(TransposeInputs(consts, tys)) == LateFlags(|consts|, |tys|)
    ensures PrimalTys(TransposeInputs(consts, tys)) == TypesOf(consts) + tys
  {
  }

  /** After linearize, vjp_flat does not fail: for cotangents of the right types it returns the value
      of the function and one cotangent of the right type for every input. */
  lemma VjpReturns(m: Math, order: Order, names: Naming, j: Jaxpr, xs: seq<Val>, l: Linearized, cts: seq<Val>)
    requires Ready(order, names, j, xs) && LinearizeFlat(m, order, names, j, xs) == Some(l)
    requires CtsFit(cts, AtomTys(l.lin.outs))
    ensures VjpFlat(m, order, names, j, xs, cts).Some?
    ensures Eval(m, j, xs) == Some(VjpFlat(m, order, names, j, xs, cts).value.0)
    ensures TypesOf(VjpFlat(m, order, names, j, xs, cts).value.1) == Avals(j.binders)
  {
    hide LinearizeFlat, Eval, Typecheck, Select, Transposable, Transpose, NamesBelow, Allocation, TangentFlow, JvpJaxpr;
    LinearizeReturns(m, order, names, j, xs);
    var k := |l.consts|;
    TransposeInputsOk(l.consts, Avals(j.binders));
    assert |l.lin.binders| == |Avals(l.lin.binders)| == k + |j.binders|;
    TransposeReturns(l.lin, TransposeInputs(l.consts, Avals(j.binders)), cts);
    SelectLate(l.lin.binders[..k], l.lin.binders[k..]);
    assert l.lin.binders[..k] + l.lin.binders[k..] == l.lin.binders;
    assert Avals(l.lin.binders[k..]) == Avals(l.lin.binders)[k..] == Avals(j.binders);
  }

  /** Reverse mode is the adjoint of forward mode, for every program, point, tangents and
      cotangents: the cotangents weigh the tangents that forward mode computes for the outputs with
      an unknown tangent exactly as the result of vjp weighs the tangents of the inputs. */
  lemma VjpAdjoint(m: Math, order: Order, names: Naming, j: Jaxpr, ds: seq<DVal>, l: Linearized, out: seq<DVal>,
                   cts: seq<Val>)
    requires Ready(order, names, j, Vals(ds)) && DTyped(ds, Avals(j.binders))
    requires LinearizeFlat(m, order, names, j, Vals(ds)) == Some(l) && EvalDual(m, j, ds) == Some(out)
    requires CtsFit(cts, AtomTys(l.lin.outs))
    ensures |l.unks| == |out| && VjpFlat(m, order, names, j, Vals(ds), cts).Some?
    ensures Dot(cts, Select(l.unks, true, Derivs(out)))
         == Dot(VjpFlat(m, order, names, j, Vals(ds), cts).value.1, Derivs(ds))
  {
    hide LinearizeFlat, Eval, EvalDual, Typecheck, Select, Transposable, Transpose, Dot, NamesBelow, Allocation,
      UndefVals, Still, TangentFlow, JvpJaxpr;
    var xs := Vals(ds);
    LinearizeReturns(m, order, names, j, xs);
    VjpReturns(m, order, names, j, xs, l, cts);
    LinearizeCorrect(m, order, names, j, ds);
    var still := DVals(xs, Zeros(Avals(j.binders)));
    ZerosTyped(Avals(j.binders));
    LinearizeCorrect(m, order, names, j, still);
    LinAdjoint(m, l.lin, l.consts, cts, Derivs(ds), Derivs(still));
    StillZeros(xs, Avals(j.binders));
    StillTangents(m, j, still, l.unks, cts);
    DotZeros(Transpose(l.lin, TransposeInputs(l.consts, Avals(j.binders)), cts).value, Derivs(still));
  }

  lemma StillZeros(xs: seq<Val>, tys: seq<Ty>)
    requires TypesOf(xs) == tys
    ensures |xs| == |tys| && Still(DVals(xs, Zeros(tys))) && forall y :: y in Zeros(tys) ==> Num(y) == 0.0
  {
  }

  lemma SelectLate<T>(a: seq<T>, b: seq<T>)
    ensures Select(LateFlags(|a|, |b|), true, a + b) == b
  {
    SelectAppend(Repeat(false, |a|), true, a, Repeat(true, |b|), b);
    SelectRepeat(false, true, a);
    SelectRepeat(true, true, b);
  }

  /** The adjoint of a jaxpr that is transposed in all inputs but its constants. */
  lemma LinAdjoint(m: Math, lin: Jaxpr, consts: seq<Val>, cts: seq<Val>, ts: seq<Val>, zs: seq<Val>)
    requires TypesOf(ts) == TypesOf(zs) && Typecheck(lin).Some?
    requires TypesOf(consts) + TypesOf(ts) == Avals(lin.binders)
    requires Transpose(lin, TransposeInputs(consts, TypesOf(ts)), cts).Some?
    ensures Eval(m, lin, consts + ts).Some? && Eval(m, lin, consts + zs).Some?
    ensures var grads := Transpose(lin, TransposeInputs(consts, TypesOf(ts)), cts).value;
            Dot(cts, Eval(m, lin, consts + ts).value) - Dot(cts, Eval(m, lin, consts + zs).value)
            == Dot(grads, ts) - Dot(grads, zs)
  {
    hide Eval, Typecheck, Transpose, Dot, UndefVals;
    LinearInputs(consts, ts);
    LinearInputs(consts, zs);
    TypesAppend(consts, ts);
    TypesAppend(consts, zs);
    TransposeAdjoint(m, lin, TransposeInputs(consts, TypesOf(ts)), cts, consts + ts, consts + zs);
  }

  lemma StillTangents(m: Math, j: Jaxpr, ds: seq<DVal>, unks: seq<bool>, cts: seq<Val>)
    requires Typecheck(j).Some? && DTyped(ds, Avals(j.binders)) && Still(ds)
    requires EvalDual(m, j, ds).Some? && |unks| == |EvalDual(m, j, ds).value|
    ensures Dot(cts, Select(unks, true, Derivs(EvalDual(m, j, ds).value))) == 0.0
  {
    hide EvalDual, Typecheck, Select, Dot;
    TypecheckTypes(j);
    DualSound(m, j, ds);
    var out := EvalDual(m, j, ds).value;
    forall y | y in Select(unks, true, Derivs(out)) ensures Num(y) == 0.0 {
      var i := SelectIndex(unks, true, Derivs(out), y);
    }
    DotZeros(cts, Select(unks, true, Derivs(out)));
  }
}
