/** Exactly when the result of vjp is the adjoint of the whole derivative: when no output whose
    tangent is known stands before one whose tangent is unknown. vjp_flat leaves out the former,
    and the cotangents, which map pairs with the remaining outputs, then move to wrong outputs. */
module TruncatedCotangents {
  import opened Wrappers
  import opened Lists
  import opened Jaxprs
  import opened PartialEvaluation
  import opened Residuals
  import opened PartialEvalTotal
  import opened Transposition
  import opened TransposeProof
  import opened TransposeTotal
  import opened Jvp
  import opened JvpTyping
  import opened JvpProof
  import opened JvpNames
  import opened Products
  import opened ReverseMode
  import opened ReverseModeProof

  /** All outputs with an unknown tangent come first. */
  predicate UnknownFirst(unks: seq<bool>) {
    forall i, k :: 0 <= i < k < |unks| && unks[k] ==> unks[i]
  }

  lemma UnknownFirstTail(unks: seq<bool>)
    requires UnknownFirst(unks) && unks != []
    ensures UnknownFirst(unks[1..])
  {
  }

  lemma {:induction false} DotUnknownFirst(cts: seq<Val>, unks: seq<bool>, ts: seq<Val>)
    requires UnknownFirst(unks) && |unks| == |ts| && forall i :: 0 <= i < |ts| && !unks[i] ==> Num(ts[i]) == 0.0
    ensures Dot(cts, Select(unks, true, ts)) == Dot(cts, ts)
  {
    if unks != [] && cts != [] {
      if unks[0] {
        assert Select(unks, true, ts)[1..] == Select(unks[1..], true, ts[1..]);
        UnknownFirstTail(unks);
        DotUnknownFirst(cts[1..], unks[1..], ts[1..]);
      } else {
        forall t | t in ts ensures Num(t) == 0.0 {
          var i :| 0 <= i < |ts| && ts[i] == t;
        }
        DotZeros(cts, ts);
        DotZeros(cts, Select(unks, true, ts));
      }
    }
  }

  lemma {:induction false} FitUnknownFirst(cts: seq<Val>, unks: seq<bool>, tys: seq<Ty>)
    requires UnknownFirst(unks) && |unks| == |tys| && TypesOf(cts) == tys
    ensures CtsFit(cts, Select(unks, true, tys))
  {
    if unks != [] {
      if unks[0] {
        UnknownFirstTail(unks);
        assert |cts| == |TypesOf(cts)| && TypesOf(cts[1..]) == tys[1..];
        FitUnknownFirst(cts[1..], unks[1..], tys[1..]);
        var rest := Select(unks[1..], true, tys[1..]);
        forall i | 0 <= i < |cts| && i < |[tys[0]] + rest| ensures TypeOf(cts[i]) == ([tys[0]] + rest)[i] {
          assert TypesOf(cts)[0] == tys[0];
          if i > 0 {
            assert cts[i] == cts[1..][i - 1];
          }
        }
      } else {
        forall i | 0 <= i < |unks| ensures !unks[i] {
        }
        if Select(unks, true, tys) != [] {
          var i := SelectIndex(unks, true, tys, Select(unks, true, tys)[0]);
          assert false;
        }
      }
    }
  }

  /** If all known tangents come last (in particular if there are none), vjp computes the adjoint
      of the whole derivative. */
  lemma VjpFullAdjoint(m: Math, order: Order, names: Naming, j: Jaxpr, ds: seq<DVal>, l: Linearized, out: seq<DVal>,
                       cts: seq<Val>)
    requires Ready(order, names, j, Vals(ds)) && DTyped(ds, Avals(j.binders)) && TypesOf(cts) == AtomTys(j.outs)
    requires LinearizeFlat(m, order, names, j, Vals(ds)) == Some(l) && EvalDual(m, j, ds) == Some(out)
    requires UnknownFirst(l.unks)
    ensures VjpFlat(m, order, names, j, Vals(ds), cts).Some?
    ensures Dot(cts, Derivs(out)) == Dot(VjpFlat(m, order, names, j, Vals(ds), cts).value.1, Derivs(ds))
  {
    hide LinearizeFlat, EvalDual, Typecheck, Select, Dot, VjpFlat, JvpJaxpr, TangentFlow, UnknownFirst, CtsFit, Eval;
    hide Transposable;
    LinearizeReturns(m, order, names, j, Vals(ds));
    FitUnknownFirst(cts, l.unks, AtomTys(j.outs));
    LinearizeCorrect(m, order, names, j, ds);
    VjpAdjoint(m, order, names, j, ds, l, out, cts);
    DotUnknownFirst(cts, l.unks, Derivs(out));
  }

  // ---------- every other pattern fails ----------

  /** The function that returns its i-th input where `unks[i]`, and otherwise the constant 0. */
  function Mixed(unks: seq<bool>): Jaxpr {
    var xs := FreshVars(Repeat(Float, |unks|), 0);
    Jaxpr(xs, [], seq(|unks|, i requires 0 <= i < |unks| => if unks[i] then V(xs[i]) else Lit(R(0.0))))
  }

  function Unit(n: nat, k: nat): (r: seq<Val>)
    ensures |r| == n && forall i :: 0 <= i < n ==> r[i] == R(if i == k then 1.0 else 0.0)
  {
    seq(n, i => R(if i == k then 1.0 else 0.0))
  }

  lemma {:induction false} DotUnit(cts: seq<Val>, k: nat, ys: seq<Val>)
    requires k < |cts| && forall i :: 0 <= i < |cts| ==> Num(cts[i]) == if i == k then 1.0 else 0.0
    ensures Dot(cts, ys) == if k < |ys| then Num(ys[k]) else 0.0
  {
    if ys != [] {
      TimesLinear(Num(ys[0]), 0.0, 0.0);
      if k == 0 {
        forall i | 0 <= i < |cts[1..]| ensures Num(cts[1..][i]) == 0.0 {
          assert cts[1..][i] == cts[i + 1];
        }
        ZerosDot(cts[1..], ys[1..]);
      } else {
        DotUnit(cts[1..], k - 1, ys[1..]);
      }
    }
  }

  lemma {:induction false} ZerosDot(xs: seq<Val>, ys: seq<Val>)
    requires forall i :: 0 <= i < |xs| ==> Num(xs[i]) == 0.0
    ensures Dot(xs, ys) == 0.0
  {
    if xs != [] && ys != [] {
      TimesLinear(Num(ys[0]), 0.0, 0.0);
      ZerosDot(xs[1..], ys[1..]);
    }
  }

  /** Leaving out an element before the `k`-th moves the only one that is not zero away from
      position `k`. */
  lemma {:induction false} Shifted(unks: seq<bool>, ts: seq<Val>, k: nat)
    requires k < |unks| == |ts| && forall i :: 0 <= i < |ts| && i != k ==> Num(ts[i]) == 0.0
    ensures forall p :: k < p < |Select(unks, true, ts)| ==> Num(Select(unks, true, ts)[p]) == 0.0
    ensures false in unks[..k] && k < |Select(unks, true, ts)| ==> Num(Select(unks, true, ts)[k]) == 0.0
  {
    var tail := Select(unks[1..], true, ts[1..]);
    if k == 0 {
      forall t | t in tail ensures Num(t) == 0.0 {
        var i := SelectIndex(unks[1..], true, ts[1..], t);
        assert ts[i + 1] == t;
      }
    } else {
      Shifted(unks[1..], ts[1..], k - 1);
      assert unks[..k] == [unks[0]] + unks[1..][..k - 1];
    }
  }

  lemma MixedTypes(unks: seq<bool>)
    ensures Typecheck(Mixed(unks)) == Some(JaxprType(Repeat(Float, |unks|), Repeat(Float, |unks|)))
    ensures Avals(Mixed(unks).binders) == Repeat(Float, |unks|) == AtomTys(Mixed(unks).outs)
    ensures Separate(Mixed(unks)) && NamesBelow(Mixed(unks), |unks|) && Distinct(Mixed(unks).binders)
  {
    var j := Mixed(unks);
    FreshDistinct(Repeat(Float, |unks|), 0);
    forall x | x in j.outs ensures Bound(ToSet(j.binders), x) {
      var i :| 0 <= i < |unks| && j.outs[i] == x;
    }
    TypecheckWhole(j, ToSet(j.binders), ToSet(j.binders));
    assert AtomTys(j.outs) == Repeat(Float, |unks|);
  }

  lemma MixedDerivs(m: Math, unks: seq<bool>, ds: seq<DVal>)
    requires |ds| == |unks|
    ensures EvalDual(m, Mixed(unks), ds).Some? && |EvalDual(m, Mixed(unks), ds).value| == |unks|
    ensures forall i :: 0 <= i < |unks| ==>
              EvalDual(m, Mixed(unks), ds).value[i].dv == if unks[i] then ds[i].dv else R(0.0)
  {
    hide WriteDs, Mixed, Typecheck;
    MixedTypes(unks);
    var j := Mixed(unks);
    MixedShape(unks);
    WriteDsSpec(map[], j.binders, ds);
    var env := WriteDs(map[], j.binders, ds).value;
    assert EvalDualEqns(m, [], env) == Some(env);
    MixedReads(unks, ds, env);
  }

  lemma MixedShape(unks: seq<bool>)
    ensures Mixed(unks).eqns == [] && |Mixed(unks).binders| == |unks| == |Mixed(unks).outs|
  {
  }

  lemma MixedReads(unks: seq<bool>, ds: seq<DVal>, env: DEnv)
    requires |ds| == |unks| == |Mixed(unks).binders|
    requires forall i :: 0 <= i < |unks| ==> Mixed(unks).binders[i] in env && env[Mixed(unks).binders[i]] == ds[i]
    ensures AllBound(env.Keys, Mixed(unks).outs)
    ensures |Mixed(unks).outs| == |unks|
    ensures forall i :: 0 <= i < |unks| ==> GetDs(env, Mixed(unks).outs)[i].dv == if unks[i] then ds[i].dv else R(0.0)
  {
  }

  lemma MixedFlow(names: Naming, unks: seq<bool>)
    requires JvpJaxpr(names, Mixed(unks)).Some?
    ensures TangentFlow(JvpJaxpr(names, Mixed(unks)).value.jaxpr, |unks|, |unks|) == unks
  {
    hide WriteTrs, WriteUnks, FlowEqns, Typecheck, JvpJaxpr;
    MixedTypes(unks);
    var j, n := Mixed(unks), |unks|;
    var ps, ts, trs, r := JvpShape(names, j);
    var next := names.first(j);
    assert r == Traced([], trs, next + 2 * n);
    var d := JvpJaxpr(names, j).value.jaxpr;
    var env := WriteUnks(map[], Repeat(false, n) + Repeat(true, n), ps + ts);
    NoFlow(env);
    StartFlags(Avals(j.binders), next, Repeat(true, n), ps, ts);
    TracedDuals(j.binders, ps, ts, trs);
    MixedTangents(unks, ps, ts, trs, env);
    var outs := ReadTrs(trs, j.outs);
    assert Flags(env, d.outs)[n..] == Flags(env, Tangents(outs));
  }

  lemma NoFlow(env: Unknowns)
    ensures FlowEqns([], env) == env
  {
  }

  lemma TracedDuals(vs: seq<Var>, ps: seq<Var>, ts: seq<Var>, trs: TrEnv)
    requires Distinct(vs) && |ps| == |ts| == |vs| && WriteTrs(map[], vs, Duals(ps, ts)) == Some(trs)
    ensures forall i :: 0 <= i < |vs| ==> vs[i] in trs && trs[vs[i]] == Dual(V(ps[i]), V(ts[i]))
  {
    hide WriteTrs;
    WriteTrsSpec(map[], vs, Duals(ps, ts));
    assert forall i :: 0 <= i < |vs| ==> vs[i] in ToSet(vs);
  }

  lemma MixedTangents(unks: seq<bool>, ps: seq<Var>, ts: seq<Var>, trs: TrEnv, env: Unknowns)
    requires var xs := Mixed(unks).binders;
             && |ps| == |ts| == |unks|
             && forall i :: 0 <= i < |xs| ==> xs[i] in trs && trs[xs[i]] == Dual(V(ps[i]), V(ts[i]))
    requires forall i :: 0 <= i < |ts| ==> ts[i] in env && env[ts[i]]
    requires AllBound(trs.Keys, Mixed(unks).outs)
    ensures Flags(env, Tangents(ReadTrs(trs, Mixed(unks).outs))) == unks
  {
  }

  /** For every pattern with a known tangent before an unknown one, there are a program with that
      pattern, tangents and cotangents for which the result of vjp is not the adjoint. */
  lemma VjpNotFullAdjoint(m: Math, order: Order, unks: seq<bool>, i: nat, k: nat)
    returns (names: Naming, ds: seq<DVal>, l: Linearized, out: seq<DVal>, cts: seq<Val>)
    requires IsOrder(order) && i < k < |unks| && !unks[i] && unks[k]
    ensures var j := Mixed(unks);
            && Ready(order, names, j, Vals(ds)) && DTyped(ds, Avals(j.binders)) && TypesOf(cts) == AtomTys(j.outs)
            && LinearizeFlat(m, order, names, j, Vals(ds)) == Some(l) && EvalDual(m, j, ds) == Some(out)
            && l.unks == unks
            && VjpFlat(m, order, names, j, Vals(ds), cts).Some?
            && Dot(cts, Derivs(out)) != Dot(VjpFlat(m, order, names, j, Vals(ds), cts).value.1, Derivs(ds))
  {
    hide LinearizeFlat, EvalDual, Typecheck, Select, Dot, VjpFlat, JvpJaxpr, TangentFlow, Eval, Transposable, Mixed,
      Splittable, Separate;
    var j, n := Mixed(unks), |unks|;
    MixedTypes(unks);
    ds := DVals(Unit(n, n), Unit(n, k));
    assert TypesOf(Unit(n, n)) == Repeat(Float, n) == TypesOf(Unit(n, k));
    names := AllocationExists(j, n);
    SeparateSplits(names, j);
    LinearizeReturns(m, order, names, j, Vals(ds));
    l := LinearizeFlat(m, order, names, j, Vals(ds)).value;
    assert |j.binders| == |Avals(j.binders)| && |j.outs| == |AtomTys(j.outs)|;
    MixedFlow(names, unks);
    MixedDerivs(m, unks, ds);
    out := EvalDual(m, j, ds).value;
    cts := Unit(n, k);
    forall p | 0 <= p < |l.lin.outs| ensures AtomTys(l.lin.outs)[p] == Float {
      assert AtomTys(l.lin.outs)[p] in AtomTys(j.outs);
    }
    VjpAdjoint(m, order, names, j, ds, l, out, cts);
    forall p | 0 <= p < n ensures Derivs(out)[p] == R(if p == k then 1.0 else 0.0) {
      assert Derivs(ds)[p] == ds[p].dv;
    }
    Shifted(unks, Derivs(out), k);
    assert unks[..k][i] == false;
    DotUnit(cts, k, Derivs(out));
    DotUnit(cts, k, Select(unks, true, Derivs(out)));
  }
}
