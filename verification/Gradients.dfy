/** Reverse mode computes gradients: what vjp returns weighs a direction as the cotangents weigh the
    derivative of the function in that direction. */
module Gradients {
  import opened Wrappers
  import opened Lists
  import opened Products
  import opened Jaxprs
  import opened PartialEvaluation
  import opened PartialEvalProof
  import opened TransposeProof
  import opened TransposeTotal
  import opened Jvp
  import opened JvpNames
  import opened JvpProof
  import opened Expansions
  import opened Derivatives
  import opened ReverseMode
  import opened ReverseModeProof
  import opened TruncatedCotangents

  // ---------- weighted sums of expansions ----------

  function DotBound(cts: seq<Val>, b: real): real {
    if cts == [] then 0.0 else RealProduct(Abs(Num(cts[0])), b) + DotBound(cts[1..], b)
  }

  lemma {:induction false} DotBoundOk(cts: seq<Val>, b: real)
    requires 0.0 <= b
    ensures 0.0 <= DotBound(cts, b)
  {
    hide RealProduct;
    if cts != [] {
      DotBoundOk(cts[1..], b);
      ProductUp(0.0, 0.0, Abs(Num(cts[0])), b);
    }
  }

  /** A multiple of an expansion. */
  lemma ExpandsScaled(c: real, x: real, dx: real, y: real, h: real, b: real)
    requires Expands(x, dx, y, h, b)
    ensures Expands(RealProduct(c, x), RealProduct(c, dx), RealProduct(c, y), h, RealProduct(Abs(c), b))
  {
    var r := y - x - RealProduct(h, dx);
    assert RealProduct(c, r) == RealProduct(c, y) - RealProduct(c, x) - RealProduct(h, RealProduct(c, dx)) by {
      ScaleRemainder(c, x, dx, y, h);
    }
    hide RealProduct;
    AbsBound(c, r, Abs(c), RealProduct(b, RealProduct(h, h)));
    Associate(Abs(c), b, RealProduct(h, h));
  }

  lemma ScaleRemainder(c: real, x: real, dx: real, y: real, h: real)
    ensures RealProduct(c, y - x - RealProduct(h, dx))
         == RealProduct(c, y) - RealProduct(c, x) - RealProduct(h, RealProduct(c, dx))
  {
    assert c * (h * dx) == h * (c * dx);
  }

  lemma Associate(x: real, y: real, z: real)
    ensures RealProduct(x, RealProduct(y, z)) == RealProduct(RealProduct(x, y), z)
  {
    assert x * (y * z) == x * y * z;
  }

  lemma ExpandsSum(x: real, dx: real, x1: real, y: real, dy: real, y1: real, h: real, b: real, b': real)
    requires Expands(x, dx, x1, h, b) && Expands(y, dy, y1, h, b')
    ensures Expands(x + y, dx + dy, x1 + y1, h, b + b')
  {
    hide RealProduct;
    Distribute(dx, dy, h);
    Distribute(b, b', RealProduct(h, h));
  }

  lemma ZeroExpands(h: real)
    ensures Expands(0.0, 0.0, 0.0, h, 0.0)
  {
    Regroup(h, 0.0, 0.0);
    Regroup(RealProduct(h, h), 0.0, 0.0);
  }

  lemma {:induction false} DotNear(cts: seq<Val>, ds: seq<DVal>, ys: seq<Val>, h: real, b: real)
    requires NearVals(ds, ys, h, b) && 0.0 <= b
    ensures Expands(Dot(cts, Vals(ds)), Dot(cts, Derivs(ds)), Dot(cts, ys), h, DotBound(cts, b))
    decreases cts
  {
    hide Expands, RealProduct;
    ZeroExpands(h);
    if cts == [] {
    } else if ds == [] {
      DotBoundOk(cts, b);
      ExpandsMore(0.0, 0.0, 0.0, h, 0.0, DotBound(cts, b));
    } else {
      var c := Num(cts[0]);
      assert Vals(ds)[1..] == Vals(ds[1..]) && Derivs(ds)[1..] == Derivs(ds[1..]);
      TailNear(ds, ys, h, b);
      DotNear(cts[1..], ds[1..], ys[1..], h, b);
      assert NearVal(ds[0], ys[0], h, b);
      if ds[0].v.B? {
        ExpandsMore(0.0, 0.0, 0.0, h, 0.0, b);
      }
      assert Expands(Num(ds[0].v), Num(ds[0].dv), Num(ys[0]), h, b);
      ExpandsScaled(c, Num(ds[0].v), Num(ds[0].dv), Num(ys[0]), h, b);
      var v, d, y := RealProduct(c, Num(ds[0].v)), RealProduct(c, Num(ds[0].dv)), RealProduct(c, Num(ys[0]));
      ExpandsSum(v, d, y, Dot(cts[1..], Vals(ds[1..])), Dot(cts[1..], Derivs(ds[1..])), Dot(cts[1..], ys[1..]), h,
                 RealProduct(Abs(c), b), DotBound(cts[1..], b));
    }
  }

  lemma {:induction false} SelectNear(bs: seq<bool>, ds: seq<DVal>, ys: seq<Val>, h: real, b: real)
    requires NearVals(ds, ys, h, b) && |bs| == |ds|
    ensures NearVals(Select(bs, true, ds), Select(bs, true, ys), h, b)
    decreases bs
  {
    if bs != [] {
      TailNear(ds, ys, h, b);
      SelectNear(bs[1..], ds[1..], ys[1..], h, b);
      NearCons(ds[0], Select(bs[1..], true, ds[1..]), ys[0], Select(bs[1..], true, ys[1..]), h, b);
      hide NearVals;
    }
  }

  lemma NearCons(d: DVal, ds: seq<DVal>, y: Val, ys: seq<Val>, h: real, b: real)
    requires NearVals(ds, ys, h, b)
    ensures NearVal(d, y, h, b) ==> NearVals([d] + ds, [y] + ys, h, b)
    ensures NearVals([] + ds, [] + ys, h, b)
  {
    hide NearVal;
    assert [] + ds == ds && [] + ys == ys;
  }

  lemma SelectParts(bs: seq<bool>, ds: seq<DVal>)
    requires |bs| == |ds|
    ensures Vals(Select(bs, true, ds)) == Select(bs, true, Vals(ds))
    ensures Derivs(Select(bs, true, ds)) == Select(bs, true, Derivs(ds))
  {
    SelectPointwise(bs, true, ds, Vals(ds), (d: DVal) => d.v);
    SelectPointwise(bs, true, ds, Derivs(ds), (d: DVal) => d.dv);
  }

  // ---------- vjp ----------

  /** For every program that linearize accepts, every point, cotangents and direction: the weighted sum of
      the outputs with unknown tangent, as a function of the step in that direction, has the derivative
      that vjp's result gives the direction. */
  lemma VjpDerivative(m: Math, order: Order, names: Naming, j: Jaxpr, xs: seq<Val>, l: Linearized, cts: seq<Val>,
                      dxs: seq<Val>)
    returns (us: seq<Val>, grads: seq<Val>, b: real)
    requires SinCos(m) && Ready(order, names, j, xs) && LinearizeFlat(m, order, names, j, xs) == Some(l)
    requires CtsFit(cts, AtomTys(l.lin.outs)) && TypesOf(dxs) == Avals(j.binders)
    ensures VjpFlat(m, order, names, j, xs, cts) == Some((us, grads)) && Eval(m, j, xs) == Some(us)
    ensures |xs| == |dxs| && |us| == |l.unks| && 0.0 <= b
    ensures forall h: real :: Step(h) && SamePath(m, j, xs, Moved(xs, dxs, h)) ==>
              && Eval(m, j, Moved(xs, dxs, h)).Some? && |Eval(m, j, Moved(xs, dxs, h)).value| == |l.unks|
              && Expands(Dot(cts, Select(l.unks, true, us)), Dot(grads, dxs),
                         Dot(cts, Select(l.unks, true, Eval(m, j, Moved(xs, dxs, h)).value)), h, b)
  {
    hide SinCos, NearVals, Eval, EvalDual, SamePath, Typecheck, Expands, Dot, Select, LinearizeFlat, VjpFlat,
      Allocation, CtsFit;
    assert |xs| == |TypesOf(xs)| == |dxs|;
    var ds := DVals(xs, dxs);
    TypecheckTypes(j);
    DualSound(m, j, ds);
    var out := EvalDual(m, j, ds).value;
    VjpReturns(m, order, names, j, xs, l, cts);
    VjpAdjoint(m, order, names, j, ds, l, out, cts);
    us, grads := VjpFlat(m, order, names, j, xs, cts).value.0, VjpFlat(m, order, names, j, xs, cts).value.1;
    var b0 := DualDerivative(m, j, ds);
    b := DotBound(cts, b0);
    DotBoundOk(cts, b0);
    forall h: real | Step(h) && SamePath(m, j, xs, Moved(xs, dxs, h))
      ensures Eval(m, j, Moved(xs, dxs, h)).Some? && |Eval(m, j, Moved(xs, dxs, h)).value| == |l.unks|
      ensures Expands(Dot(cts, Select(l.unks, true, us)), Dot(grads, dxs),
                      Dot(cts, Select(l.unks, true, Eval(m, j, Moved(xs, dxs, h)).value)), h, b)
    {
      var ys := Eval(m, j, Moved(xs, dxs, h)).value;
      NearLength(out, ys, h, b0);
      SelectNear(l.unks, out, ys, h, b0);
      SelectParts(l.unks, out);
      DotNear(cts, Select(l.unks, true, out), Select(l.unks, true, ys), h, b0);
    }
  }

  lemma NearLength(ds: seq<DVal>, ys: seq<Val>, h: real, b: real)
    requires NearVals(ds, ys, h, b)
    ensures |ys| == |ds|
  {
  }

  /** grad: for a program with one real output, with the cotangent 1, the result of vjp is the gradient: it
      weighs every direction as the derivative of the output in that direction. */
  lemma GradDerivative(m: Math, order: Order, names: Naming, j: Jaxpr, xs: seq<Val>, dxs: seq<Val>)
    returns (u: real, grads: seq<Val>, b: real)
    requires SinCos(m) && Ready(order, names, j, xs) && LinearizeFlat(m, order, names, j, xs).Some?
    requires AtomTys(j.outs) == [Float] && TypesOf(dxs) == Avals(j.binders)
    ensures VjpFlat(m, order, names, j, xs, [R(1.0)]) == Some(([R(u)], grads)) && Eval(m, j, xs) == Some([R(u)])
    ensures TypesOf(grads) == Avals(j.binders) && |xs| == |dxs| && 0.0 <= b
    ensures forall h: real :: Step(h) && SamePath(m, j, xs, Moved(xs, dxs, h)) ==>
              var r := Eval(m, j, Moved(xs, dxs, h));
              r.Some? && |r.value| == 1 && r.value[0].R? && Expands(u, Dot(grads, dxs), r.value[0].r, h, b)
  {
    hide SinCos, NearVals, Eval, EvalDual, SamePath, Typecheck, Expands, Dot, Select, LinearizeFlat, VjpFlat,
      Allocation, CtsFit, UnknownFirst;
    assert |xs| == |TypesOf(xs)| == |dxs|;
    var ds, cts := DVals(xs, dxs), [R(1.0)];
    TypecheckTypes(j);
    DualSound(m, j, ds);
    var l, out := LinearizeFlat(m, order, names, j, xs).value, EvalDual(m, j, ds).value;
    LinearizeCorrect(m, order, names, j, ds);
    OneOutput(out);
    OneUnknownFirst(l.unks);
    assert TypesOf(cts) == [Float];
    VjpFullAdjoint(m, order, names, j, ds, l, out, cts);
    FitUnknownFirst(cts, l.unks, AtomTys(j.outs));
    LinearizeReturns(m, order, names, j, xs);
    VjpReturns(m, order, names, j, xs, l, cts);
    u, grads := out[0].v.r, VjpFlat(m, order, names, j, xs, cts).value.1;
    DotOne(Derivs(out));
    b := DualDerivative(m, j, ds);
    forall h: real | Step(h) && SamePath(m, j, xs, Moved(xs, dxs, h))
      ensures var r := Eval(m, j, Moved(xs, dxs, h));
              r.Some? && |r.value| == 1 && r.value[0].R? && Expands(u, Dot(grads, dxs), r.value[0].r, h, b)
    {
      OneNear(out, Eval(m, j, Moved(xs, dxs, h)).value, h, b);
    }
  }

  lemma OneOutput(out: seq<DVal>)
    requires DTyped(out, [Float])
    ensures |out| == 1 && out[0].v.R? && out[0].dv.R? && Vals(out) == [R(out[0].v.r)]
  {
    assert |TypesOf(Vals(out))| == 1;
    assert TypesOf(Vals(out))[0] == Float && TypesOf(Derivs(out))[0] == Float;
  }

  lemma OneUnknownFirst(unks: seq<bool>)
    requires |unks| == 1
    ensures UnknownFirst(unks)
  {
  }

  lemma DotOne(ts: seq<Val>)
    requires |ts| == 1
    ensures Dot([R(1.0)], ts) == Num(ts[0])
  {
    assert [R(1.0)][1..] == [];
  }

  lemma OneNear(out: seq<DVal>, ys: seq<Val>, h: real, b: real)
    requires NearVals(out, ys, h, b) && |out| == 1 && out[0].v.R? && out[0].dv.R?
    ensures |ys| == 1 && ys[0].R? && Expands(out[0].v.r, out[0].dv.r, ys[0].r, h, b)
  {
    assert NearVal(out[0], ys[0], h, b);
  }
}
