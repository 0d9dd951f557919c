/** reduce_sum adds up exactly the elements whose index agrees with that of the result, and vmap of it does
    so in every row. */
module Sums {
  import opened Wrappers
  import opened Lists
  import opened Batching
  import opened BatchingProof
  import opened Elementwise

  // ---------- all indices of a shape ----------

  /** The indices within `shape` that extend `prefix`, in row-major order. */
  function Extensions(shape: seq<nat>, prefix: seq<nat>): seq<seq<nat>>
    requires |prefix| <= |shape|
    decreases |shape| - |prefix|, 1, 0
  {
    if |prefix| == |shape| then [prefix] else ExtensionsBelow(shape, prefix, shape[|prefix|])
  }

  function ExtensionsBelow(shape: seq<nat>, prefix: seq<nat>, n: nat): seq<seq<nat>>
    requires |prefix| < |shape|
    decreases |shape| - |prefix|, 0, n
  {
    if n == 0 then [] else ExtensionsBelow(shape, prefix, n - 1) + Extensions(shape, prefix + [n - 1])
  }

  function Indices(shape: seq<nat>): seq<seq<nat>> {
    Extensions(shape, [])
  }

  ghost predicate Extending(shape: seq<nat>, prefix: seq<nat>, idx: seq<nat>) {
    && |prefix| <= |idx| == |shape| && idx[..|prefix|] == prefix
    && forall d :: |prefix| <= d < |shape| ==> idx[d] < shape[d]
  }

  lemma {:induction false} ExtensionsExact(shape: seq<nat>, prefix: seq<nat>)
    requires |prefix| <= |shape|
    ensures forall idx :: idx in Extensions(shape, prefix) <==> Extending(shape, prefix, idx)
    ensures Distinct(Extensions(shape, prefix))
    decreases |shape| - |prefix|, 1, 0
  {
    var k := |prefix|;
    if k == |shape| {
      forall idx ensures idx in Extensions(shape, prefix) <==> Extending(shape, prefix, idx) {
        assert |idx| == k ==> idx[..k] == idx;
      }
    } else {
      BelowExact(shape, prefix, shape[k]);
      forall idx ensures idx in Extensions(shape, prefix) <==> Extending(shape, prefix, idx) {
        assert idx in ExtensionsBelow(shape, prefix, shape[k]) <==> Extending(shape, prefix, idx) && idx[k] < shape[k];
      }
    }
  }

  lemma {:induction false} BelowExact(shape: seq<nat>, prefix: seq<nat>, n: nat)
    requires |prefix| < |shape| && n <= shape[|prefix|]
    ensures forall idx :: idx in ExtensionsBelow(shape, prefix, n) <==>
              Extending(shape, prefix, idx) && idx[|prefix|] < n
    ensures Distinct(ExtensionsBelow(shape, prefix, n))
    decreases |shape| - |prefix|, 0, n
  {
    if n > 0 {
      var k, lower, last := |prefix|, ExtensionsBelow(shape, prefix, n - 1), Extensions(shape, prefix + [n - 1]);
      BelowExact(shape, prefix, n - 1);
      ExtensionsExact(shape, prefix + [n - 1]);
      forall idx ensures idx in last <==> Extending(shape, prefix, idx) && idx[k] == n - 1 {
        if |idx| == |shape| {
          assert idx[..k + 1] == idx[..k] + [idx[k]];
        }
      }
      DistinctJoin(lower, last);
    }
  }

  lemma DistinctJoin<T(!new)>(xs: seq<T>, ys: seq<T>)
    requires Distinct(xs) && Distinct(ys) && forall x :: x in xs ==> x !in ys
    ensures Distinct(xs + ys)
  {
    var zs := xs + ys;
    forall i, j | 0 <= i < j < |zs| ensures zs[i] != zs[j] {
      if i < |xs| <= j {
        assert xs[i] in xs && ys[j - |xs|] in ys;
      }
    }
  }

  /** Every index within the shape occurs, once. */
  lemma IndicesExact(shape: seq<nat>)
    ensures forall idx :: idx in Indices(shape) <==> InRange(shape, idx)
    ensures Distinct(Indices(shape))
  {
    ExtensionsExact(shape, []);
    forall idx ensures Extending(shape, [], idx) <==> InRange(shape, idx) {
      assert |idx| == |shape| ==> idx[..0] == [];
    }
  }

  // ---------- the sum ----------

  /** From dimension `k` on, the kept components of `idx` are `rest`. */
  predicate Agrees(summed: seq<bool>, idx: seq<nat>, k: nat, rest: seq<nat>)
    requires |idx| == |summed| && k <= |idx|
  {
    Select(summed[k..], false, idx[k..]) == rest
  }

  /** The sum of the elements at the listed indices that agree. */
  function Total(idxs: seq<seq<nat>>, summed: seq<bool>, k: nat, rest: seq<nat>, at: seq<nat> -> real): real
    requires forall idx :: idx in idxs ==> |idx| == |summed|
    requires k <= |summed|
  {
    if idxs == [] then 0.0
    else
      var last := idxs[|idxs| - 1];
      assert last in idxs;
      Total(idxs[..|idxs| - 1], summed, k, rest, at) + if Agrees(summed, last, k, rest) then at(last) else 0.0
  }

  lemma {:induction false} TotalJoin(xs: seq<seq<nat>>, ys: seq<seq<nat>>, summed: seq<bool>, k: nat, rest: seq<nat>,
                                     at: seq<nat> -> real)
    requires forall idx :: idx in xs + ys ==> |idx| == |summed|
    requires k <= |summed|
    ensures (forall idx :: idx in xs ==> |idx| == |summed|) && forall idx :: idx in ys ==> |idx| == |summed|
    ensures Total(xs + ys, summed, k, rest, at) == Total(xs, summed, k, rest, at) + Total(ys, summed, k, rest, at)
    decreases |ys|
  {
    hide Agrees;
    assert forall idx :: idx in xs ==> idx in xs + ys;
    assert forall idx :: idx in ys ==> idx in xs + ys;
    if ys == [] {
      assert xs + ys == xs;
    } else {
      var front := ys[..|ys| - 1];
      assert (xs + ys)[..|xs + ys| - 1] == xs + front;
      assert forall idx :: idx in xs + front ==> idx in xs + ys;
      TotalJoin(xs, front, summed, k, rest, at);
    }
  }

  /** Sums over the same indices that agree on the same ones. */
  lemma {:induction false} TotalSame(idxs: seq<seq<nat>>, summed: seq<bool>, k: nat, rest: seq<nat>, k': nat,
                                     rest': seq<nat>, at: seq<nat> -> real)
    requires forall idx :: idx in idxs ==> |idx| == |summed|
    requires k <= |summed| && k' <= |summed|
    requires forall idx :: idx in idxs ==> (Agrees(summed, idx, k, rest) <==> Agrees(summed, idx, k', rest'))
    ensures Total(idxs, summed, k, rest, at) == Total(idxs, summed, k', rest', at)
  {
    hide Agrees;
    if idxs != [] {
      assert idxs[|idxs| - 1] in idxs;
      assert forall idx :: idx in idxs[..|idxs| - 1] ==> idx in idxs;
      TotalSame(idxs[..|idxs| - 1], summed, k, rest, k', rest', at);
    }
  }

  lemma {:induction false} TotalNone(idxs: seq<seq<nat>>, summed: seq<bool>, k: nat, rest: seq<nat>,
                                     at: seq<nat> -> real)
    requires forall idx :: idx in idxs ==> |idx| == |summed|
    requires k <= |summed| && forall idx :: idx in idxs ==> !Agrees(summed, idx, k, rest)
    ensures Total(idxs, summed, k, rest, at) == 0.0
  {
    hide Agrees;
    if idxs != [] {
      assert idxs[|idxs| - 1] in idxs;
      assert forall idx :: idx in idxs[..|idxs| - 1] ==> idx in idxs;
      TotalNone(idxs[..|idxs| - 1], summed, k, rest, at);
    }
  }

  lemma AgreesStep(summed: seq<bool>, idx: seq<nat>, k: nat, rest: seq<nat>)
    requires |idx| == |summed| && k < |idx|
    ensures summed[k] ==> (Agrees(summed, idx, k, rest) <==> Agrees(summed, idx, k + 1, rest))
    ensures !summed[k] ==>
              (Agrees(summed, idx, k, rest) <==>
               rest != [] && idx[k] == rest[0] && Agrees(summed, idx, k + 1, rest[1..]))
  {
    assert summed[k..][1..] == summed[k + 1..] && idx[k..][1..] == idx[k + 1..];
    if !summed[k] && rest != [] {
      assert rest == [rest[0]] + rest[1..];
    }
  }

  /** The components of an index of the result. */
  predicate RestInRange(shape: seq<nat>, summed: seq<bool>, k: nat, rest: seq<nat>)
    requires |summed| == |shape| && k <= |shape|
  {
    InRange(Select(summed[k..], false, shape[k..]), rest)
  }

  lemma RestStep(shape: seq<nat>, summed: seq<bool>, k: nat, rest: seq<nat>)
    requires |summed| == |shape| && k < |shape| && RestInRange(shape, summed, k, rest)
    ensures summed[k] ==> RestInRange(shape, summed, k + 1, rest)
    ensures !summed[k] ==> rest != [] && rest[0] < shape[k] && RestInRange(shape, summed, k + 1, rest[1..])
  {
    assert summed[k..][1..] == summed[k + 1..] && shape[k..][1..] == shape[k + 1..];
    var kept := Select(summed[k..], false, shape[k..]);
    if !summed[k] {
      assert kept == [shape[k]] + Select(summed[k + 1..], false, shape[k + 1..]);
      assert forall d :: 0 <= d < |rest| - 1 ==> rest[1..][d] == rest[d + 1] && kept[1..][d] == kept[d + 1];
    }
  }

  lemma {:induction false} SumMeaning(shape: seq<nat>, summed: seq<bool>, at: seq<nat> -> real, rest: seq<nat>,
                                      prefix: seq<nat>)
    requires |summed| == |shape| && |prefix| <= |shape| && RestInRange(shape, summed, |prefix|, rest)
    ensures forall idx :: idx in Extensions(shape, prefix) ==> |idx| == |summed|
    ensures SumAt(shape, summed, at, rest, prefix)
         == Total(Extensions(shape, prefix), summed, |prefix|, rest, at)
    decreases |shape| - |prefix|, 1, 0
  {
    hide Extending;
    var k := |prefix|;
    LengthOk(shape, prefix);
    if k == |shape| {
      assert summed[k..] == [] && shape[k..] == [];
      assert [prefix][..0] == [];
    } else {
      RestStep(shape, summed, k, rest);
      hide RestInRange;
      if summed[k] {
        RangeMeaning(shape, summed, at, rest, prefix, shape[k]);
      } else {
        SliceMeaning(shape, summed, at, rest, prefix, shape[k]);
      }
    }
  }

  lemma LengthOk(shape: seq<nat>, prefix: seq<nat>)
    requires |prefix| <= |shape|
    ensures forall idx :: idx in Extensions(shape, prefix) ==> |idx| == |shape|
  {
    ExtensionsExact(shape, prefix);
  }

  /** A dimension that is summed over. */
  lemma {:induction false} RangeMeaning(shape: seq<nat>, summed: seq<bool>, at: seq<nat> -> real, rest: seq<nat>,
                                        prefix: seq<nat>, n: nat)
    requires |summed| == |shape| && |prefix| < |shape| && summed[|prefix|] && n <= shape[|prefix|]
    requires RestInRange(shape, summed, |prefix| + 1, rest)
    ensures forall idx :: idx in ExtensionsBelow(shape, prefix, n) ==> |idx| == |summed|
    ensures SumRange(shape, summed, at, rest, prefix, n)
         == Total(ExtensionsBelow(shape, prefix, n), summed, |prefix|, rest, at)
    decreases |shape| - |prefix|, 0, n
  {
    hide Agrees, RestInRange, SumAt, Extensions;
    if n > 0 {
      var k, last := |prefix|, Extensions(shape, prefix + [n - 1]);
      RangeMeaning(shape, summed, at, rest, prefix, n - 1);
      SumMeaning(shape, summed, at, rest, prefix + [n - 1]);
      forall idx | idx in last ensures Agrees(summed, idx, k, rest) <==> Agrees(summed, idx, k + 1, rest) {
        AgreesStep(summed, idx, k, rest);
      }
      TotalSame(last, summed, k, rest, k + 1, rest, at);
      TotalJoin(ExtensionsBelow(shape, prefix, n - 1), last, summed, k, rest, at);
    }
  }

  lemma SliceAgrees(shape: seq<nat>, summed: seq<bool>, rest: seq<nat>, prefix: seq<nat>, v: nat)
    requires |summed| == |shape| && |prefix| < |shape| && !summed[|prefix|] && rest != []
    ensures forall idx :: idx in Extensions(shape, prefix + [v]) ==>
              |idx| == |summed|
              && (Agrees(summed, idx, |prefix|, rest) <==> rest[0] == v && Agrees(summed, idx, |prefix| + 1, rest[1..]))
  {
    hide Agrees, Extensions;
    var k := |prefix|;
    ExtensionsExact(shape, prefix + [v]);
    forall idx | idx in Extensions(shape, prefix + [v])
      ensures |idx| == |summed|
      ensures Agrees(summed, idx, k, rest) <==> rest[0] == v && Agrees(summed, idx, k + 1, rest[1..])
    {
      assert Extending(shape, prefix + [v], idx);
      assert idx[..k + 1][k] == v;
      AgreesStep(summed, idx, k, rest);
    }
  }

  lemma SliceTotal(shape: seq<nat>, summed: seq<bool>, at: seq<nat> -> real, rest: seq<nat>, prefix: seq<nat>, v: nat)
    requires |summed| == |shape| && |prefix| < |shape| && !summed[|prefix|] && rest != []
    ensures var idxs, k := Extensions(shape, prefix + [v]), |prefix|;
            && (forall idx :: idx in idxs ==> |idx| == |summed|)
            && Total(idxs, summed, k, rest, at)
               == if rest[0] == v then Total(idxs, summed, k + 1, rest[1..], at) else 0.0
  {
    hide Agrees, Extensions, Total;
    var idxs, k := Extensions(shape, prefix + [v]), |prefix|;
    SliceAgrees(shape, summed, rest, prefix, v);
    if rest[0] == v {
      TotalSame(idxs, summed, k, rest, k + 1, rest[1..], at);
    } else {
      TotalNone(idxs, summed, k, rest, at);
    }
  }

  /** The indices below `n` are those below `n - 1` and those of the last slice. */
  lemma TotalBelow(shape: seq<nat>, summed: seq<bool>, at: seq<nat> -> real, rest: seq<nat>, prefix: seq<nat>, n: nat)
    requires |summed| == |shape| && |prefix| < |shape|
    requires forall idx :: idx in ExtensionsBelow(shape, prefix, n) ==> |idx| == |summed|
    requires forall idx :: idx in Extensions(shape, prefix + [n]) ==> |idx| == |summed|
    ensures forall idx :: idx in ExtensionsBelow(shape, prefix, n + 1) ==> |idx| == |summed|
    ensures Total(ExtensionsBelow(shape, prefix, n + 1), summed, |prefix|, rest, at)
         == Total(ExtensionsBelow(shape, prefix, n), summed, |prefix|, rest, at)
            + Total(Extensions(shape, prefix + [n]), summed, |prefix|, rest, at)
  {
    hide Total, Extensions;
    TotalJoin(ExtensionsBelow(shape, prefix, n), Extensions(shape, prefix + [n]), summed, |prefix|, rest, at);
  }

  lemma TotalBelowNone(shape: seq<nat>, summed: seq<bool>, at: seq<nat> -> real, rest: seq<nat>, prefix: seq<nat>)
    requires |summed| == |shape| && |prefix| < |shape|
    ensures forall idx :: idx in ExtensionsBelow(shape, prefix, 0) ==> |idx| == |summed|
    ensures Total(ExtensionsBelow(shape, prefix, 0), summed, |prefix|, rest, at) == 0.0
  {
  }

  /** A dimension that is kept: only the indices with the given component agree. */
  lemma {:induction false} SliceMeaning(shape: seq<nat>, summed: seq<bool>, at: seq<nat> -> real, rest: seq<nat>,
                                        prefix: seq<nat>, n: nat)
    requires |summed| == |shape| && |prefix| < |shape| && !summed[|prefix|] && n <= shape[|prefix|]
    requires rest != [] && RestInRange(shape, summed, |prefix| + 1, rest[1..])
    ensures forall idx :: idx in ExtensionsBelow(shape, prefix, n) ==> |idx| == |summed|
    ensures Total(ExtensionsBelow(shape, prefix, n), summed, |prefix|, rest, at)
         == if rest[0] < n then SumAt(shape, summed, at, rest[1..], prefix + [rest[0]]) else 0.0
    decreases |shape| - |prefix|, 0, n
  {
    hide Agrees, RestInRange, SumAt, Extensions, ExtensionsBelow, Total;
    if n == 0 {
      TotalBelowNone(shape, summed, at, rest, prefix);
    } else {
      SliceMeaning(shape, summed, at, rest, prefix, n - 1);
      SliceTotal(shape, summed, at, rest, prefix, n - 1);
      TotalBelow(shape, summed, at, rest, prefix, n - 1);
      if rest[0] == n - 1 {
        SumMeaning(shape, summed, at, rest[1..], prefix + [n - 1]);
      }
    }
  }

  // ---------- vmap of a sum ----------

  /** The sum of all elements of `x` whose index agrees with `index` on the dimensions that are not in
      `axis`. */
  function SumOver(axis: seq<nat>, x: Arr, index: seq<nat>): real {
    IndicesExact(x.shape);
    Total(Indices(x.shape), Summed(axis, |x.shape|), 0, index, x.at)
  }

  lemma SumValue(m: Math, axis: seq<nat>, x: Arr, index: seq<nat>)
    requires ValidAxes(axis, |x.shape|) && InRange(Select(Summed(axis, |x.shape|), false, x.shape), index)
    ensures Unary(m, ReduceSum(axis), x).Some?
    ensures Unary(m, ReduceSum(axis), x).value.shape == Select(Summed(axis, |x.shape|), false, x.shape)
    ensures Unary(m, ReduceSum(axis), x).value.at(index) == SumOver(axis, x, index)
  {
    var summed := Summed(axis, |x.shape|);
    assert summed[0..] == summed && x.shape[0..] == x.shape;
    SumMeaning(x.shape, summed, x.at, index, []);
  }

  /** vmap of reduce_sum over the axis `b`: element [i] + index of the result is the sum of all elements of
      row `i` whose index agrees with `index` on the dimensions that are kept. */
  lemma VmapSum(m: Math, axis: seq<nat>, x: Arr, b: nat, n: nat, i: nat, index: seq<nat>)
    requires b < |x.shape| && x.shape[b] == n && i < n && ValidAxes(axis, |x.shape| - 1)
    requires var s := Delete(x.shape, b); InRange(Select(Summed(axis, |s|), false, s), index)
    ensures var r, s := VmapFlat(m, OneOp(ReduceSum(axis), 1), [Some(b)], [x], n), Delete(x.shape, b);
            && r.Some? && |r.value| == 1 && r.value[0].shape == [n] + Select(Summed(axis, |s|), false, s)
            && r.value[0].at([i] + index) == SumOver(axis, Row(x, b, i), index)
  {
    hide VmapFlat, EvalProgram, BodyRules, Stacked, Unary, SumOver, ValidAxes, Summed;
    var p, row := OneOp(ReduceSum(axis), 1), Row(x, b, i);
    assert MappedSizes([x], [Some(b)]) == Some({n}) by {
      assert [x][1..] == [] && [Some(b)][1..] == [];
      assert MappedSizes([], []) == Some({});
      assert {} + {n} == {n};
    }
    VmapIsMap(m, p, [Some(b)], [x], n, i);
    SumValue(m, axis, row, index);
    var r := Unary(m, ReduceSum(axis), row).value;
    assert ArgRows([x], [Some(b)], i) == [row];
    OneOpValue(m, ReduceSum(axis), [row], r);
    assert Kinds(TracersIn([x], [Some(b)])) == [Mapped];
    SumRules(axis);
    var outs := VmapFlat(m, p, [Some(b)], [x], n).value;
    assert Stacked(n, outs[0], i, r);
    StackedAt(n, outs[0], i, r, index);
  }

  lemma SumRules(axis: seq<nat>)
    ensures BodyRules(OneOp(ReduceSum(axis), 1), [Mapped])
  {
    assert OneOp(ReduceSum(axis), 1).instrs[1..] == [];
    assert Boxed([Mapped]) == [Mapped];
    assert KindsAt(Refs(1), [Mapped]) == [Mapped];
  }
}
