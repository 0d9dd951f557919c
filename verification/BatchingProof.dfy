/** vmap agrees with mapping the function over the rows of its mapped arguments. */
module BatchingProof {
  import opened Wrappers
  import opened Lists
  import opened Batching

  /** Row `i` of an array along dimension `b`. */
  function Row(x: Arr, b: nat, i: nat): Arr
    requires b < |x.shape|
  {
    Arr(Delete(x.shape, b), index => if b <= |index| then x.at(Insert(index, b, i)) else 0.0)
  }

  /** `a` is example `i` of the batched value. */
  ghost predicate Example(n: nat, v: Arr, dim: Option<nat>, i: nat, a: Arr) {
    if dim.None? then v == a
    else
      var b := dim.value;
      b <= |a.shape| && v.shape == Insert(a.shape, b, n) && Same(Row(v, b, i), a)
  }

  lemma DeleteInsert<T>(xs: seq<T>, b: nat, x: T)
    requires b <= |xs|
    ensures Delete(Insert(xs, b, x), b) == xs && Insert(xs, b, x)[b] == x
  {
  }

  lemma InsertSame<T>(xs: seq<T>, ys: seq<T>, b: nat, x: T)
    requires b <= |xs| && b <= |ys| && Insert(xs, b, x) == Insert(ys, b, x)
    ensures xs == ys
  {
    DeleteInsert(xs, b, x);
    DeleteInsert(ys, b, x);
  }

  // ---------- moving the batch axis ----------

  lemma BroadcastRow(n: nat, dst: nat, x: Arr, i: nat)
    requires dst <= |x.shape|
    ensures BroadcastAxis(n, dst, x).shape == Insert(x.shape, dst, n)
    ensures Same(Row(BroadcastAxis(n, dst, x), dst, i), x)
  {
    var y := BroadcastAxis(n, dst, x);
    DeleteInsert(x.shape, dst, n);
    forall index | InRange(x.shape, index) ensures Row(y, dst, i).at(index) == x.at(index) {
      DeleteInsert(index, dst, i);
    }
  }

  lemma MoveRow(src: nat, dst: nat, x: Arr, i: nat)
    requires src < |x.shape| && dst < |x.shape|
    ensures MoveAxis(src, dst, x).shape == Insert(Delete(x.shape, src), dst, x.shape[src])
    ensures Same(Row(MoveAxis(src, dst, x), dst, i), Row(x, src, i))
  {
    var y := MoveAxis(src, dst, x);
    DeleteInsert(Delete(x.shape, src), dst, x.shape[src]);
    forall index | InRange(Delete(x.shape, src), index) ensures Row(y, dst, i).at(index) == Row(x, src, i).at(index) {
      DeleteInsert(index, dst, i);
    }
  }

  lemma SameTransitive(a: Arr, b: Arr, c: Arr)
    requires Same(a, b) && Same(b, c)
    ensures Same(a, c)
  {
  }

  /** move_batch_axis does not change the examples. */
  lemma MoveExample(n: nat, src: Option<nat>, dst: nat, v: Arr, i: nat, a: Arr)
    requires Example(n, v, src, i, a) && dst <= |a.shape|
    ensures MoveBatchAxis(n, src, dst, v).Some?
    ensures Example(n, MoveBatchAxis(n, src, dst, v).value, Some(dst), i, a)
  {
    if src.None? {
      BroadcastRow(n, dst, v, i);
      SameTransitive(Row(BroadcastAxis(n, dst, v), dst, i), v, a);
    } else if src.value != dst {
      DeleteInsert(a.shape, src.value, n);
      MoveRow(src.value, dst, v, i);
      SameTransitive(Row(MoveAxis(src.value, dst, v), dst, i), Row(v, src.value, i), a);
    }
  }

  // ---------- pointwise operations ----------

  predicate Pointwise(op: Op) {
    !op.ReduceSum?
  }

  lemma UnaryExample(m: Math, op: Op, n: nat, v: Arr, dim: Option<nat>, i: nat, a: Arr)
    requires Example(n, v, dim, i, a) && Pointwise(op) && i < n
    ensures Unary(m, op, v).Some? <==> Unary(m, op, a).Some?
    ensures Unary(m, op, v).Some? ==> Example(n, Unary(m, op, v).value, dim, i, Unary(m, op, a).value)
  {
    if Unary(m, op, v).Some? {
      var r, q := Unary(m, op, v).value, Unary(m, op, a).value;
      if dim.Some? {
        DeleteInsert(a.shape, dim.value, n);
        forall index | InRange(a.shape, index) ensures Row(r, dim.value, i).at(index) == q.at(index) {
          assert Row(v, dim.value, i).at(index) == a.at(index);
        }
      }
    }
  }

  lemma BinaryExample(op: Op, n: nat, x: Arr, y: Arr, dim: Option<nat>, i: nat, a: Arr, b: Arr)
    requires Example(n, x, dim, i, a) && Example(n, y, dim, i, b) && i < n
    ensures Binary(op, x, y).Some? <==> Binary(op, a, b).Some?
    ensures Binary(op, x, y).Some? ==> Example(n, Binary(op, x, y).value, dim, i, Binary(op, a, b).value)
  {
    if dim.Some? && x.shape == y.shape {
      assert |a.shape| == |b.shape|;
      InsertSame(a.shape, b.shape, dim.value, n);
    }
    if Binary(op, x, y).Some? {
      var r, q := Binary(op, x, y).value, Binary(op, a, b).value;
      if dim.Some? {
        DeleteInsert(a.shape, dim.value, n);
        forall index | InRange(a.shape, index) ensures Row(r, dim.value, i).at(index) == q.at(index) {
          assert Row(x, dim.value, i).at(index) == a.at(index) && Row(y, dim.value, i).at(index) == b.at(index);
        }
      }
    }
  }

  /** An unmapped operand is given the batch axis of the other one; this can only fail if the shapes
      of the examples differ. */
  lemma BinopExample(op: Op, n: nat, x: Arr, xdim: Option<nat>, y: Arr, ydim: Option<nat>, i: nat, a: Arr, b: Arr)
    requires Example(n, x, xdim, i, a) && Example(n, y, ydim, i, b) && i < n
    ensures BinopRule(op, n, x, xdim, y, ydim).Some? <==> Binary(op, a, b).Some?
    ensures BinopRule(op, n, x, xdim, y, ydim).Some? ==>
              var r := BinopRule(op, n, x, xdim, y, ydim).value;
              Example(n, r.0, r.1, i, Binary(op, a, b).value)
  {
    if xdim == ydim {
      BinaryExample(op, n, x, y, xdim, i, a, b);
    } else if xdim.None? {
      if ydim.value <= |a.shape| {
        MoveExample(n, xdim, ydim.value, x, i, a);
        BinaryExample(op, n, MoveBatchAxis(n, xdim, ydim.value, x).value, y, ydim, i, a, b);
      }
    } else {
      if xdim.value <= |b.shape| {
        MoveExample(n, ydim, xdim.value, y, i, b);
        BinaryExample(op, n, x, MoveBatchAxis(n, ydim, xdim.value, y).value, xdim, i, a, b);
      }
    }
  }

  // ---------- reduce_sum ----------

  /** The number of dimensions from `k` to `b` that are not summed over. */
  function Kept(summed: seq<bool>, k: nat, b: nat): nat
    requires k <= b <= |summed|
    decreases b - k
  {
    if k == b then 0 else (if summed[k] then 0 else 1) + Kept(summed, k + 1, b)
  }

  lemma InsertPrefix<T>(p: seq<T>, j: T, b: nat, i: T)
    requires b <= |p|
    ensures Insert(p, b, i) + [j] == Insert(p + [j], b, i)
  {
  }

  /** After the batch dimension the sums run in parallel. */
  lemma {:induction false} SumTail(s: seq<nat>, summed: seq<bool>, b: nat, n: nat, i: nat, x: Arr, index: seq<nat>,
                                   p: seq<nat>)
    requires |summed| == |s| && b <= |p| <= |s| && x.shape == Insert(s, b, n)
    ensures SumAt(x.shape, Insert(summed, b, false), x.at, index, Insert(p, b, i))
            == SumAt(s, summed, Row(x, b, i).at, index, p)
    decreases |s| - |p|, 1, 0
  {
    var k := |p|;
    if k < |s| {
      assert Insert(summed, b, false)[k + 1] == summed[k] && x.shape[k + 1] == s[k];
      if summed[k] {
        SumTailRange(s, summed, b, n, i, x, index, p, s[k]);
      } else if index != [] {
        InsertPrefix(p, index[0], b, i);
        SumTail(s, summed, b, n, i, x, index[1..], p + [index[0]]);
      }
    }
  }

  lemma {:induction false} SumTailRange(s: seq<nat>, summed: seq<bool>, b: nat, n: nat, i: nat, x: Arr, index: seq<nat>,
                                        p: seq<nat>, j: nat)
    requires |summed| == |s| && b <= |p| < |s| && x.shape == Insert(s, b, n)
    ensures SumRange(x.shape, Insert(summed, b, false), x.at, index, Insert(p, b, i), j)
         == SumRange(s, summed, Row(x, b, i).at, index, p, j)
    decreases |s| - |p|, 0, j
  {
    if j > 0 {
      InsertPrefix(p, j - 1, b, i);
      hide Row, SumAt, Insert;
      SumTailRange(s, summed, b, n, i, x, index, p, j - 1);
      SumTail(s, summed, b, n, i, x, index, p + [j - 1]);
    }
  }

  /** Before the batch dimension, too; the batch dimension itself is fixed to `i`. */
  lemma {:induction false} SumHead(s: seq<nat>, summed: seq<bool>, b: nat, n: nat, i: nat, x: Arr, index: seq<nat>,
                                   p: seq<nat>)
    requires |summed| == |s| && |p| <= b <= |s| && x.shape == Insert(s, b, n) && Kept(summed, |p|, b) <= |index|
    ensures SumAt(x.shape, Insert(summed, b, false), x.at, Insert(index, Kept(summed, |p|, b), i), p)
         == SumAt(s, summed, Row(x, b, i).at, index, p)
    decreases b - |p|, 1, 0
  {
    var k := |p|;
    if k == b {
      assert Insert(index, 0, i)[0] == i && Insert(index, 0, i)[1..] == index;
      assert p + [i] == Insert(p, b, i);
      SumTail(s, summed, b, n, i, x, index, p);
    } else {
      assert Insert(summed, b, false)[k] == summed[k] && x.shape[k] == s[k];
      var r := Kept(summed, k, b);
      if summed[k] {
        SumHeadRange(s, summed, b, n, i, x, index, p, s[k]);
      } else {
        assert Insert(index, r, i)[0] == index[0] && Insert(index, r, i)[1..] == Insert(index[1..], r - 1, i);
        SumHead(s, summed, b, n, i, x, index[1..], p + [index[0]]);
      }
    }
  }

  lemma {:induction false} SumHeadRange(s: seq<nat>, summed: seq<bool>, b: nat, n: nat, i: nat, x: Arr, index: seq<nat>,
                                        p: seq<nat>, j: nat)
    requires |summed| == |s| && |p| < b <= |s| && x.shape == Insert(s, b, n) && summed[|p|]
    requires Kept(summed, |p|, b) <= |index|
    ensures SumRange(x.shape, Insert(summed, b, false), x.at, Insert(index, Kept(summed, |p|, b), i), p, j)
         == SumRange(s, summed, Row(x, b, i).at, index, p, j)
    decreases b - |p|, 0, j
  {
    if j > 0 {
      hide Row, SumAt;
      SumHeadRange(s, summed, b, n, i, x, index, p, j - 1);
      SumHead(s, summed, b, n, i, x, index, p + [j - 1]);
    }
  }

  /** Sums of equal elements are equal. */
  lemma {:induction false} SumSame(a: Arr, c: Arr, summed: seq<bool>, index: seq<nat>, p: seq<nat>)
    requires Same(a, c) && |summed| == |a.shape| && |p| <= |a.shape| && InRange(a.shape[..|p|], p)
    requires InRange(Select(summed[|p|..], false, a.shape[|p|..]), index)
    ensures SumAt(a.shape, summed, a.at, index, p) == SumAt(a.shape, summed, c.at, index, p)
    decreases |a.shape| - |p|, 1, 0
  {
    var k := |p|;
    if k == |a.shape| {
      assert a.shape[..k] == a.shape;
    } else {
      assert summed[k..][0] == summed[k] && summed[k..][1..] == summed[k + 1..];
      assert a.shape[k..][0] == a.shape[k] && a.shape[k..][1..] == a.shape[k + 1..];
      if summed[k] {
        SumRangeSame(a, c, summed, index, p, a.shape[k]);
      } else {
        var rest := Select(summed[k + 1..], false, a.shape[k + 1..]);
        assert Select(summed[k..], false, a.shape[k..]) == [a.shape[k]] + rest;
        assert InRange(rest, index[1..]);
        SumSame(a, c, summed, index[1..], p + [index[0]]);
      }
    }
  }

  lemma {:induction false} SumRangeSame(a: Arr, c: Arr, summed: seq<bool>, index: seq<nat>, p: seq<nat>, j: nat)
    requires Same(a, c) && |summed| == |a.shape| && |p| < |a.shape| && InRange(a.shape[..|p|], p) && summed[|p|]
    requires InRange(Select(summed[|p|..], false, a.shape[|p|..]), index) && j <= a.shape[|p|]
    ensures SumRange(a.shape, summed, a.at, index, p, j) == SumRange(a.shape, summed, c.at, index, p, j)
    decreases |a.shape| - |p|, 0, j
  {
    if j > 0 {
      var k := |p|;
      assert summed[k..][1..] == summed[k + 1..] && a.shape[k..][1..] == a.shape[k + 1..];
      SumRangeSame(a, c, summed, index, p, j - 1);
      SumSame(a, c, summed, index, p + [j - 1]);
    }
  }

  lemma ShiftedSummed(axis: seq<nat>, rank: nat, b: nat)
    requires b <= rank
    ensures Summed(ShiftAxes(axis, b), rank + 1) == Insert(Summed(axis, rank), b, false)
    ensures ValidAxes(ShiftAxes(axis, b), rank + 1) <==> ValidAxes(axis, rank)
  {
    var shifted := ShiftAxes(axis, b);
    forall d | 0 <= d < rank + 1
      ensures (d in shifted) == (if d < b then d in axis else if d == b then false else d - 1 in axis)
    {
      if d in shifted {
        var i :| 0 <= i < |axis| && shifted[i] == d;
      }
      var e := if d < b then d else d - 1;
      if d != b && e in axis {
        var i :| 0 <= i < |axis| && axis[i] == e;
        assert shifted[i] == d;
      }
    }
    assert Summed(shifted, rank + 1) == Insert(Summed(axis, rank), b, false);
    ShiftedValid(axis, rank, b);
  }

  lemma ShiftedValid(axis: seq<nat>, rank: nat, b: nat)
    requires b <= rank
    ensures ValidAxes(ShiftAxes(axis, b), rank + 1) <==> ValidAxes(axis, rank)
  {
    var shifted := ShiftAxes(axis, b);
    if ValidAxes(shifted, rank + 1) {
      forall i, k | 0 <= i < k < |axis| ensures axis[i] != axis[k] {
        assert shifted[i] != shifted[k];
      }
      forall ax | ax in axis ensures ax < rank {
        var i :| 0 <= i < |axis| && axis[i] == ax;
        assert shifted[i] in shifted;
      }
    }
    if ValidAxes(axis, rank) {
      forall i, k | 0 <= i < k < |shifted| ensures shifted[i] != shifted[k] {
        assert axis[i] != axis[k];
      }
      forall ax | ax in shifted ensures ax < rank + 1 {
        var i :| 0 <= i < |axis| && shifted[i] == ax;
        assert axis[i] in axis;
      }
    }
  }

  lemma {:induction false} CountAppend(axis: seq<nat>, d: nat)
    requires forall i, k :: 0 <= i < k < |axis| ==> axis[i] != axis[k]
    ensures CountBelow(axis, d + 1) == CountBelow(axis, d) + if d in axis then 1 else 0
  {
    if axis != [] {
      CountAppend(axis[1..], d);
      assert axis == [axis[0]] + axis[1..];
    }
  }

  lemma {:induction false} CountNone(axis: seq<nat>)
    ensures CountBelow(axis, 0) == 0
  {
    if axis != [] {
      CountNone(axis[1..]);
    }
  }

  lemma {:induction false} KeptStep(summed: seq<bool>, k: nat, b: nat)
    requires k <= b < |summed|
    ensures Kept(summed, k, b + 1) == Kept(summed, k, b) + if summed[b] then 0 else 1
    decreases b - k
  {
    if k < b {
      KeptStep(summed, k + 1, b);
    }
  }

  /** out_bdim is the number of dimensions before the batch dimension that are kept. */
  lemma {:induction false} OutDim(axis: seq<nat>, rank: nat, b: nat)
    requires ValidAxes(axis, rank) && b <= rank
    ensures CountBelow(axis, b) <= b && b - CountBelow(axis, b) == Kept(Summed(axis, rank), 0, b)
  {
    if b == 0 {
      CountNone(axis);
    } else {
      OutDim(axis, rank, b - 1);
      CountAppend(axis, b - 1);
      KeptStep(Summed(axis, rank), 0, b - 1);
    }
  }

  lemma {:induction false} KeptLength(summed: seq<bool>, s: seq<nat>, k: nat, b: nat)
    requires |summed| == |s| && k <= b <= |s|
    ensures Kept(summed, k, b) == |Select(summed[k..b], false, s[k..b])|
    decreases b - k
  {
    if k < b {
      KeptLength(summed, s, k + 1, b);
      assert summed[k..b][1..] == summed[k + 1..b] && s[k..b][1..] == s[k + 1..b];
    } else {
      assert summed[k..b] == [];
    }
  }

  /** The shape of the sum of a batched array. */
  lemma SelectInsert(summed: seq<bool>, s: seq<nat>, b: nat, n: nat)
    requires |summed| == |s| && b <= |s|
    ensures Kept(summed, 0, b) <= |Select(summed, false, s)|
    ensures Select(Insert(summed, b, false), false, Insert(s, b, n))
            == Insert(Select(summed, false, s), Kept(summed, 0, b), n)
  {
    hide Select;
    var f1, f2, s1, s2 := summed[..b], summed[b..], s[..b], s[b..];
    assert summed == f1 + f2 && s == s1 + s2;
    assert Insert(summed, b, false) == f1 + ([false] + f2) && Insert(s, b, n) == s1 + ([n] + s2);
    SelectAppend(f1, false, s1, f2, s2);
    SelectAppend(f1, false, s1, [false] + f2, [n] + s2);
    SelectAppend([false], false, [n], f2, s2);
    KeptLength(summed, s, 0, b);
    assert summed[0..b] == f1 && s[0..b] == s1;
    SelectFalse(n);
    assert Select(f1, false, s1) + ([n] + Select(f2, false, s2))
        == Insert(Select(f1, false, s1) + Select(f2, false, s2), |Select(f1, false, s1)|, n);
  }

  lemma SelectFalse(n: nat)
    ensures Select([false], false, [n]) == [n]
  {
  }

  /** reduce_sum_batching_rule: the axes are shifted past the batch dimension, and the batch dimension
      moves up by the number of axes before it that are summed away. */
  lemma SumExample(m: Math, axis: seq<nat>, n: nat, v: Arr, b: nat, i: nat, a: Arr)
    requires Example(n, v, Some(b), i, a) && i < n
    ensures Unary(m, ReduceSum(ShiftAxes(axis, b)), v).Some? <==> Unary(m, ReduceSum(axis), a).Some?
    ensures Unary(m, ReduceSum(axis), a).Some? ==>
              && CountBelow(axis, b) <= b
              && Example(n, Unary(m, ReduceSum(ShiftAxes(axis, b)), v).value, Some(b - CountBelow(axis, b)), i,
                         Unary(m, ReduceSum(axis), a).value)
  {
    var rank := |a.shape|;
    ShiftedSummed(axis, rank, b);
    if ValidAxes(axis, rank) {
      var summed := Summed(axis, rank);
      OutDim(axis, rank, b);
      var ob := Kept(summed, 0, b);
      SelectInsert(summed, a.shape, b, n);
      var r, q := Unary(m, ReduceSum(ShiftAxes(axis, b)), v).value, Unary(m, ReduceSum(axis), a).value;
      DeleteInsert(q.shape, ob, n);
      DeleteInsert(a.shape, b, n);
      forall index | InRange(q.shape, index) ensures Row(r, ob, i).at(index) == q.at(index) {
        SumHead(a.shape, summed, b, n, i, v, index, []);
        SumOnExample(a, v, b, i, summed, index);
      }
    }
  }

  lemma SumOnExample(a: Arr, v: Arr, b: nat, i: nat, summed: seq<bool>, index: seq<nat>)
    requires b < |v.shape| && Same(Row(v, b, i), a) && |summed| == |a.shape|
    requires InRange(Select(summed, false, a.shape), index)
    ensures SumAt(a.shape, summed, Row(v, b, i).at, index, []) == SumAt(a.shape, summed, a.at, index, [])
  {
    assert summed[0..] == summed && a.shape[0..] == a.shape && a.shape[..0] == [];
    SumSame(Row(v, b, i), a, summed, index, []);
  }

  // ---------- one operation ----------

  ghost predicate Examples(n: nat, vs: seq<BVal>, i: nat, xs: seq<Arr>) {
    |vs| == |xs| && forall k :: 0 <= k < |vs| ==> Example(n, ValOf(vs[k]), DimOf(vs[k]), i, xs[k])
  }

  /** How a value is boxed. */
  datatype Kind = Mapped | Unmapped | Unboxed

  function KindOf(v: BVal): Kind {
    if v.Plain? then Unboxed else if v.dim.Some? then Mapped else Unmapped
  }

  function Kinds(vs: seq<BVal>): (r: seq<Kind>)
    ensures |r| == |vs| && forall k :: 0 <= k < |vs| ==> r[k] == KindOf(vs[k])
  {
    seq(|vs|, k requires 0 <= k < |vs| => KindOf(vs[k]))
  }

  /** The rule for sums has no case for an unmapped operand that is boxed. */
  predicate RuleExists(op: Op, kinds: seq<Kind>) {
    op.ReduceSum? && |kinds| == 1 ==> !kinds[0].Unmapped?
  }

  lemma BindExample(m: Math, op: Op, n: nat, vs: seq<BVal>, i: nat, xs: seq<Arr>)
    requires Examples(n, vs, i, xs) && i < n
    ensures BatchBind(m, op, n, vs).Some? <==> Impl(m, op, xs).Some? && RuleExists(op, Kinds(vs))
    ensures BatchBind(m, op, n, vs).Some? ==>
              var r := BatchBind(m, op, n, vs).value;
              && Example(n, ValOf(r), DimOf(r), i, Impl(m, op, xs).value)
              && KindOf(r) == if Mapped in Kinds(vs) then Mapped else Unboxed
  {
    hide Unary, Binary, Example, BinopRule;
    if |vs| == 1 {
      assert Kinds(vs) == [KindOf(vs[0])];
      if op.ReduceSum? {
        if DimOf(vs[0]).Some? {
          SumExample(m, op.axis, n, ValOf(vs[0]), DimOf(vs[0]).value, i, xs[0]);
        } else {
          UnmappedExample(n, vs[0], i, xs[0]);
          ExampleUnmapped(n, i);
          PlainBind(m, op, n, vs);
        }
      } else {
        UnaryExample(m, op, n, ValOf(vs[0]), DimOf(vs[0]), i, xs[0]);
        UnaryKind(m, op, ValOf(vs[0]));
      }
    } else if |vs| == 2 {
      assert Kinds(vs) == [KindOf(vs[0]), KindOf(vs[1])];
      BinopExample(op, n, ValOf(vs[0]), DimOf(vs[0]), ValOf(vs[1]), DimOf(vs[1]), i, xs[0], xs[1]);
      BinaryKind(op, n, ValOf(vs[0]), DimOf(vs[0]), ValOf(vs[1]), DimOf(vs[1]));
      BinaryKind2(op, xs[0], xs[1]);
    }
  }

  lemma UnmappedExample(n: nat, v: BVal, i: nat, a: Arr)
    requires Example(n, ValOf(v), DimOf(v), i, a) && DimOf(v).None?
    ensures ValOf(v) == a
  {
  }

  lemma ExampleUnmapped(n: nat, i: nat)
    ensures forall a :: Example(n, a, None, i, a)
  {
  }

  lemma UnaryKind(m: Math, op: Op, x: Arr)
    ensures Unary(m, op, x).Some? ==> !op.Add? && !op.Mul?
  {
  }

  lemma BinaryKind(op: Op, n: nat, x: Arr, xdim: Option<nat>, y: Arr, ydim: Option<nat>)
    ensures BinopRule(op, n, x, xdim, y, ydim).Some? ==>
              (op.Add? || op.Mul?)
              && (BinopRule(op, n, x, xdim, y, ydim).value.1.Some? <==> xdim.Some? || ydim.Some?)
    ensures xdim == ydim == None && Binary(op, x, y).Some? ==>
              BinopRule(op, n, x, xdim, y, ydim) == Some((Binary(op, x, y).value, None))
    ensures xdim == ydim == None && Binary(op, x, y).None? ==> BinopRule(op, n, x, xdim, y, ydim) == None
  {
  }

  lemma BinaryKind2(op: Op, x: Arr, y: Arr)
    ensures Binary(op, x, y).Some? ==> op.Add? || op.Mul?
  {
  }

  lemma PlainBind(m: Math, op: Op, n: nat, vs: seq<BVal>)
    requires |vs| == 1 && op.ReduceSum? && DimOf(vs[0]).None?
    ensures BatchBind(m, op, n, vs).Some? <==> vs[0].Plain? && Unary(m, op, ValOf(vs[0])).Some?
    ensures BatchBind(m, op, n, vs).Some? ==> BatchBind(m, op, n, vs).value == Plain(Unary(m, op, ValOf(vs[0])).value)
  {
  }

  // ---------- whole functions ----------

  lemma ReadExample(n: nat, benv: seq<BVal>, i: nat, env: seq<Arr>, x: Operand)
    requires Examples(n, benv, i, env)
    ensures BRead(benv, x).Some? <==> Read(env, x).Some?
    ensures BRead(benv, x).Some? ==>
              var v := BRead(benv, x).value; Example(n, ValOf(v), DimOf(v), i, Read(env, x).value)
  {
  }

  lemma {:induction false} ReadExamples(n: nat, benv: seq<BVal>, i: nat, env: seq<Arr>, xs: seq<Operand>)
    requires Examples(n, benv, i, env)
    ensures BReadAll(benv, xs).Some? <==> ReadAll(env, xs).Some?
    ensures BReadAll(benv, xs).Some? ==> Examples(n, BReadAll(benv, xs).value, i, ReadAll(env, xs).value)
    ensures BReadAll(benv, xs).Some? ==> |BReadAll(benv, xs).value| == |xs|
    ensures BReadAll(benv, xs).Some? ==>
              forall k :: 0 <= k < |xs| ==> BRead(benv, xs[k]) == Some(BReadAll(benv, xs).value[k])
  {
    hide Example;
    if xs != [] {
      ReadExample(n, benv, i, env, xs[0]);
      ReadExamples(n, benv, i, env, xs[1..]);
    }
  }

  /** The results: stacked along dimension 0. */
  ghost predicate Stacked(n: nat, out: Arr, i: nat, a: Arr) {
    out.shape == [n] + a.shape && Same(Row(out, 0, i), a)
  }

  lemma MoveToFront(n: nat, v: BVal, i: nat, a: Arr)
    requires Example(n, ValOf(v), DimOf(v), i, a)
    ensures MoveBatchAxis(n, DimOf(v), 0, ValOf(v)).Some?
    ensures Stacked(n, MoveBatchAxis(n, DimOf(v), 0, ValOf(v)).value, i, a)
  {
    MoveExample(n, DimOf(v), 0, ValOf(v), i, a);
    assert Insert(a.shape, 0, n) == [n] + a.shape;
  }

  lemma {:induction false} MoveAllExamples(n: nat, vs: seq<BVal>, i: nat, xs: seq<Arr>)
    requires Examples(n, vs, i, xs)
    ensures MoveAll(n, vs).Some? && |MoveAll(n, vs).value| == |vs|
    ensures forall k :: 0 <= k < |vs| ==> Stacked(n, MoveAll(n, vs).value[k], i, xs[k])
  {
    hide Example, Stacked, MoveBatchAxis;
    if vs != [] {
      MoveToFront(n, vs[0], i, xs[0]);
      MoveAllExamples(n, vs[1..], i, xs[1..]);
    }
  }

  // ---------- calls and conditionals ----------

  /** Whether an argument is mapped; inside a body all arguments are boxed. */
  function Boxed(kinds: seq<Kind>): (r: seq<Kind>)
    ensures |r| == |kinds| && forall k :: 0 <= k < |kinds| ==> r[k] == if kinds[k].Mapped? then Mapped else Unmapped
  {
    seq(|kinds|, k requires 0 <= k < |kinds| => if kinds[k].Mapped? then Mapped else Unmapped)
  }

  function All(kind: Kind, k: nat): (r: seq<Kind>)
    ensures |r| == k && forall i :: 0 <= i < k ==> r[i] == kind
  {
    Repeat(kind, k)
  }

  function OutKinds(instr: Instr, kinds: seq<Kind>): seq<Kind> {
    match instr
    case Instr(_, _) => [if Mapped in kinds then Mapped else Unboxed]
    case Call(body, _) => All(if kinds == All(Unboxed, |kinds|) then Unboxed else Mapped, |body.outs|)
    case Cond(onTrue, _, _) => All(if kinds == All(Unboxed, |kinds|) then Unboxed else Mapped, |onTrue.outs|)
  }

  function KindsAt(xs: seq<Operand>, kinds: seq<Kind>): (r: seq<Kind>)
    ensures |r| == |xs|
  {
    seq(|xs|, k requires 0 <= k < |xs| => if xs[k].Ref? && xs[k].i < |kinds| then kinds[xs[k].i] else Unboxed)
  }

  /** There is a rule: no sum of an argument that is not mapped, no mapped predicate, and some mapped
      argument for every body that is transformed. */
  predicate Rules(instr: Instr, kinds: seq<Kind>)
    decreases instr, 0
  {
    match instr
    case Instr(op, _) => RuleExists(op, kinds)
    case Call(body, _) => kinds == All(Unboxed, |kinds|) || BodyRules(body, kinds)
    case Cond(onTrue, onFalse, _) =>
      kinds == All(Unboxed, |kinds|)
      || (!kinds[0].Mapped? && BodyRules(onTrue, kinds[1..]) && BodyRules(onFalse, kinds[1..]))
  }

  predicate BodyRules(p: Program, kinds: seq<Kind>)
    decreases p, 1
  {
    Mapped in kinds && RunRules(p.instrs, Boxed(kinds))
  }

  predicate RunRules(instrs: seq<Instr>, kinds: seq<Kind>)
    decreases instrs, 0
  {
    if instrs == [] then true
    else
      var args := KindsAt(instrs[0].args, kinds);
      Rules(instrs[0], args) && RunRules(instrs[1..], kinds + OutKinds(instrs[0], args))
  }

  lemma PlainKinds(vs: seq<BVal>)
    ensures AllPlain(vs) <==> Kinds(vs) == All(Unboxed, |vs|)
  {
  }

  lemma AllPlainExamples(n: nat, vs: seq<BVal>, i: nat, xs: seq<Arr>)
    requires Examples(n, vs, i, xs) && AllPlain(vs)
    ensures ValsOf(vs) == xs
  {
  }

  lemma PlainsExamples(n: nat, rs: seq<Arr>, i: nat)
    ensures Examples(n, PlainsOf(rs), i, rs) && Kinds(PlainsOf(rs)) == All(Unboxed, |rs|)
  {
  }

  lemma BatchedExamples(n: nat, rs: seq<Arr>, i: nat, xs: seq<Arr>)
    requires |rs| == |xs| && forall k :: 0 <= k < |rs| ==> Stacked(n, rs[k], i, xs[k])
    ensures Examples(n, Batched(rs), i, xs) && Kinds(Batched(rs)) == All(Mapped, |rs|)
  {
    forall k | 0 <= k < |rs| ensures Example(n, rs[k], Some(0), i, xs[k]) {
      assert Stacked(n, rs[k], i, xs[k]);
      assert Insert(xs[k].shape, 0, n) == [n] + xs[k].shape;
    }
  }

  lemma ReadKinds(env: seq<BVal>, xs: seq<Operand>)
    requires BReadAll(env, xs).Some? && |BReadAll(env, xs).value| == |xs|
    requires forall k :: 0 <= k < |xs| ==> BRead(env, xs[k]) == Some(BReadAll(env, xs).value[k])
    ensures Kinds(BReadAll(env, xs).value) == KindsAt(xs, Kinds(env))
  {
  }

  lemma {:induction false} InstrExample(m: Math, instr: Instr, n: nat, vs: seq<BVal>, i: nat, xs: seq<Arr>)
    requires Examples(n, vs, i, xs) && i < n
    ensures BatchInstr(m, instr, n, vs).Some? <==> EvalInstr(m, instr, xs).Some? && Rules(instr, Kinds(vs))
    ensures BatchInstr(m, instr, n, vs).Some? ==>
              && Examples(n, BatchInstr(m, instr, n, vs).value, i, EvalInstr(m, instr, xs).value)
              && Kinds(BatchInstr(m, instr, n, vs).value) == OutKinds(instr, Kinds(vs))
    decreases instr, 1
  {
    hide Example, BatchBind, Impl, VmapFlat, EvalProgram, BodyRules, RuleExists, Choose, Stacked;
    PlainKinds(vs);
    match instr
    case Instr(op, _) =>
      BindExample(m, op, n, vs, i, xs);
    case Call(body, _) =>
      if AllPlain(vs) {
        AllPlainExamples(n, vs, i, xs);
        if EvalInstr(m, instr, xs).Some? {
          OutCount(m, body, xs);
          PlainsExamples(n, EvalInstr(m, instr, xs).value, i);
        }
      } else {
        VmapExample(m, body, DimsOf(vs), ValsOf(vs), n, i, vs, xs);
        if VmapFlat(m, body, DimsOf(vs), ValsOf(vs), n).Some? {
          OutCount(m, body, xs);
          BatchedExamples(n, VmapFlat(m, body, DimsOf(vs), ValsOf(vs), n).value, i, EvalProgram(m, body, xs).value);
        }
      }
    case Cond(onTrue, onFalse, _) =>
      if AllPlain(vs) {
        AllPlainExamples(n, vs, i, xs);
        if EvalInstr(m, instr, xs).Some? {
          OutCount(m, onTrue, xs[1..]);
          OutCount(m, onFalse, xs[1..]);
          ChooseCount(xs[0], EvalProgram(m, onTrue, xs[1..]).value, EvalProgram(m, onFalse, xs[1..]).value);
          PlainsExamples(n, EvalInstr(m, instr, xs).value, i);
        }
      } else {
        CondExample(m, instr, n, vs, i, xs);
      }
  }

  lemma OutCount(m: Math, p: Program, xs: seq<Arr>)
    requires EvalProgram(m, p, xs).Some?
    ensures |EvalProgram(m, p, xs).value| == |p.outs|
  {
    ReadCount(Run(m, p.instrs, xs).value, p.outs);
  }

  lemma {:induction false} ReadCount(env: seq<Arr>, xs: seq<Operand>)
    requires ReadAll(env, xs).Some?
    ensures |ReadAll(env, xs).value| == |xs|
  {
    if xs != [] {
      ReadCount(env, xs[1..]);
    }
  }

  lemma ChooseCount(pred: Arr, t: seq<Arr>, f: seq<Arr>)
    requires Choose(pred, t, f).Some?
    ensures |Choose(pred, t, f).value| == |t| == |f| && Shapes(t) == Shapes(f) && pred.shape == []
    ensures Choose(pred, t, f).value == if pred.at([]) != 0.0 then t else f
  {
  }

  /** cond_vmap_rule: both branches are transformed, and the predicate selects one of the results. */
  lemma {:induction false} CondExample(m: Math, instr: Instr, n: nat, vs: seq<BVal>, i: nat, xs: seq<Arr>)
    requires instr.Cond? && Examples(n, vs, i, xs) && i < n && !AllPlain(vs)
    ensures BatchInstr(m, instr, n, vs).Some? <==> EvalInstr(m, instr, xs).Some? && Rules(instr, Kinds(vs))
    ensures BatchInstr(m, instr, n, vs).Some? ==>
              && Examples(n, BatchInstr(m, instr, n, vs).value, i, EvalInstr(m, instr, xs).value)
              && Kinds(BatchInstr(m, instr, n, vs).value) == OutKinds(instr, Kinds(vs))
    decreases instr, 0
  {
    hide Example, VmapFlat, EvalProgram, BodyRules, Stacked, Choose;
    PlainKinds(vs);
    var bs, ys := vs[1..], xs[1..];
    assert Examples(n, bs, i, ys);
    assert Kinds(vs)[1..] == Kinds(bs);
    if DimOf(vs[0]).None? {
      UnmappedExample(n, vs[0], i, xs[0]);
      VmapExample(m, instr.onTrue, DimsOf(bs), ValsOf(bs), n, i, bs, ys);
      VmapExample(m, instr.onFalse, DimsOf(bs), ValsOf(bs), n, i, bs, ys);
      var t, f := VmapFlat(m, instr.onTrue, DimsOf(bs), ValsOf(bs), n),
                  VmapFlat(m, instr.onFalse, DimsOf(bs), ValsOf(bs), n);
      if t.Some? && f.Some? {
        var u, g := EvalProgram(m, instr.onTrue, ys).value, EvalProgram(m, instr.onFalse, ys).value;
        OutCount(m, instr.onTrue, ys);
        ChooseStacked(xs[0], n, t.value, f.value, i, u, g);
        if Choose(xs[0], t.value, f.value).Some? {
          BatchedExamples(n, Choose(xs[0], t.value, f.value).value, i, Choose(xs[0], u, g).value);
        }
      }
    }
  }

  lemma ChooseStacked(pred: Arr, n: nat, ts: seq<Arr>, fs: seq<Arr>, i: nat, us: seq<Arr>, gs: seq<Arr>)
    requires |ts| == |us| && |fs| == |gs|
    requires (forall k :: 0 <= k < |ts| ==> Stacked(n, ts[k], i, us[k]))
             && forall k :: 0 <= k < |fs| ==> Stacked(n, fs[k], i, gs[k])
    ensures Choose(pred, ts, fs).Some? <==> Choose(pred, us, gs).Some?
    ensures Choose(pred, ts, fs).Some? ==>
              var r, q := Choose(pred, ts, fs).value, Choose(pred, us, gs).value;
              |r| == |q| == |us| && forall k :: 0 <= k < |r| ==> Stacked(n, r[k], i, q[k])
  {
  }

  lemma {:induction false} RunExample(m: Math, instrs: seq<Instr>, n: nat, benv: seq<BVal>, i: nat, env: seq<Arr>)
    requires Examples(n, benv, i, env) && i < n
    ensures BRun(m, instrs, n, benv).Some? <==> Run(m, instrs, env).Some? && RunRules(instrs, Kinds(benv))
    ensures BRun(m, instrs, n, benv).Some? ==> Examples(n, BRun(m, instrs, n, benv).value, i, Run(m, instrs, env).value)
    decreases instrs, 0
  {
    hide Example, BatchInstr, EvalInstr, BReadAll, ReadAll, Rules, OutKinds;
    if instrs != [] {
      var instr := instrs[0];
      ReadExamples(n, benv, i, env, instr.args);
      if BReadAll(benv, instr.args).Some? {
        var vs, xs := BReadAll(benv, instr.args).value, ReadAll(env, instr.args).value;
        ReadKinds(benv, instr.args);
        InstrExample(m, instr, n, vs, i, xs);
        if BatchInstr(m, instr, n, vs).Some? {
          var rs, qs := BatchInstr(m, instr, n, vs).value, EvalInstr(m, instr, xs).value;
          AppendExamples(n, benv, rs, i, env, qs);
          RunExample(m, instrs[1..], n, benv + rs, i, env + qs);
        }
      }
    }
  }

  lemma AppendExamples(n: nat, vs: seq<BVal>, ws: seq<BVal>, i: nat, xs: seq<Arr>, ys: seq<Arr>)
    requires Examples(n, vs, i, xs) && Examples(n, ws, i, ys)
    ensures Examples(n, vs + ws, i, xs + ys) && Kinds(vs + ws) == Kinds(vs) + Kinds(ws)
  {
  }

  /** vmap_flat on a body whose arguments stand for `xs`. */
  lemma {:induction false} VmapExample(m: Math, p: Program, axes: seq<Option<nat>>, args: seq<Arr>, n: nat, i: nat,
                                       vs: seq<BVal>, xs: seq<Arr>)
    requires Examples(n, vs, i, xs) && axes == DimsOf(vs) && args == ValsOf(vs) && i < n
    ensures VmapFlat(m, p, axes, args, n).Some? <==> EvalProgram(m, p, xs).Some? && BodyRules(p, Kinds(vs))
    ensures VmapFlat(m, p, axes, args, n).Some? ==>
              var outs, rows := VmapFlat(m, p, axes, args, n).value, EvalProgram(m, p, xs).value;
              && |outs| == |rows|
              && forall k :: 0 <= k < |outs| ==> Stacked(n, outs[k], i, rows[k])
    decreases p, 0
  {
    hide Example, BRun, Run, BReadAll, ReadAll, MoveAll, MappedSizes, RunRules, Stacked;
    SizesOfExamples(n, vs, i, xs);
    var boxed := TracersIn(args, axes);
    BoxedKinds(n, vs, i, xs);
    RunExample(m, p.instrs, n, boxed, i, xs);
    if BRun(m, p.instrs, n, boxed).Some? {
      var benv := BRun(m, p.instrs, n, boxed).value;
      var env := Run(m, p.instrs, xs).value;
      ReadExamples(n, benv, i, env, p.outs);
      if BReadAll(benv, p.outs).Some? {
        MoveAllExamples(n, BReadAll(benv, p.outs).value, i, ReadAll(env, p.outs).value);
      }
    }
  }

  lemma BoxedKinds(n: nat, vs: seq<BVal>, i: nat, xs: seq<Arr>)
    requires Examples(n, vs, i, xs)
    ensures Examples(n, TracersIn(ValsOf(vs), DimsOf(vs)), i, xs)
    ensures Kinds(TracersIn(ValsOf(vs), DimsOf(vs))) == Boxed(Kinds(vs))
  {
  }

  lemma MappedSize(n: nat, v: BVal, i: nat, x: Arr)
    requires Example(n, ValOf(v), DimOf(v), i, x) && DimOf(v).Some?
    ensures DimOf(v).value < |ValOf(v).shape| && ValOf(v).shape[DimOf(v).value] == n
  {
    DeleteInsert(x.shape, DimOf(v).value, n);
  }

  /** All mapped axes have the size of the batch. */
  lemma {:induction false} SizesOfExamples(n: nat, vs: seq<BVal>, i: nat, xs: seq<Arr>)
    requires Examples(n, vs, i, xs)
    ensures MappedSizes(ValsOf(vs), DimsOf(vs)) == Some(if Mapped in Kinds(vs) then {n} else {})
    decreases |vs|
  {
    hide Example;
    if vs != [] {
      var rest := vs[1..];
      assert ValsOf(vs)[1..] == ValsOf(rest) && DimsOf(vs)[1..] == DimsOf(rest)
             && Kinds(vs) == [KindOf(vs[0])] + Kinds(rest);
      SizesOfExamples(n, rest, i, xs[1..]);
      assert Mapped in Kinds(vs) <==> KindOf(vs[0]).Mapped? || Mapped in Kinds(rest);
      if DimOf(vs[0]).Some? {
        MappedSize(n, vs[0], i, xs[0]);
        assert {n} + {n} == {n} && {} + {n} == {n};
      }
    }
  }

  /** Example `i` of the arguments. */
  function ArgRows(args: seq<Arr>, axes: seq<Option<nat>>, i: nat): (r: seq<Arr>)
    requires |args| == |axes| && forall k :: 0 <= k < |args| && axes[k].Some? ==> axes[k].value < |args[k].shape|
    ensures |r| == |args|
    ensures forall k :: 0 <= k < |args| ==> r[k] == if axes[k].Some? then Row(args[k], axes[k].value, i) else args[k]
  {
    seq(|args|, k requires 0 <= k < |args| => if axes[k].Some? then Row(args[k], axes[k].value, i) else args[k])
  }

  /** All mapped axes exist and have size `n`. */
  ghost predicate MappedAxes(args: seq<Arr>, axes: seq<Option<nat>>, n: nat) {
    && |args| == |axes|
    && forall k :: 0 <= k < |args| && axes[k].Some? ==>
         axes[k].value < |args[k].shape| && args[k].shape[axes[k].value] == n
  }

  lemma {:induction false} SizesAgree(args: seq<Arr>, axes: seq<Option<nat>>, n: nat)
    requires |args| == |axes| && MappedSizes(args, axes).Some? && MappedSizes(args, axes).value <= {n}
    ensures MappedAxes(args, axes, n)
  {
    if args != [] {
      SizesAgree(args[1..], axes[1..], n);
      forall k | 0 <= k < |args| && axes[k].Some?
        ensures axes[k].value < |args[k].shape| && args[k].shape[axes[k].value] == n
      {
        if k == 0 {
          assert args[0].shape[axes[0].value] in MappedSizes(args, axes).value;
        } else {
          assert args[k] == args[1..][k - 1] && axes[k] == axes[1..][k - 1];
        }
      }
    }
  }

  lemma StartExamples(args: seq<Arr>, axes: seq<Option<nat>>, n: nat, i: nat)
    requires MappedAxes(args, axes, n) && i < n
    ensures Examples(n, TracersIn(args, axes), i, ArgRows(args, axes, i))
  {
    var vs, xs := TracersIn(args, axes), ArgRows(args, axes, i);
    forall k | 0 <= k < |args| ensures Example(n, ValOf(vs[k]), DimOf(vs[k]), i, xs[k]) {
      if axes[k].Some? {
        InsertDelete(args[k].shape, axes[k].value);
      }
    }
  }

  lemma InsertDelete<T>(xs: seq<T>, b: nat)
    requires b < |xs|
    ensures Insert(Delete(xs, b), b, xs[b]) == xs
  {
  }

  /** vmap agrees with mapping: for arguments whose mapped axes all have size `n`, it returns if and
      only if the function returns on (any) one row and there are rules for what it does to arguments
      that are not mapped; and row `i` of every result is the result for row `i` of the arguments,
      whichever axes the arguments are mapped over and wherever the batch dimension has been in
      between, through calls and conditionals at any depth. */
  lemma VmapIsMap(m: Math, p: Program, axes: seq<Option<nat>>, args: seq<Arr>, n: nat, i: nat)
    requires |args| == |axes| && MappedSizes(args, axes) == Some({n}) && i < n
    ensures MappedAxes(args, axes, n)
    ensures VmapFlat(m, p, axes, args, n).Some?
       <==> EvalProgram(m, p, ArgRows(args, axes, i)).Some? && BodyRules(p, Kinds(TracersIn(args, axes)))
    ensures VmapFlat(m, p, axes, args, n).Some? ==>
              var outs, rows := VmapFlat(m, p, axes, args, n).value, EvalProgram(m, p, ArgRows(args, axes, i)).value;
              && |outs| == |rows|
              && forall k :: 0 <= k < |outs| ==> Stacked(n, outs[k], i, rows[k])
  {
    hide VmapFlat, EvalProgram, MappedSizes, BodyRules, Stacked;
    SizesAgree(args, axes, n);
    StartExamples(args, axes, n, i);
    var vs := TracersIn(args, axes);
    assert ValsOf(vs) == args && DimsOf(vs) == axes;
    VmapExample(m, p, axes, args, n, i, vs, ArgRows(args, axes, i));
  }
}
