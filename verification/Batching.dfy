/** vmap: the batching interpreter of docs/autodidax.py, on arrays of any rank. */
module Batching {
  import opened Wrappers
  import opened Lists

  /** An array: its shape and its elements. Only the elements at indices within the shape matter. */
  datatype Arr = Arr(shape: seq<nat>, at: seq<nat> -> real)

  datatype Math = Math(sin: real -> real, cos: real -> real)

  datatype Op = Add | Mul | Neg | Sin | Cos | ReduceSum(axis: seq<nat>)

  datatype Operand = Ref(i: nat) | Lit(val: Arr)

  /** A primitive operation, an xla_call or a cond. */
  datatype Instr =
    | Instr(op: Op, args: seq<Operand>)
    | Call(body: Program, args: seq<Operand>)
    | Cond(onTrue: Program, onFalse: Program, args: seq<Operand>)

  /** A function as the operations that it performs: each appends its results to the values so far. */
  datatype Program = Program(instrs: seq<Instr>, outs: seq<Operand>)

  predicate InRange(shape: seq<nat>, index: seq<nat>) {
    |index| == |shape| && forall d :: 0 <= d < |shape| ==> index[d] < shape[d]
  }

  /** Two arrays with the same elements. */
  ghost predicate Same(a: Arr, b: Arr) {
    a.shape == b.shape && forall index :: InRange(a.shape, index) ==> a.at(index) == b.at(index)
  }

  /** list.insert */
  function Insert<T>(xs: seq<T>, i: nat, x: T): (r: seq<T>)
    ensures |r| == |xs| + 1
  {
    if i <= |xs| then xs[..i] + [x] + xs[i..] else xs + [x]
  }

  /** del xs[i] */
  function Delete<T>(xs: seq<T>, i: nat): (r: seq<T>)
    requires i < |xs|
    ensures |r| == |xs| - 1
  {
    xs[..i] + xs[i + 1..]
  }

  // ---------- the primitives (np.add, np.sum and so on) ----------

  predicate ValidAxes(axis: seq<nat>, rank: nat) {
    (forall i, k :: 0 <= i < k < |axis| ==> axis[i] != axis[k]) && forall ax :: ax in axis ==> ax < rank
  }

  /** Which dimensions are summed over. */
  function Summed(axis: seq<nat>, rank: nat): (r: seq<bool>)
    ensures |r| == rank && forall d :: 0 <= d < rank ==> r[d] == (d in axis)
  {
    seq(rank, d => d in axis)
  }

  /** Sums over the flagged dimensions; `index` gives the others. `prefix` has been fixed. */
  function SumAt(shape: seq<nat>, summed: seq<bool>, at: seq<nat> -> real, index: seq<nat>, prefix: seq<nat>): real
    requires |summed| == |shape| && |prefix| <= |shape|
    decreases |shape| - |prefix|, 1, 0
  {
    var k := |prefix|;
    if k == |shape| then at(prefix)
    else if summed[k] then SumRange(shape, summed, at, index, prefix, shape[k])
    else if index == [] then 0.0
    else SumAt(shape, summed, at, index[1..], prefix + [index[0]])
  }

  function SumRange(shape: seq<nat>, summed: seq<bool>, at: seq<nat> -> real, index: seq<nat>, prefix: seq<nat>,
                    n: nat): real
    requires |summed| == |shape| && |prefix| < |shape|
    decreases |shape| - |prefix|, 0, n
  {
    if n == 0 then 0.0
    else SumRange(shape, summed, at, index, prefix, n - 1) + SumAt(shape, summed, at, index, prefix + [n - 1])
  }

  function Unary(m: Math, op: Op, x: Arr): Option<Arr> {
    match op
    case Neg => Some(Arr(x.shape, index => -x.at(index)))
    case Sin => Some(Arr(x.shape, index => m.sin(x.at(index))))
    case Cos => Some(Arr(x.shape, index => m.cos(x.at(index))))
    case ReduceSum(axis) =>
      if !ValidAxes(axis, |x.shape|) then None
      else
        var summed := Summed(axis, |x.shape|);
        Some(Arr(Select(summed, false, x.shape), index => SumAt(x.shape, summed, x.at, index, [])))
    case Add | Mul => None
  }

  /** Operands of equal shapes. */
  function Binary(op: Op, x: Arr, y: Arr): Option<Arr> {
    if x.shape != y.shape then None
    else
      match op
      case Add => Some(Arr(x.shape, index => x.at(index) + y.at(index)))
      case Mul => Some(Arr(x.shape, index => x.at(index) * y.at(index)))
      case Neg | Sin | Cos | ReduceSum(_) => None
  }

  function Impl(m: Math, op: Op, vals: seq<Arr>): Option<Arr> {
    if |vals| == 1 then Unary(m, op, vals[0])
    else if |vals| == 2 then Binary(op, vals[0], vals[1])
    else None
  }

  // ---------- evaluation on one example ----------

  function Read(env: seq<Arr>, x: Operand): Option<Arr> {
    if x.Lit? then Some(x.val) else if x.i < |env| then Some(env[x.i]) else None
  }

  function ReadAll(env: seq<Arr>, xs: seq<Operand>): Option<seq<Arr>> {
    if xs == [] then Some([])
    else
      var x :- Read(env, xs[0]);
      var rest :- ReadAll(env, xs[1..]);
      Some([x] + rest)
  }

  function Shapes(xs: seq<Arr>): (r: seq<seq<nat>>)
    ensures |r| == |xs| && forall i :: 0 <= i < |xs| ==> r[i] == xs[i].shape
  {
    seq(|xs|, i requires 0 <= i < |xs| => xs[i].shape)
  }

  /** The branch that a scalar predicate selects; the type check demands results of equal types. */
  function Choose(pred: Arr, onTrue: seq<Arr>, onFalse: seq<Arr>): Option<seq<Arr>> {
    if pred.shape != [] || Shapes(onTrue) != Shapes(onFalse) then None
    else Some(if pred.at([]) != 0.0 then onTrue else onFalse)
  }

  function EvalInstr(m: Math, instr: Instr, vals: seq<Arr>): Option<seq<Arr>>
    decreases instr, 0
  {
    match instr
    case Instr(op, _) =>
      var r :- Impl(m, op, vals);
      Some([r])
    case Call(body, _) => EvalProgram(m, body, vals)
    case Cond(onTrue, onFalse, _) =>
      if vals == [] then None
      else
        var t :- EvalProgram(m, onTrue, vals[1..]);
        var f :- EvalProgram(m, onFalse, vals[1..]);
        Choose(vals[0], t, f)
  }

  function Run(m: Math, instrs: seq<Instr>, env: seq<Arr>): Option<seq<Arr>>
    decreases instrs, 0
  {
    if instrs == [] then Some(env)
    else
      var vals :- ReadAll(env, instrs[0].args);
      var rs :- EvalInstr(m, instrs[0], vals);
      Run(m, instrs[1..], env + rs)
  }

  function EvalProgram(m: Math, p: Program, args: seq<Arr>): Option<seq<Arr>>
    decreases p, 0
  {
    var env :- Run(m, p.instrs, args);
    ReadAll(env, p.outs)
  }

  // ---------- the batching interpreter ----------

  /** A BatchTracer, or a value that is not boxed; `dim` None is not_mapped. */
  datatype BVal = Tracer(val: Arr, dim: Option<nat>) | Plain(val: Arr)

  /** broadcast(x, target_shape, [dst]) */
  function BroadcastAxis(n: nat, dst: nat, x: Arr): Arr {
    Arr(Insert(x.shape, dst, n), index => if dst < |index| then x.at(Delete(index, dst)) else 0.0)
  }

  /** moveaxis: the transposition that takes dimension `src` to position `dst`. */
  function MoveAxis(src: nat, dst: nat, x: Arr): Arr
    requires src < |x.shape| && dst < |x.shape|
  {
    Arr(Insert(Delete(x.shape, src), dst, x.shape[src]),
        index => if dst < |index| then x.at(Insert(Delete(index, dst), src, index[dst])) else 0.0)
  }

  /** move_batch_axis */
  function MoveBatchAxis(n: nat, src: Option<nat>, dst: nat, x: Arr): Option<Arr> {
    if src.None? then Some(BroadcastAxis(n, dst, x))
    else if src.value == dst then Some(x)
    else if src.value < |x.shape| && dst < |x.shape| then Some(MoveAxis(src.value, dst, x))
    else None
  }

  /** binop_batching_rule */
  function BinopRule(op: Op, n: nat, x: Arr, xdim: Option<nat>, y: Arr, ydim: Option<nat>): Option<(Arr, Option<nat>)> {
    if xdim == ydim then
      var r :- Binary(op, x, y);
      Some((r, xdim))
    else if xdim.None? then
      var x1 :- MoveBatchAxis(n, xdim, ydim.value, x);
      var r :- Binary(op, x1, y);
      Some((r, ydim))
    else
      var y1 :- MoveBatchAxis(n, ydim, xdim.value, y);
      var r :- Binary(op, x, y1);
      Some((r, xdim))
  }

  /** ax + (x_bdim <= ax) for each axis */
  function ShiftAxes(axis: seq<nat>, dim: nat): (r: seq<nat>)
    ensures |r| == |axis| && forall i :: 0 <= i < |axis| ==> r[i] == if dim <= axis[i] then axis[i] + 1 else axis[i]
  {
    seq(|axis|, i requires 0 <= i < |axis| => if dim <= axis[i] then axis[i] + 1 else axis[i])
  }

  /** sum(ax < x_bdim for ax in axis) */
  function CountBelow(axis: seq<nat>, dim: nat): nat {
    if axis == [] then 0 else (if axis[0] < dim then 1 else 0) + CountBelow(axis[1..], dim)
  }

  /** The batching rules; reduce_sum needs a mapped operand. */
  function BatchRule(m: Math, op: Op, n: nat, vals: seq<Arr>, dims: seq<Option<nat>>): Option<(Arr, Option<nat>)>
    requires |vals| == |dims|
  {
    match op
    case Add | Mul =>
      if |vals| != 2 then None else BinopRule(op, n, vals[0], dims[0], vals[1], dims[1])
    case Neg | Sin | Cos =>
      if |vals| != 1 then None
      else
        var r :- Unary(m, op, vals[0]);
        Some((r, dims[0]))
    case ReduceSum(axis) =>
      if |vals| != 1 || dims[0].None? then None
      else
        var dim := dims[0].value;
        var r :- Unary(m, ReduceSum(ShiftAxes(axis, dim)), vals[0]);
        if CountBelow(axis, dim) <= dim then Some((r, Some(dim - CountBelow(axis, dim)))) else None
  }

  function ValOf(v: BVal): Arr {
    v.val
  }

  function DimOf(v: BVal): Option<nat> {
    if v.Tracer? then v.dim else None
  }

  function ValsOf(vs: seq<BVal>): (r: seq<Arr>)
    ensures |r| == |vs| && forall i :: 0 <= i < |vs| ==> r[i] == ValOf(vs[i])
  {
    seq(|vs|, i requires 0 <= i < |vs| => ValOf(vs[i]))
  }

  function DimsOf(vs: seq<BVal>): (r: seq<Option<nat>>)
    ensures |r| == |vs| && forall i :: 0 <= i < |vs| ==> r[i] == DimOf(vs[i])
  {
    seq(|vs|, i requires 0 <= i < |vs| => DimOf(vs[i]))
  }

  /** bind: without a tracer the operation is evaluated; otherwise the operands are boxed, the rule
      is applied, and an unmapped result is unboxed. */
  function BatchBind(m: Math, op: Op, n: nat, vs: seq<BVal>): Option<BVal> {
    if AllPlain(vs) then
      var r :- Impl(m, op, ValsOf(vs));
      Some(Plain(r))
    else
      var r :- BatchRule(m, op, n, ValsOf(vs), DimsOf(vs));
      Some(if r.1.None? then Plain(r.0) else Tracer(r.0, r.1))
  }

  function BRead(env: seq<BVal>, x: Operand): Option<BVal> {
    if x.Lit? then Some(Plain(x.val)) else if x.i < |env| then Some(env[x.i]) else None
  }

  function BReadAll(env: seq<BVal>, xs: seq<Operand>): Option<seq<BVal>> {
    if xs == [] then Some([])
    else
      var x :- BRead(env, xs[0]);
      var rest :- BReadAll(env, xs[1..]);
      Some([x] + rest)
  }

  /** The sizes of the mapped axes of the arguments. */
  function MappedSizes(args: seq<Arr>, axes: seq<Option<nat>>): Option<set<nat>>
    requires |args| == |axes|
  {
    if args == [] then Some({})
    else
      var rest :- MappedSizes(args[1..], axes[1..]);
      if axes[0].None? then Some(rest)
      else if axes[0].value < |args[0].shape| then Some(rest + {args[0].shape[axes[0].value]})
      else None
  }

  function TracersIn(args: seq<Arr>, axes: seq<Option<nat>>): (r: seq<BVal>)
    requires |args| == |axes|
    ensures |r| == |args| && forall i :: 0 <= i < |args| ==> r[i] == Tracer(args[i], axes[i])
  {
    seq(|args|, i requires 0 <= i < |args| => Tracer(args[i], axes[i]))
  }

  function MoveAll(n: nat, vs: seq<BVal>): Option<seq<Arr>> {
    if vs == [] then Some([])
    else
      var x :- MoveBatchAxis(n, DimOf(vs[0]), 0, ValOf(vs[0]));
      var rest :- MoveAll(n, vs[1..]);
      Some([x] + rest)
  }

  function PlainsOf(xs: seq<Arr>): (r: seq<BVal>)
    ensures |r| == |xs| && forall i :: 0 <= i < |xs| ==> r[i] == Plain(xs[i])
  {
    seq(|xs|, i requires 0 <= i < |xs| => Plain(xs[i]))
  }

  /** Values that are batched along dimension 0. */
  function Batched(xs: seq<Arr>): (r: seq<BVal>)
    ensures |r| == |xs| && forall i :: 0 <= i < |xs| ==> r[i] == Tracer(xs[i], Some(0))
  {
    seq(|xs|, i requires 0 <= i < |xs| => Tracer(xs[i], Some(0)))
  }

  predicate AllPlain(vs: seq<BVal>) {
    forall i :: 0 <= i < |vs| ==> vs[i].Plain?
  }

  /** The rules of xla_call and cond: the bodies are transformed by vmap_jaxpr, which batches all results
      along dimension 0. A mapped predicate is not implemented. */
  function BatchInstr(m: Math, instr: Instr, n: nat, vs: seq<BVal>): Option<seq<BVal>>
    decreases instr, 0
  {
    match instr
    case Instr(op, _) =>
      var r :- BatchBind(m, op, n, vs);
      Some([r])
    case Call(body, _) =>
      if AllPlain(vs) then
        var rs :- EvalInstr(m, instr, ValsOf(vs));
        Some(PlainsOf(rs))
      else
        var rs :- VmapFlat(m, body, DimsOf(vs), ValsOf(vs), n);
        Some(Batched(rs))
    case Cond(onTrue, onFalse, _) =>
      if AllPlain(vs) then
        var rs :- EvalInstr(m, instr, ValsOf(vs));
        Some(PlainsOf(rs))
      else if DimOf(vs[0]).Some? then None
      else
        var t :- VmapFlat(m, onTrue, DimsOf(vs[1..]), ValsOf(vs[1..]), n);
        var f :- VmapFlat(m, onFalse, DimsOf(vs[1..]), ValsOf(vs[1..]), n);
        var rs :- Choose(ValOf(vs[0]), t, f);
        Some(Batched(rs))
  }

  function BRun(m: Math, instrs: seq<Instr>, n: nat, env: seq<BVal>): Option<seq<BVal>>
    decreases instrs, 0
  {
    if instrs == [] then Some(env)
    else
      var vs :- BReadAll(env, instrs[0].args);
      var rs :- BatchInstr(m, instrs[0], n, vs);
      BRun(m, instrs[1..], n, env + rs)
  }

  /** vmap_flat for a given axis size, which all mapped axes must have. */
  function VmapFlat(m: Math, p: Program, axes: seq<Option<nat>>, args: seq<Arr>, n: nat): Option<seq<Arr>>
    requires |args| == |axes|
    decreases p, 0
  {
    if MappedSizes(args, axes) != Some({n}) then None
    else
      var env :- BRun(m, p.instrs, n, TracersIn(args, axes));
      var outs :- BReadAll(env, p.outs);
      MoveAll(n, outs)
  }
}
