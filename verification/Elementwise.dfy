/** What vmap returns, element by element: on arrays a function of elementwise operations computes, at
    every index, what the jaxpr of the same operations computes on the elements there. */
module Elementwise {
  import opened Wrappers
  import B = Batching
  import J = Jaxprs
  import S = Soundness
  import BatchingProof

  // ---------- the jaxpr of a function ----------

  /** The variable of the `i`-th value. */
  function Slot(i: nat): J.Var {
    J.Var(i, J.Float)
  }

  function Slots(first: nat, n: nat): (r: seq<J.Var>)
    ensures |r| == n && forall i :: 0 <= i < n ==> r[i] == Slot(first + i)
  {
    seq(n, i requires 0 <= i < n => Slot(first + i))
  }

  /** An operand; of a literal, the element at `idx`. */
  function AtomOf(x: B.Operand, idx: seq<nat>): J.Atom {
    match x
    case Ref(i) => J.V(Slot(i))
    case Lit(val) => J.Lit(J.R(val.at(idx)))
  }

  function AtomsOf(xs: seq<B.Operand>, idx: seq<nat>): (r: seq<J.Atom>)
    ensures |r| == |xs| && forall i :: 0 <= i < |xs| ==> r[i] == AtomOf(xs[i], idx)
  {
    seq(|xs|, i requires 0 <= i < |xs| => AtomOf(xs[i], idx))
  }

  function PrimOf(op: B.Op): J.Prim
    requires !op.ReduceSum?
  {
    match op
    case Add => J.Add
    case Mul => J.Mul
    case Neg => J.Neg
    case Sin => J.Sin
    case Cos => J.Cos
  }

  /** There is no sum, and literals have the shape `s`. */
  predicate UniformInstr(instr: B.Instr, s: seq<nat>)
    decreases instr, 0
  {
    UniformArgs(instr.args, s)
    && match instr
       case Instr(op, _) => !op.ReduceSum?
       case Call(body, _) => Uniform(body, s)
       case Cond(onTrue, onFalse, _) => Uniform(onTrue, s) && Uniform(onFalse, s)
  }

  predicate UniformArgs(xs: seq<B.Operand>, s: seq<nat>) {
    forall i :: 0 <= i < |xs| && xs[i].Lit? ==> xs[i].val.shape == s
  }

  predicate UniformInstrs(instrs: seq<B.Instr>, s: seq<nat>)
    decreases instrs, 0
  {
    instrs == [] || (UniformInstr(instrs[0], s) && UniformInstrs(instrs[1..], s))
  }

  predicate Uniform(p: B.Program, s: seq<nat>)
    decreases p, 0
  {
    UniformInstrs(p.instrs, s) && UniformArgs(p.outs, s)
  }

  /** How many values an operation returns. */
  function Count(instr: B.Instr): nat {
    match instr
    case Instr(_, _) => 1
    case Call(body, _) => |body.outs|
    case Cond(onTrue, _, _) => |onTrue.outs|
  }

  function EqnOf(instr: B.Instr, n: nat, idx: seq<nat>, s: seq<nat>): J.Eqn
    requires UniformInstr(instr, s)
    decreases instr, 0
  {
    var ins, outs := AtomsOf(instr.args, idx), Slots(n, Count(instr));
    match instr
    case Instr(op, _) => J.PrimEqn(PrimOf(op), ins, outs)
    case Call(body, args) => J.CallEqn(JaxprOf(body, |args|, idx, s), ins, outs)
    case Cond(onTrue, onFalse, args) =>
      var k := if |args| == 0 then 0 else |args| - 1;
      J.CondEqn(JaxprOf(onTrue, k, idx, s), JaxprOf(onFalse, k, idx, s), ins, outs)
  }

  function EqnsOf(instrs: seq<B.Instr>, n: nat, idx: seq<nat>, s: seq<nat>): seq<J.Eqn>
    requires UniformInstrs(instrs, s)
    decreases instrs, 0
  {
    if instrs == [] then []
    else [EqnOf(instrs[0], n, idx, s)] + EqnsOf(instrs[1..], n + Count(instrs[0]), idx, s)
  }

  /** The jaxpr that performs the operations of `p` on the elements at `idx` of its `k` arguments. */
  function JaxprOf(p: B.Program, k: nat, idx: seq<nat>, s: seq<nat>): J.Jaxpr
    requires Uniform(p, s)
    decreases p, 0
  {
    J.Jaxpr(Slots(0, k), EqnsOf(p.instrs, k, idx, s), AtomsOf(p.outs, idx))
  }

  // ---------- elements ----------

  function Elements(xs: seq<B.Arr>, idx: seq<nat>): (r: seq<J.Val>)
    ensures |r| == |xs| && forall i :: 0 <= i < |xs| ==> r[i] == J.R(xs[i].at(idx))
  {
    seq(|xs|, i requires 0 <= i < |xs| => J.R(xs[i].at(idx)))
  }

  ghost predicate AllShaped(xs: seq<B.Arr>, s: seq<nat>) {
    forall i :: 0 <= i < |xs| ==> xs[i].shape == s
  }

  /** The environment gives each slot the element at `idx`. */
  ghost predicate Holds(env: seq<B.Arr>, jenv: J.Env, idx: seq<nat>) {
    && (forall v :: v in jenv ==> v.id < |env|)
    && forall i :: 0 <= i < |env| ==> Slot(i) in jenv && jenv[Slot(i)] == J.R(env[i].at(idx))
  }

  function MathOf(m: B.Math): J.Math {
    J.Math(m.sin, m.cos)
  }

  lemma {:induction false} ReadAllAt(env: seq<B.Arr>, xs: seq<B.Operand>)
    requires B.ReadAll(env, xs).Some?
    ensures |B.ReadAll(env, xs).value| == |xs|
    ensures forall i :: 0 <= i < |xs| ==> B.Read(env, xs[i]) == Some(B.ReadAll(env, xs).value[i])
    decreases xs
  {
    if xs != [] {
      ReadAllAt(env, xs[1..]);
      assert forall i :: 1 <= i < |xs| ==> xs[i] == xs[1..][i - 1];
    }
  }

  lemma ReadElements(env: seq<B.Arr>, jenv: J.Env, xs: seq<B.Operand>, idx: seq<nat>, s: seq<nat>)
    requires Holds(env, jenv, idx) && AllShaped(env, s) && UniformArgs(xs, s) && B.ReadAll(env, xs).Some?
    ensures var vals := B.ReadAll(env, xs).value;
            AllShaped(vals, s) && |vals| == |xs| && J.ReadAll(jenv, AtomsOf(xs, idx)) == Some(Elements(vals, idx))
  {
    ReadAllAt(env, xs);
    hide B.ReadAll;
    var vals, atoms := B.ReadAll(env, xs).value, AtomsOf(xs, idx);
    forall i | 0 <= i < |xs|
      ensures J.Bound(jenv.Keys, atoms[i]) && J.Get(jenv, atoms[i]) == J.R(vals[i].at(idx)) && vals[i].shape == s
    {
      assert B.Read(env, xs[i]) == Some(vals[i]);
    }
    assert J.Gets(jenv, atoms) == Elements(vals, idx);
  }

  lemma WriteElements(env: seq<B.Arr>, jenv: J.Env, rs: seq<B.Arr>, idx: seq<nat>)
    requires Holds(env, jenv, idx)
    ensures J.Write(jenv, Slots(|env|, |rs|), Elements(rs, idx)).Some?
    ensures Holds(env + rs, J.Write(jenv, Slots(|env|, |rs|), Elements(rs, idx)).value, idx)
  {
    var vs, vals := Slots(|env|, |rs|), Elements(rs, idx);
    forall v | v in vs ensures v !in jenv {
    }
    S.WriteSpec(jenv, vs, vals);
    var r := J.Write(jenv, vs, vals).value;
    forall i | 0 <= i < |env + rs| ensures Slot(i) in r && r[Slot(i)] == J.R((env + rs)[i].at(idx)) {
      if i >= |env| {
        assert vs[i - |env|] == Slot(i) && r[vs[i - |env|]] == vals[i - |env|];
      }
    }
  }

  /** One primitive. */
  lemma ImplElements(m: B.Math, op: B.Op, vals: seq<B.Arr>, idx: seq<nat>, s: seq<nat>)
    requires !op.ReduceSum? && B.Impl(m, op, vals).Some? && AllShaped(vals, s)
    ensures B.Impl(m, op, vals).value.shape == s
    ensures J.ImplPrim(MathOf(m), PrimOf(op), Elements(vals, idx)) == Some([J.R(B.Impl(m, op, vals).value.at(idx))])
  {
    var ys, z := Elements(vals, idx), B.Impl(m, op, vals).value.at(idx);
    var r := J.ImplPrim(MathOf(m), PrimOf(op), ys);
    assert r.Some? && |r.value| == 1 && r.value[0].R? && r.value[0].r == z;
  }

  lemma {:induction false} InstrElements(m: B.Math, instr: B.Instr, vals: seq<B.Arr>, n: nat, idx: seq<nat>,
                                         s: seq<nat>)
    requires UniformInstr(instr, s) && B.InRange(s, idx) && AllShaped(vals, s) && |vals| == |instr.args|
    requires B.EvalInstr(m, instr, vals).Some?
    ensures var rs := B.EvalInstr(m, instr, vals).value;
            && AllShaped(rs, s) && |rs| == Count(instr)
            && J.Bind(MathOf(m), EqnOf(instr, n, idx, s), Elements(vals, idx)) == Some(Elements(rs, idx))
    decreases instr, 0
  {
    hide B.EvalProgram, J.Eval, B.Impl, J.ImplPrim, PrimOf, JaxprOf, Uniform;
    match instr
    case Instr(op, _) =>
      ImplElements(m, op, vals, idx, s);
      assert Elements([B.Impl(m, op, vals).value], idx) == [J.R(B.Impl(m, op, vals).value.at(idx))];
    case Call(body, _) => ProgramElements(m, body, vals, idx, s);
    case Cond(onTrue, onFalse, _) =>
      ProgramElements(m, onTrue, vals[1..], idx, s);
      ProgramElements(m, onFalse, vals[1..], idx, s);
      assert Elements(vals, idx)[1..] == Elements(vals[1..], idx);
      ChosenElements(vals[0], B.EvalProgram(m, onTrue, vals[1..]).value, B.EvalProgram(m, onFalse, vals[1..]).value,
                     idx, s);
  }

  /** A conditional only returns for a scalar predicate, of which there is one element. */
  lemma ChosenElements(pred: B.Arr, t: seq<B.Arr>, f: seq<B.Arr>, idx: seq<nat>, s: seq<nat>)
    requires B.Choose(pred, t, f).Some? && pred.shape == s && B.InRange(s, idx)
    ensures idx == [] && |t| == |f|
    ensures B.Choose(pred, t, f).value == if J.Truthy(J.R(pred.at(idx))) then t else f
  {
    assert |B.Shapes(t)| == |B.Shapes(f)|;
  }

  lemma {:induction false} RunElements(m: B.Math, instrs: seq<B.Instr>, env: seq<B.Arr>, jenv: J.Env, idx: seq<nat>,
                                       s: seq<nat>)
    requires UniformInstrs(instrs, s) && B.InRange(s, idx) && AllShaped(env, s) && Holds(env, jenv, idx)
    requires B.Run(m, instrs, env).Some?
    ensures var env' := B.Run(m, instrs, env).value;
            var r := J.EvalEqns(MathOf(m), EqnsOf(instrs, |env|, idx, s), jenv);
            r.Some? && Holds(env', r.value, idx) && AllShaped(env', s)
    decreases instrs, 0
  {
    hide B.EvalInstr, J.Bind, J.Write, B.ReadAll, J.ReadAll, Holds, UniformInstr, UniformArgs, EqnOf;
    if instrs != [] {
      var instr := instrs[0];
      InstrArgs(instr, |env|, idx, s);
      ReadElements(env, jenv, instr.args, idx, s);
      var vals := B.ReadAll(env, instr.args).value;
      var rs := B.EvalInstr(m, instr, vals).value;
      InstrElements(m, instr, vals, |env|, idx, s);
      WriteElements(env, jenv, rs, idx);
      assert EqnsOf(instrs, |env|, idx, s)[0] == EqnOf(instr, |env|, idx, s);
      assert EqnsOf(instrs, |env|, idx, s)[1..] == EqnsOf(instrs[1..], |env + rs|, idx, s);
      RunElements(m, instrs[1..], env + rs, J.Write(jenv, Slots(|env|, |rs|), Elements(rs, idx)).value, idx, s);
    }
  }

  lemma InstrArgs(instr: B.Instr, n: nat, idx: seq<nat>, s: seq<nat>)
    requires UniformInstr(instr, s)
    ensures UniformArgs(instr.args, s)
    ensures EqnOf(instr, n, idx, s).inputs == AtomsOf(instr.args, idx)
    ensures EqnOf(instr, n, idx, s).outs == Slots(n, Count(instr))
  {
  }

  /** Evaluation of a function on arrays of one shape is, at every index, evaluation of its jaxpr on the
      elements, through calls, and for scalars through conditionals. */
  lemma {:induction false} ProgramElements(m: B.Math, p: B.Program, args: seq<B.Arr>, idx: seq<nat>, s: seq<nat>)
    requires Uniform(p, s) && B.InRange(s, idx) && AllShaped(args, s) && B.EvalProgram(m, p, args).Some?
    ensures var outs := B.EvalProgram(m, p, args).value;
            && AllShaped(outs, s) && |outs| == |p.outs|
            && J.Eval(MathOf(m), JaxprOf(p, |args|, idx, s), Elements(args, idx)) == Some(Elements(outs, idx))
    decreases p, 0
  {
    hide B.Run, J.EvalEqns, B.ReadAll, J.ReadAll, J.Write, Holds, UniformInstrs, UniformArgs, EqnsOf;
    NothingHolds(idx);
    WriteElements([], map[], args, idx);
    assert [] + args == args;
    var jenv := J.Write(map[], Slots(0, |args|), Elements(args, idx)).value;
    RunElements(m, p.instrs, args, jenv, idx, s);
    var env := B.Run(m, p.instrs, args).value;
    var last := J.EvalEqns(MathOf(m), EqnsOf(p.instrs, |args|, idx, s), jenv).value;
    ReadElements(env, last, p.outs, idx, s);
  }

  lemma NothingHolds(idx: seq<nat>)
    ensures Holds([], map[], idx)
  {
  }

  // ---------- vmap ----------

  ghost predicate SomeAxis(axes: seq<Option<nat>>) {
    exists k :: 0 <= k < |axes| && axes[k].Some?
  }

  /** Arguments of vmap, some of them mapped: `n` is the size of the mapped axes, and `s` the shape of every
      example. */
  ghost predicate Operands(args: seq<B.Arr>, axes: seq<Option<nat>>, n: nat, s: seq<nat>) {
    && |args| == |axes| && SomeAxis(axes)
    && forall k :: 0 <= k < |args| ==>
         if axes[k].Some? then axes[k].value <= |s| && args[k].shape == s[..axes[k].value] + [n] + s[axes[k].value..]
         else args[k].shape == s
  }

  /** The elements of row `i` of the mapped arguments, and of the other arguments. */
  function RowElements(args: seq<B.Arr>, axes: seq<Option<nat>>, i: nat, idx: seq<nat>): (r: seq<J.Val>)
    requires |args| == |axes| && forall k :: 0 <= k < |axes| && axes[k].Some? ==> axes[k].value <= |idx|
    ensures |r| == |args|
    ensures forall k :: 0 <= k < |args| ==>
              r[k] == J.R(args[k].at(if axes[k].Some? then idx[..axes[k].value] + [i] + idx[axes[k].value..] else idx))
  {
    seq(|args|, k requires 0 <= k < |args| =>
      J.R(args[k].at(if axes[k].Some? then idx[..axes[k].value] + [i] + idx[axes[k].value..] else idx)))
  }

  /** Element [i] + idx of every result of vmap is what the jaxpr of the function computes on the elements at
      `idx` of row `i` of the arguments, whichever axes they are mapped over. */
  lemma VmapElements(m: B.Math, p: B.Program, axes: seq<Option<nat>>, args: seq<B.Arr>, n: nat, i: nat, idx: seq<nat>,
                     s: seq<nat>)
    requires Operands(args, axes, n, s) && i < n && B.InRange(s, idx)
    requires Uniform(p, s) && B.VmapFlat(m, p, axes, args, n).Some?
    ensures var outs := B.VmapFlat(m, p, axes, args, n).value;
            && (forall k :: 0 <= k < |outs| ==> outs[k].shape == [n] + s)
            && J.Eval(MathOf(m), JaxprOf(p, |args|, idx, s), RowElements(args, axes, i, idx))
               == Some(Elements(outs, [i] + idx))
  {
    hide B.VmapFlat, B.EvalProgram, B.MappedSizes, Uniform, J.Eval, JaxprOf, BatchingProof.BodyRules,
      BatchingProof.Stacked;
    SizesOf(args, axes, n, s);
    BatchingProof.VmapIsMap(m, p, axes, args, n, i);
    var rows := BatchingProof.ArgRows(args, axes, i);
    RowsShaped(args, axes, n, i, idx, s);
    ProgramElements(m, p, rows, idx, s);
    StackedElements(B.VmapFlat(m, p, axes, args, n).value, B.EvalProgram(m, p, rows).value, n, i, idx, s);
  }

  lemma {:induction false} SizesOf(args: seq<B.Arr>, axes: seq<Option<nat>>, n: nat, s: seq<nat>)
    requires |args| == |axes|
    requires forall k :: 0 <= k < |args| && axes[k].Some? ==>
               axes[k].value <= |s| && args[k].shape == s[..axes[k].value] + [n] + s[axes[k].value..]
    ensures B.MappedSizes(args, axes) == Some(if SomeAxis(axes) then {n} else {})
  {
    if args != [] {
      SizesOf(args[1..], axes[1..], n, s);
      SomeAxisStep(axes);
      if axes[0].Some? {
        assert args[0].shape[axes[0].value] == n;
        assert {n} + {n} == {n} && {} + {n} == {n};
      }
    }
  }

  lemma SomeAxisStep(axes: seq<Option<nat>>)
    requires axes != []
    ensures SomeAxis(axes) <==> axes[0].Some? || SomeAxis(axes[1..])
  {
    if k :| 0 <= k < |axes| && axes[k].Some? {
      assert k > 0 ==> axes[1..][k - 1].Some?;
    }
    if k :| 0 <= k < |axes| - 1 && axes[1..][k].Some? {
      assert axes[k + 1].Some?;
    }
  }

  lemma RowsShaped(args: seq<B.Arr>, axes: seq<Option<nat>>, n: nat, i: nat, idx: seq<nat>, s: seq<nat>)
    requires Operands(args, axes, n, s) && B.InRange(s, idx) && BatchingProof.MappedAxes(args, axes, n)
    ensures AllShaped(BatchingProof.ArgRows(args, axes, i), s)
    ensures Elements(BatchingProof.ArgRows(args, axes, i), idx) == RowElements(args, axes, i, idx)
  {
    var rows := BatchingProof.ArgRows(args, axes, i);
    forall k | 0 <= k < |args|
      ensures rows[k].shape == s && J.R(rows[k].at(idx)) == RowElements(args, axes, i, idx)[k]
    {
      if axes[k].Some? {
        var b := axes[k].value;
        BatchingProof.DeleteInsert(s, b, n);
        assert B.Insert(idx, b, i) == idx[..b] + [i] + idx[b..];
        assert rows[k].at(idx) == args[k].at(idx[..b] + [i] + idx[b..]);
      }
    }
  }

  lemma StackedElements(outs: seq<B.Arr>, rows: seq<B.Arr>, n: nat, i: nat, idx: seq<nat>, s: seq<nat>)
    requires |outs| == |rows| && AllShaped(rows, s) && B.InRange(s, idx)
    requires forall k :: 0 <= k < |outs| ==> BatchingProof.Stacked(n, outs[k], i, rows[k])
    ensures Elements(outs, [i] + idx) == Elements(rows, idx)
    ensures forall k :: 0 <= k < |outs| ==> outs[k].shape == [n] + s
  {
    hide BatchingProof.Stacked;
    forall k | 0 <= k < |outs| ensures outs[k].at([i] + idx) == rows[k].at(idx) && outs[k].shape == [n] + s {
      StackedAt(n, outs[k], i, rows[k], idx);
    }
  }

  lemma StackedAt(n: nat, out: B.Arr, i: nat, a: B.Arr, index: seq<nat>)
    requires BatchingProof.Stacked(n, out, i, a) && B.InRange(a.shape, index)
    ensures out.shape == [n] + a.shape && out.at([i] + index) == a.at(index)
  {
    assert B.Insert(index, 0, i) == [i] + index;
    assert BatchingProof.Row(out, 0, i).at(index) == a.at(index);
  }

  // ---------- the primitives, in numbers ----------

  function Refs(k: nat): (r: seq<B.Operand>)
    ensures |r| == k && forall i :: 0 <= i < k ==> r[i] == B.Ref(i)
  {
    seq(k, i requires 0 <= i < k => B.Ref(i))
  }

  /** The function that performs one operation on its `k` arguments. */
  function OneOp(op: B.Op, k: nat): B.Program {
    B.Program([B.Instr(op, Refs(k))], [B.Ref(k)])
  }

  lemma {:induction false} ReadRefs(env: seq<B.Arr>, xs: seq<B.Operand>)
    requires |xs| <= |env| && forall i :: 0 <= i < |xs| ==> xs[i] == B.Ref(|env| - |xs| + i)
    ensures B.ReadAll(env, xs) == Some(env[|env| - |xs|..])
    decreases xs
  {
    if xs != [] {
      ReadRefs(env, xs[1..]);
      assert env[|env| - |xs|..] == [env[|env| - |xs|]] + env[|env| - |xs| + 1..];
    }
  }

  /** A function that performs one operation on all its arguments and returns its result. */
  lemma OneInstr(m: B.Math, instr: B.Instr, args: seq<B.Arr>, r: B.Arr)
    requires instr.args == Refs(|args|) && B.EvalInstr(m, instr, args) == Some([r])
    ensures B.EvalProgram(m, B.Program([instr], [B.Ref(|args|)]), args) == Some([r])
  {
    hide B.EvalInstr;
    var p := B.Program([instr], [B.Ref(|args|)]);
    ReadRefs(args, instr.args);
    assert args[0..] == args && p.instrs[1..] == [];
    assert B.Run(m, p.instrs[1..], args + [r]) == Some(args + [r]);
    assert B.Run(m, p.instrs, args) == Some(args + [r]);
    ReadRefs(args + [r], p.outs);
    assert (args + [r])[|args|..] == [r];
  }

  /** The operation on arguments that are examples. */
  lemma OneOpValue(m: B.Math, op: B.Op, args: seq<B.Arr>, r: B.Arr)
    requires B.Impl(m, op, args) == Some(r)
    ensures B.EvalProgram(m, OneOp(op, |args|), args) == Some([r])
  {
    hide B.Impl;
    OneInstr(m, B.Instr(op, Refs(|args|)), args, r);
  }

  lemma OneOpRules(op: B.Op, kinds: seq<BatchingProof.Kind>)
    requires !op.ReduceSum? && BatchingProof.Mapped in kinds
    ensures BatchingProof.BodyRules(OneOp(op, |kinds|), kinds)
  {
    assert OneOp(op, |kinds|).instrs[1..] == [];
  }

  lemma {:induction false} SomeMapped(args: seq<B.Arr>, axes: seq<Option<nat>>)
    requires |args| == |axes| && B.MappedSizes(args, axes).Some? && B.MappedSizes(args, axes).value != {}
    ensures BatchingProof.Mapped in BatchingProof.Kinds(B.TracersIn(args, axes))
  {
    var kinds := BatchingProof.Kinds(B.TracersIn(args, axes));
    if axes[0].Some? {
      assert kinds[0] == BatchingProof.Mapped;
    } else {
      SomeMapped(args[1..], axes[1..]);
      var rest := BatchingProof.Kinds(B.TracersIn(args[1..], axes[1..]));
      var k :| 0 <= k < |rest| && rest[k] == BatchingProof.Mapped;
      assert kinds[k + 1] == rest[k];
    }
  }

  /** What the operation is to compute from real numbers. */
  ghost predicate IsResult(m: B.Math, op: B.Op, xs: seq<J.Val>, z: real) {
    && (forall k :: 0 <= k < |xs| ==> xs[k].R?)
    && (op.Add? ==> |xs| == 2 && z == xs[0].r + xs[1].r)
    && (op.Mul? ==> |xs| == 2 && z == xs[0].r * xs[1].r)
    && (op.Neg? ==> |xs| == 1 && z == -xs[0].r)
    && (op.Sin? ==> |xs| == 1 && z == m.sin(xs[0].r))
    && (op.Cos? ==> |xs| == 1 && z == m.cos(xs[0].r))
  }

  lemma OpNumbers(m: B.Math, op: B.Op, rows: seq<B.Arr>, idx: seq<nat>, s: seq<nat>)
    requires AllShaped(rows, s) && !op.ReduceSum? && |rows| == if op.Add? || op.Mul? then 2 else 1
    ensures B.Impl(m, op, rows).Some? && B.Impl(m, op, rows).value.shape == s
    ensures IsResult(m, op, Elements(rows, idx), B.Impl(m, op, rows).value.at(idx))
  {
  }

  /** vmap of add, mul, neg, sin and cos returns, and element [i] + idx of its result is the sum, the product
      and so on of the elements at `idx` of row `i` of the operands. */
  lemma VmapArithmetic(m: B.Math, op: B.Op, axes: seq<Option<nat>>, args: seq<B.Arr>, n: nat, i: nat, idx: seq<nat>,
                       s: seq<nat>)
    requires Operands(args, axes, n, s) && i < n && B.InRange(s, idx)
    requires !op.ReduceSum? && |args| == if op.Add? || op.Mul? then 2 else 1
    ensures var r, xs := B.VmapFlat(m, OneOp(op, |args|), axes, args, n), RowElements(args, axes, i, idx);
            && r.Some? && |r.value| == 1 && r.value[0].shape == [n] + s
            && IsResult(m, op, xs, r.value[0].at([i] + idx))
  {
    hide B.VmapFlat, B.EvalProgram, B.MappedSizes, BatchingProof.BodyRules, BatchingProof.Stacked;
    var p := OneOp(op, |args|);
    SizesOf(args, axes, n, s);
    BatchingProof.VmapIsMap(m, p, axes, args, n, i);
    var rows, xs := BatchingProof.ArgRows(args, axes, i), RowElements(args, axes, i, idx);
    RowsShaped(args, axes, n, i, idx, s);
    OpNumbers(m, op, rows, idx, s);
    var r := B.Impl(m, op, rows).value;
    hide IsResult, B.Impl;
    OneOpValue(m, op, rows, r);
    SomeMapped(args, axes);
    OneOpRules(op, BatchingProof.Kinds(B.TracersIn(args, axes)));
    StackedElements(B.VmapFlat(m, p, axes, args, n).value, [r], n, i, idx, s);
    var outs := B.VmapFlat(m, p, axes, args, n).value;
    assert Elements(outs, [i] + idx)[0] == Elements([r], idx)[0];
  }

  // ---------- a conditional ----------

  /** jit(sin), as a function that calls it. */
  function CalledSin(): B.Program {
    B.Program([B.Call(OneOp(B.Sin, 1), Refs(1))], [B.Ref(1)])
  }

  /** lambda p, x: cond(p, jit(sin), cos, x). */
  function SinOrCos(): B.Program {
    B.Program([B.Cond(CalledSin(), OneOp(B.Cos, 1), Refs(2))], [B.Ref(2)])
  }

  function Scalar(x: real): B.Arr {
    B.Arr([], index => x)
  }

  /** vmap of it over x only, with a call in one branch: element i is sin or cos of x[i]. */
  lemma VmapBranch(m: B.Math, p: real, x: B.Arr, n: nat, i: nat)
    requires x.shape == [n] && i < n
    ensures var r := B.VmapFlat(m, SinOrCos(), [None, Some(0)], [Scalar(p), x], n);
            && r.Some? && |r.value| == 1 && r.value[0].shape == [n]
            && r.value[0].at([i]) == if p != 0.0 then m.sin(x.at([i])) else m.cos(x.at([i]))
  {
    hide B.VmapFlat, B.EvalProgram, B.MappedSizes, BatchingProof.BodyRules, BatchingProof.Stacked;
    var args, axes := [Scalar(p), x], [None, Some(0)];
    assert axes[1].Some?;
    SizesOf(args, axes, n, []) by {
      assert [][..0] + [n] + [][0..] == [n];
    }
    BatchingProof.VmapIsMap(m, SinOrCos(), axes, args, n, i);
    var row := BatchingProof.Row(x, 0, i);
    assert BatchingProof.ArgRows(args, axes, i) == [Scalar(p), row];
    var r := BranchValue(m, p, row);
    BranchRules();
    assert BatchingProof.Kinds(B.TracersIn(args, axes)) == [BatchingProof.Unmapped, BatchingProof.Mapped];
    var outs := B.VmapFlat(m, SinOrCos(), axes, args, n).value;
    StackedElements(outs, [r], n, i, [], []);
    assert [i] + [] == [i] && [n] + [] == [n] && B.Insert([], 0, i) == [i];
    assert Elements(outs, [i])[0] == Elements([r], [])[0];
  }

  lemma BranchValue(m: B.Math, p: real, row: B.Arr) returns (r: B.Arr)
    requires row.shape == []
    ensures B.EvalProgram(m, SinOrCos(), [Scalar(p), row]) == Some([r]) && r.shape == []
    ensures r.at([]) == if p != 0.0 then m.sin(row.at([])) else m.cos(row.at([]))
  {
    var s, c := B.Impl(m, B.Sin, [row]).value, B.Impl(m, B.Cos, [row]).value;
    OneOpValue(m, B.Sin, [row], s);
    OneOpValue(m, B.Cos, [row], c);
    r := if p != 0.0 then s else c;
    assert s.shape == c.shape == [];
    hide B.Impl;
    OneInstr(m, B.Call(OneOp(B.Sin, 1), Refs(1)), [row], s);
    assert B.Shapes([s]) == B.Shapes([c]);
    assert [Scalar(p), row][1..] == [row];
    OneInstr(m, SinOrCos().instrs[0], [Scalar(p), row], r);
  }

  lemma BranchRules()
    ensures BatchingProof.BodyRules(SinOrCos(), [BatchingProof.Unmapped, BatchingProof.Mapped])
  {
    var kinds := [BatchingProof.Unmapped, BatchingProof.Mapped];
    var p := SinOrCos();
    var t := CalledSin();
    OneOpRules(B.Sin, [BatchingProof.Mapped]);
    OneOpRules(B.Cos, [BatchingProof.Mapped]);
    assert BatchingProof.Boxed([BatchingProof.Mapped]) == [BatchingProof.Mapped];
    assert BatchingProof.KindsAt(t.instrs[0].args, [BatchingProof.Mapped]) == [BatchingProof.Mapped];
    assert t.instrs[1..] == [] && p.instrs[1..] == [];
    assert BatchingProof.BodyRules(t, [BatchingProof.Mapped]);
    assert BatchingProof.Boxed(kinds) == kinds;
    assert BatchingProof.KindsAt(p.instrs[0].args, kinds) == kinds;
    assert kinds[1..] == [BatchingProof.Mapped];
    assert kinds[1] == BatchingProof.Mapped;
    assert BatchingProof.Rules(p.instrs[0], kinds);
  }
}
