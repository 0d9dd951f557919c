/** eval_jaxpr_transposed: runs a linear jaxpr backwards, accumulating cotangents. */
module Transposition {
  import opened Wrappers
  import opened Jaxprs

  /** An operand is a known value or an UndefPrimal, which stands for a linear input. */
  datatype Primal = Known(val: Val) | Undef(aval: Ty)

  type CtEnv = map<Var, Val>

  function ReadPrimal(primals: Env, x: Atom): Primal {
    if x.Lit? then Known(x.val)
    else if x.v in primals then Known(primals[x.v])
    else Undef(x.v.aval)
  }

  function ReadPrimals(primals: Env, xs: seq<Atom>): (r: seq<Primal>)
    ensures |r| == |xs| && forall i :: 0 <= i < |xs| ==> r[i] == ReadPrimal(primals, xs[i])
  {
    seq(|xs|, i requires 0 <= i < |xs| => ReadPrimal(primals, xs[i]))
  }

  function WritePrimals(primals: Env, vs: seq<Var>, args: seq<Primal>): Env
    decreases vs
  {
    if vs == [] || args == [] then primals
    else
      var primals1 := if args[0].Known? then primals[vs[0] := args[0].val] else primals;
      WritePrimals(primals1, vs[1..], args[1..])
  }

  /** ct_env.pop(v, zeros) for each of `vs` in turn. */
  function ReadCts(ct: CtEnv, vs: seq<Var>): (seq<Val>, CtEnv)
    decreases vs
  {
    if vs == [] then ([], ct)
    else
      var r := ReadCts(ct - {vs[0]}, vs[1..]);
      ([if vs[0] in ct then ct[vs[0]] else Zero(vs[0].aval)] + r.0, r.1)
  }

  /** write_cotangent for each pair in turn: cotangents of the same variable are added. */
  function WriteCts(ct: CtEnv, xs: seq<Atom>, vals: seq<Option<Val>>): Option<CtEnv>
    decreases xs
  {
    if xs == [] || vals == [] then Some(ct)
    else if xs[0].Lit? || vals[0].None? then WriteCts(ct, xs[1..], vals[1..])
    else
      var v, val := xs[0].v, vals[0].value;
      var sum :- if v in ct then AddVals(ct[v], val) else Some(val);
      WriteCts(ct[v := sum], xs[1..], vals[1..])
  }

  function Somes(vals: seq<Val>): (r: seq<Option<Val>>)
    ensures |r| == |vals| && forall i :: 0 <= i < |vals| ==> r[i] == Some(vals[i])
  {
    seq(|vals|, i requires 0 <= i < |vals| => Some(vals[i]))
  }

  /** [next(outs) if undef else None for undef in undef_primals] */
  function Scatter(ins: seq<Primal>, outs: seq<Val>): Option<seq<Option<Val>>> {
    if ins == [] then Some([])
    else if ins[0].Known? then var r :- Scatter(ins[1..], outs); Some([None] + r)
    else if outs == [] then None
    else var r :- Scatter(ins[1..], outs[1..]); Some([Some(outs[0])] + r)
  }

  /** The transpose rules of the primitives; the others have none. */
  function TransposePrim(p: Prim, cts: seq<Val>, ins: seq<Primal>): Option<seq<Option<Val>>> {
    if |cts| != 1 then None
    else
      match p
      case Add => if |ins| == 2 then Some([Some(cts[0]), Some(cts[0])]) else None
      case Mul =>
        if |ins| != 2 || ins[0].Undef? == ins[1].Undef? then None
        else if ins[0].Undef? then var r :- MulVals(cts[0], ins[1].val); Some([Some(r), None])
        else var r :- MulVals(ins[0].val, cts[0]); Some([None, Some(r)])
      case Neg =>
        if |ins| == 1 && ins[0].Undef? && cts[0].R? then Some([Some(R(-cts[0].r))]) else None
      case Sin | Cos | Greater | Less => None
  }

  /** Calls and conditionals transpose their bodies; a conditional stages both branches, so both
      must be transposable, and its predicate must be known. */
  function TransposeRule(e: Eqn, cts: seq<Val>, ins: seq<Primal>): Option<seq<Option<Val>>>
    decreases e, 0
  {
    match e
    case PrimEqn(p, _, _) => TransposePrim(p, cts, ins)
    case CallEqn(body, _, _) =>
      var _ :- Typecheck(body);
      var outs :- Transpose(body, ins, cts);
      Scatter(ins, outs)
    case CondEqn(onTrue, onFalse, _, _) =>
      if |ins| == 0 || ins[0].Undef? then None
      else
        var _ :- Typecheck(onTrue);
        var _ :- Typecheck(onFalse);
        var outsTrue :- Transpose(onTrue, ins[1..], cts);
        var outsFalse :- Transpose(onFalse, ins[1..], cts);
        var r :- Scatter(ins[1..], if Truthy(ins[0].val) then outsTrue else outsFalse);
        Some([None] + r)
  }

  function TransposeEqn(e: Eqn, primals: Env, ct: CtEnv): Option<CtEnv>
    decreases e, 1
  {
    var (cts, ct1) := ReadCts(ct, e.outs);
    var outs :- TransposeRule(e, cts, ReadPrimals(primals, e.inputs));
    WriteCts(ct1, e.inputs, outs)
  }

  /** The loop over jaxpr.eqns[::-1]: the last equation first. */
  function TransposeEqns(eqns: seq<Eqn>, primals: Env, ct: CtEnv): Option<CtEnv>
    decreases eqns, 0
  {
    if eqns == [] then Some(ct)
    else
      var ct1 :- TransposeEqns(eqns[1..], primals, ct);
      TransposeEqn(eqns[0], primals, ct1)
  }

  function UndefBinders(vs: seq<Var>, args: seq<Primal>): (r: seq<Var>)
    requires |vs| == |args|
    ensures forall v :: v in r ==> v in vs
  {
    if vs == [] then []
    else (if args[0].Undef? then [vs[0]] else []) + UndefBinders(vs[1..], args[1..])
  }

  /** eval_jaxpr_transposed. */
  function Transpose(j: Jaxpr, args: seq<Primal>, cts: seq<Val>): Option<seq<Val>>
    decreases j, 1
  {
    var ct0 :- WriteCts(map[], j.outs, Somes(cts));
    var ct :- TransposeEqns(j.eqns, WritePrimals(map[], j.binders, args), ct0);
    if |j.binders| != |args| then None
    else Some(ReadCts(ct, UndefBinders(j.binders, args)).0)
  }

  // ---------- which jaxprs can be transposed ----------

  function KnownBinders(vs: seq<Var>, undefs: seq<bool>): set<Var>
    requires |vs| == |undefs|
  {
    set i | 0 <= i < |vs| && !undefs[i] :: vs[i]
  }

  /** Every variable that is not a known input is an UndefPrimal, even if it does not depend on
      an undefined input. */
  function UndefFlags(known: set<Var>, xs: seq<Atom>): (r: seq<bool>)
    ensures |r| == |xs| && forall i :: 0 <= i < |xs| ==> r[i] == (xs[i].V? && xs[i].v !in known)
  {
    seq(|xs|, i requires 0 <= i < |xs| => xs[i].V? && xs[i].v !in known)
  }

  predicate RuleApplies(e: Eqn, undefs: seq<bool>)
    decreases e, 0
  {
    match e
    case PrimEqn(p, _, _) =>
      (match p
       case Add => true
       case Mul => |undefs| == 2 && undefs[0] != undefs[1]
       case Neg => |undefs| == 1 && undefs[0]
       case Sin | Cos | Greater | Less => false)
    case CallEqn(body, _, _) => Transposable(body, undefs)
    case CondEqn(onTrue, onFalse, _, _) =>
      |undefs| > 0 && !undefs[0] && Transposable(onTrue, undefs[1..]) && Transposable(onFalse, undefs[1..])
  }

  predicate Transposable(j: Jaxpr, undefs: seq<bool>)
    decreases j, 1
  {
    && |undefs| == |j.binders|
    && forall e :: e in j.eqns ==> RuleApplies(e, UndefFlags(KnownBinders(j.binders, undefs), e.inputs))
  }

  lemma {:induction false} TransposeEqnsLast(eqns: seq<Eqn>, e: Eqn, primals: Env, ct: CtEnv)
    ensures TransposeEqns(eqns + [e], primals, ct) ==
            (var ct1 := TransposeEqn(e, primals, ct);
             if ct1.None? then None else TransposeEqns(eqns, primals, ct1.value))
  {
    if eqns == [] {
      assert eqns + [e] == [e];
      assert TransposeEqns([e][1..], primals, ct) == Some(ct);
    } else {
      TransposeEqnsLast(eqns[1..], e, primals, ct);
      assert (eqns + [e])[1..] == eqns[1..] + [e];
    }
  }

  /** eval_jaxpr_transposed as the source runs it, over two mutable environments. */
  method EvalJaxprTransposed(j: Jaxpr, args: seq<Primal>, cts: seq<Val>) returns (r: Option<seq<Val>>)
    ensures r == Transpose(j, args, cts)
    decreases j
  {
    var primalEnv := WritePrimals(map[], j.binders, args);
    var start := WriteCts(map[], j.outs, Somes(cts));
    if start.None? {
      return None;
    }
    var ctEnv := start.value;
    assert j.eqns[..|j.eqns|] == j.eqns;
    for i := |j.eqns| downto 0
      invariant TransposeEqns(j.eqns[..i], primalEnv, ctEnv) == TransposeEqns(j.eqns, primalEnv, start.value)
    {
      var e := j.eqns[i];
      assert j.eqns[..i + 1] == j.eqns[..i] + [e];
      TransposeEqnsLast(j.eqns[..i], e, primalEnv, ctEnv);
      var primalsIn := ReadPrimals(primalEnv, e.inputs);
      var (ctsIn, popped) := ReadCts(ctEnv, e.outs);
      var ctsOut := TransposeRule(e, ctsIn, primalsIn);
      if ctsOut.None? {
        return None;
      }
      var next := WriteCts(popped, e.inputs, ctsOut.value);
      if next.None? {
        return None;
      }
      ctEnv := next.value;
    }
    if |j.binders| != |args| {
      return None;
    }
    r := Some(ReadCts(ctEnv, UndefBinders(j.binders, args)).0);
  }
}
