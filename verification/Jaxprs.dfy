/** The intermediate representation of docs/autodidax.py: jaxprs in A-normal form, their
    type checker and their evaluator. Values are scalars: a float64[] or a bool[]. */
module Jaxprs {
  import opened Wrappers
  import opened Lists

  /** float64[] and bool[], the two scalar ShapedArrays. */
  datatype Ty = Float | Bool

  datatype Val = R(r: real) | B(b: bool)

  function TypeOf(v: Val): Ty {
    if v.R? then Float else Bool
  }

  /** zeros_like / np.zeros of a type. */
  function Zero(t: Ty): Val {
    if t.Float? then R(0.0) else B(false)
  }

  /** A Var is compared by identity and carries its type. */
  datatype Var = Var(id: nat, aval: Ty)

  datatype Atom = V(v: Var) | Lit(val: Val)

  datatype Prim = Add | Mul | Neg | Sin | Cos | Greater | Less

  datatype Eqn =
    | PrimEqn(prim: Prim, inputs: seq<Atom>, outs: seq<Var>)
    | CallEqn(body: Jaxpr, inputs: seq<Atom>, outs: seq<Var>)
    | CondEqn(onTrue: Jaxpr, onFalse: Jaxpr, inputs: seq<Atom>, outs: seq<Var>)

  /** A Jaxpr is compared and hashed by identity; `id` tells apart objects with equal contents. */
  datatype Jaxpr = Jaxpr(binders: seq<Var>, eqns: seq<Eqn>, outs: seq<Atom>, id: nat := 0)

  datatype JaxprType = JaxprType(inTypes: seq<Ty>, outTypes: seq<Ty>)

  /** What the backend computes for sin and cos: any two functions. */
  datatype Math = Math(sin: real -> real, cos: real -> real)

  function TypesOf(vs: seq<Val>): (r: seq<Ty>)
    ensures |r| == |vs| && forall i :: 0 <= i < |vs| ==> r[i] == TypeOf(vs[i])
  {
    seq(|vs|, i requires 0 <= i < |vs| => TypeOf(vs[i]))
  }

  function Avals(vs: seq<Var>): (r: seq<Ty>)
    ensures |r| == |vs| && forall i :: 0 <= i < |vs| ==> r[i] == vs[i].aval
  {
    seq(|vs|, i requires 0 <= i < |vs| => vs[i].aval)
  }

  function AtomTy(x: Atom): Ty {
    if x.V? then x.v.aval else TypeOf(x.val)
  }

  function AtomTys(xs: seq<Atom>): (r: seq<Ty>)
    ensures |r| == |xs| && forall i :: 0 <= i < |xs| ==> r[i] == AtomTy(xs[i])
  {
    seq(|xs|, i requires 0 <= i < |xs| => AtomTy(xs[i]))
  }

  function Atoms(vs: seq<Var>): (r: seq<Atom>)
    ensures |r| == |vs| && forall i :: 0 <= i < |vs| ==> r[i] == V(vs[i])
  {
    seq(|vs|, i requires 0 <= i < |vs| => V(vs[i]))
  }

  function Zeros(ts: seq<Ty>): (r: seq<Val>)
    ensures |r| == |ts| && forall i :: 0 <= i < |ts| ==> r[i] == Zero(ts[i])
  {
    seq(|ts|, i requires 0 <= i < |ts| => Zero(ts[i]))
  }

  function Lits(vs: seq<Val>): (r: seq<Atom>)
    ensures |r| == |vs| && forall i :: 0 <= i < |vs| ==> r[i] == Lit(vs[i])
  {
    seq(|vs|, i requires 0 <= i < |vs| => Lit(vs[i]))
  }

  // ---------- typecheck_jaxpr ----------

  predicate Bound(env: set<Var>, x: Atom) {
    x.V? ==> x.v in env
  }

  predicate AllBound(env: set<Var>, xs: seq<Atom>) {
    forall x :: x in xs ==> Bound(env, x)
  }

  function TypecheckAtoms(env: set<Var>, xs: seq<Atom>): Option<seq<Ty>> {
    if AllBound(env, xs) then Some(AtomTys(xs)) else None
  }

  /** Adds binders one by one; a variable that is already bound is a TypeError. */
  function BindVars(env: set<Var>, vs: seq<Var>): (r: Option<set<Var>>)
    ensures r.Some? <==> Distinct(vs) && forall v :: v in vs ==> v !in env
    ensures r.Some? ==> r.value == env + ToSet(vs)
    decreases vs
  {
    if vs == [] then Some(env)
    else if vs[0] in env then None
    else
      var r := BindVars(env + {vs[0]}, vs[1..]);
      assert vs == [vs[0]] + vs[1..];
      assert r.None? && Distinct(vs[1..]) ==> exists v :: v in vs[1..] && v in env + {vs[0]};
      r
  }

  function AbstractEvalPrim(p: Prim, tys: seq<Ty>): Option<seq<Ty>> {
    match p
    case Add | Mul =>
      if tys == [Float, Float] then Some([Float]) else None
    case Neg | Sin | Cos =>
      if tys == [Float] then Some([Float]) else None
    case Greater | Less =>
      if |tys| == 2 then Some([Bool]) else None
  }

  function AbstractEval(e: Eqn, tys: seq<Ty>): Option<seq<Ty>>
    decreases e, 0
  {
    match e
    case PrimEqn(p, _, _) => AbstractEvalPrim(p, tys)
    case CallEqn(body, _, _) =>
      var ty :- Typecheck(body);
      if ty.inTypes == tys then Some(ty.outTypes) else None
    case CondEqn(onTrue, onFalse, _, _) =>
      if |tys| == 0 || tys[0] != Bool then None
      else
        var ty :- Typecheck(onTrue);
        if Typecheck(onFalse) == Some(ty) && ty.inTypes == tys[1..] then Some(ty.outTypes) else None
  }

  function TypecheckEqn(env: set<Var>, e: Eqn): Option<set<Var>>
    decreases e, 1
  {
    var inTys :- TypecheckAtoms(env, e.inputs);
    var outTys :- AbstractEval(e, inTys);
    if outTys != Avals(e.outs) then None else BindVars(env, e.outs)
  }

  function TypecheckEqns(env: set<Var>, eqns: seq<Eqn>): Option<set<Var>>
    decreases eqns, 0
  {
    if eqns == [] then Some(env)
    else
      var env1 :- TypecheckEqn(env, eqns[0]);
      TypecheckEqns(env1, eqns[1..])
  }

  function Typecheck(j: Jaxpr): Option<JaxprType>
    decreases j, 0
  {
    var env0 :- BindVars({}, j.binders);
    var env :- TypecheckEqns(env0, j.eqns);
    var outTys :- TypecheckAtoms(env, j.outs);
    Some(JaxprType(Avals(j.binders), outTys))
  }

  // ---------- eval_jaxpr ----------

  type Env = map<Var, Val>

  function Get(env: Env, x: Atom): Val
    requires Bound(env.Keys, x)
  {
    if x.V? then env[x.v] else x.val
  }

  function Gets(env: Env, xs: seq<Atom>): (r: seq<Val>)
    requires AllBound(env.Keys, xs)
    ensures |r| == |xs| && forall i :: 0 <= i < |xs| ==> r[i] == Get(env, xs[i])
  {
    seq(|xs|, i requires 0 <= i < |xs| => Get(env, xs[i]))
  }

  /** map(read, xs): a variable without a value is a KeyError. */
  function ReadAll(env: Env, xs: seq<Atom>): Option<seq<Val>> {
    if AllBound(env.Keys, xs) then Some(Gets(env, xs)) else None
  }

  /** map(write, vs, vals): stops at the end of the shorter list, asserts single assignment. */
  function Write(env: Env, vs: seq<Var>, vals: seq<Val>): Option<Env>
    decreases vs
  {
    if vs == [] || vals == [] then Some(env)
    else if vs[0] in env then None
    else Write(env[vs[0] := vals[0]], vs[1..], vals[1..])
  }

  /** np.add and np.multiply: a disjunction and a conjunction on booleans. */
  function AddVals(x: Val, y: Val): Option<Val> {
    if x.R? && y.R? then Some(R(x.r + y.r))
    else if x.B? && y.B? then Some(B(x.b || y.b))
    else None
  }

  function MulVals(x: Val, y: Val): Option<Val> {
    if x.R? && y.R? then Some(R(x.r * y.r))
    else if x.B? && y.B? then Some(B(x.b && y.b))
    else None
  }

  function AsReal(v: Val): real {
    match v
    case R(r) => r
    case B(b) => if b then 1.0 else 0.0
  }

  predicate Truthy(v: Val) {
    AsReal(v) != 0.0
  }

  function ImplPrim(m: Math, p: Prim, vals: seq<Val>): Option<seq<Val>> {
    match p
    case Add =>
      if |vals| == 2 then var r :- AddVals(vals[0], vals[1]); Some([r]) else None
    case Mul =>
      if |vals| == 2 then var r :- MulVals(vals[0], vals[1]); Some([r]) else None
    case Neg =>
      if |vals| == 1 && vals[0].R? then Some([R(-vals[0].r)]) else None
    case Sin =>
      if |vals| == 1 && vals[0].R? then Some([R(m.sin(vals[0].r))]) else None
    case Cos =>
      if |vals| == 1 && vals[0].R? then Some([R(m.cos(vals[0].r))]) else None
    case Greater =>
      if |vals| == 2 then Some([B(AsReal(vals[0]) > AsReal(vals[1]))]) else None
    case Less =>
      if |vals| == 2 then Some([B(AsReal(vals[0]) < AsReal(vals[1]))]) else None
  }

  /** bind at the bottom of the interpreter stack; a call means evaluating its body. */
  function Bind(m: Math, e: Eqn, vals: seq<Val>): Option<seq<Val>>
    decreases e, 0
  {
    match e
    case PrimEqn(p, _, _) => ImplPrim(m, p, vals)
    case CallEqn(body, _, _) => Eval(m, body, vals)
    case CondEqn(onTrue, onFalse, _, _) =>
      if |vals| == 0 then None
      else if Truthy(vals[0]) then Eval(m, onTrue, vals[1..])
      else Eval(m, onFalse, vals[1..])
  }

  function EvalEqns(m: Math, eqns: seq<Eqn>, env: Env): Option<Env>
    decreases eqns, 0
  {
    if eqns == [] then Some(env)
    else
      var vals :- ReadAll(env, eqns[0].inputs);
      var outs :- Bind(m, eqns[0], vals);
      var env1 :- Write(env, eqns[0].outs, outs);
      EvalEqns(m, eqns[1..], env1)
  }

  function FinalEnv(m: Math, j: Jaxpr, args: seq<Val>): Option<Env>
    decreases j, 0
  {
    var env :- Write(map[], j.binders, args);
    EvalEqns(m, j.eqns, env)
  }

  function Eval(m: Math, j: Jaxpr, args: seq<Val>): Option<seq<Val>>
    decreases j, 1
  {
    var env :- FinalEnv(m, j, args);
    ReadAll(env, j.outs)
  }

  /** eval_jaxpr as the source runs it, over a mutable environment. */
  method EvalJaxpr(m: Math, j: Jaxpr, args: seq<Val>) returns (r: Option<seq<Val>>)
    ensures r == Eval(m, j, args)
    decreases j
  {
    var start := Write(map[], j.binders, args);
    if start.None? {
      return None;
    }
    var env := start.value;
    for i := 0 to |j.eqns|
      invariant EvalEqns(m, j.eqns[i..], env) == FinalEnv(m, j, args)
    {
      var e := j.eqns[i];
      assert j.eqns[i..][1..] == j.eqns[i + 1..];
      var vals := ReadAll(env, e.inputs);
      if vals.None? {
        return None;
      }
      var outs;
      match e {
        case PrimEqn(p, _, _) =>
          outs := ImplPrim(m, p, vals.value);
        case CallEqn(body, _, _) =>
          outs := EvalJaxpr(m, body, vals.value);
        case CondEqn(onTrue, onFalse, _, _) =>
          if |vals.value| == 0 {
            return None;
          }
          if Truthy(vals.value[0]) {
            outs := EvalJaxpr(m, onTrue, vals.value[1..]);
          } else {
            outs := EvalJaxpr(m, onFalse, vals.value[1..]);
          }
      }
      if outs.None? {
        return None;
      }
      var next := Write(env, e.outs, outs.value);
      if next.None? {
        return None;
      }
      env := next.value;
    }
    r := ReadAll(env, j.outs);
  }
}
