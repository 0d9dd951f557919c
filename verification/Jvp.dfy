/** Forward mode. jvp_jaxpr stages the JVP interpreter: it runs a jaxpr on tracers that carry a
    primal and a tangent and records the operations that the JVP rules perform. It is cached: for the
    same Jaxpr object it returns the same staged jaxpr, with the same variables. */
module Jvp {
  import opened Wrappers
  import opened Jaxprs
  import opened PartialEvaluation

  /** A value inside the JVP interpreter: a JVPTracer, or a value that has not met one yet. */
  datatype Tr = Dual(primal: Atom, tangent: Atom) | Plain(x: Atom)

  type TrEnv = map<Var, Tr>

  /** The names of the variables that are made: `first(j)` is what jvp_jaxpr starts from for the
      object `j`, and is a function of the object because jvp_jaxpr is cached. Older variables have
      names below `below`; `next` is the first name that is not used by all this. */
  datatype Naming = Naming(first: Jaxpr -> nat, below: nat, next: nat)

  datatype Emitted = Emitted(eqns: seq<Eqn>, outs: seq<Tr>, next: nat)

  datatype Traced = Traced(eqns: seq<Eqn>, env: TrEnv, next: nat)

  datatype Jvped = Jvped(jaxpr: Jaxpr, next: nat)

  /** pure and lift: a plain value becomes a tracer with a zero tangent. */
  function Primal(t: Tr): Atom {
    if t.Dual? then t.primal else t.x
  }

  function Tangent(t: Tr): Atom {
    if t.Dual? then t.tangent else Lit(Zero(AtomTy(t.x)))
  }

  function Primals(ts: seq<Tr>): (r: seq<Atom>)
    ensures |r| == |ts| && forall i :: 0 <= i < |ts| ==> r[i] == Primal(ts[i])
  {
    seq(|ts|, i requires 0 <= i < |ts| => Primal(ts[i]))
  }

  function Tangents(ts: seq<Tr>): (r: seq<Atom>)
    ensures |r| == |ts| && forall i :: 0 <= i < |ts| ==> r[i] == Tangent(ts[i])
  {
    seq(|ts|, i requires 0 <= i < |ts| => Tangent(ts[i]))
  }

  function ReadTr(env: TrEnv, x: Atom): Tr
    requires Bound(env.Keys, x)
  {
    if x.V? then env[x.v] else Plain(x)
  }

  function ReadTrs(env: TrEnv, xs: seq<Atom>): (r: seq<Tr>)
    requires AllBound(env.Keys, xs)
    ensures |r| == |xs| && forall i :: 0 <= i < |xs| ==> r[i] == ReadTr(env, xs[i])
  {
    seq(|xs|, i requires 0 <= i < |xs| => ReadTr(env, xs[i]))
  }

  function WriteTrs(env: TrEnv, vs: seq<Var>, ts: seq<Tr>): Option<TrEnv>
    decreases vs
  {
    if vs == [] || ts == [] then Some(env)
    else if vs[0] in env then None
    else WriteTrs(env[vs[0] := ts[0]], vs[1..], ts[1..])
  }

  function Duals(ps: seq<Var>, ts: seq<Var>): (r: seq<Tr>)
    requires |ps| == |ts|
    ensures |r| == |ps| && forall i :: 0 <= i < |ps| ==> r[i] == Dual(V(ps[i]), V(ts[i]))
  {
    seq(|ps|, i requires 0 <= i < |ps| => Dual(V(ps[i]), V(ts[i])))
  }

  function Plains(vs: seq<Var>): (r: seq<Tr>)
    ensures |r| == |vs| && forall i :: 0 <= i < |vs| ==> r[i] == Plain(V(vs[i]))
  {
    seq(|vs|, i requires 0 <= i < |vs| => Plain(V(vs[i])))
  }

  /** One recorded scalar operation. */
  function Op(p: Prim, inputs: seq<Atom>, out: Var): Eqn {
    PrimEqn(p, inputs, [out])
  }

  /** The JVP rules of the primitives, in the order in which they perform their operations. */
  function JvpPrim(p: Prim, ins: seq<Tr>, next: nat): Option<Emitted> {
    var n := |ins|;
    var z, a, b, c := Var(next, Float), Var(next + 1, Float), Var(next + 2, Float), Var(next + 3, Float);
    if n == 2 then
      var x, y, xd, yd := Primal(ins[0]), Primal(ins[1]), Tangent(ins[0]), Tangent(ins[1]);
      match p
      case Add =>
        Some(Emitted([Op(Add, [x, y], z), Op(Add, [xd, yd], a)], [Dual(V(z), V(a))], next + 2))
      case Mul =>
        Some(Emitted([Op(Mul, [x, y], z), Op(Mul, [xd, y], a), Op(Mul, [x, yd], b), Op(Add, [V(a), V(b)], c)],
                     [Dual(V(z), V(c))], next + 4))
      case Greater | Less =>
        var r := Var(next, Bool);
        Some(Emitted([Op(p, [x, y], r)], [Dual(V(r), Lit(Zero(Bool)))], next + 1))
      case Neg | Sin | Cos => None
    else if n == 1 then
      var x, xd := Primal(ins[0]), Tangent(ins[0]);
      match p
      case Neg =>
        Some(Emitted([Op(Neg, [x], z), Op(Neg, [xd], a)], [Dual(V(z), V(a))], next + 2))
      case Sin =>
        Some(Emitted([Op(Sin, [x], z), Op(Cos, [x], a), Op(Mul, [V(a), xd], b)], [Dual(V(z), V(b))], next + 3))
      case Cos =>
        Some(Emitted([Op(Cos, [x], z), Op(Sin, [x], a), Op(Neg, [V(a)], b), Op(Mul, [V(b), xd], c)],
                     [Dual(V(z), V(c))], next + 4))
      case Add | Mul | Greater | Less => None
    else None
  }

  /** The jvp rules of calls and conditionals: the transformed bodies take the primals and the
      tangents, and return both. */
  function JvpRule(names: Naming, e: Eqn, ins: seq<Tr>, next: nat): Option<Emitted>
    decreases e, 0
  {
    match e
    case PrimEqn(p, _, _) => JvpPrim(p, ins, next)
    case CallEqn(body, _, _) =>
      var j :- JvpJaxpr(names, body);
      var ty :- Typecheck(j.jaxpr);
      var outs := FreshVars(ty.outTypes, next);
      var k := |outs| / 2;
      if |outs| % 2 != 0 then None
      else
        Some(Emitted([CallEqn(j.jaxpr, Primals(ins) + Tangents(ins), outs)],
                     Duals(outs[..k], outs[k..]), next + |outs|))
    case CondEqn(onTrue, onFalse, _, _) =>
      if |ins| == 0 then None
      else
        var t :- JvpJaxpr(names, onTrue);
        var f :- JvpJaxpr(names, onFalse);
        var ty :- Typecheck(t.jaxpr);
        var outs := FreshVars(ty.outTypes, next);
        var k := |outs| / 2;
        if |outs| % 2 != 0 || Typecheck(f.jaxpr) != Some(ty) then None
        else
          Some(Emitted([CondEqn(t.jaxpr, f.jaxpr, [Primal(ins[0])] + (Primals(ins[1..]) + Tangents(ins[1..])), outs)],
                       Duals(outs[..k], outs[k..]), next + |outs|))
  }

  /** bind under the JVP interpreter: an operation that meets no tracer is recorded as it is. */
  function JvpEqn(names: Naming, e: Eqn, ins: seq<Tr>, next: nat): Option<Emitted>
    decreases e, 1
  {
    if forall t :: t in ins ==> t.Plain? then
      var tys :- AbstractEval(e, AtomTys(Primals(ins)));
      var outs := FreshVars(tys, next);
      var eqn := match e
        case PrimEqn(p, _, _) => PrimEqn(p, Primals(ins), outs)
        case CallEqn(body, _, _) => CallEqn(body, Primals(ins), outs)
        case CondEqn(t, f, _, _) => CondEqn(t, f, Primals(ins), outs);
      Some(Emitted([eqn], Plains(outs), next + |outs|))
    else JvpRule(names, e, ins, next)
  }

  function JvpEqns(names: Naming, eqns: seq<Eqn>, env: TrEnv, next: nat): Option<Traced>
    decreases eqns, 0
  {
    if eqns == [] then Some(Traced([], env, next))
    else if !AllBound(env.Keys, eqns[0].inputs) then None
    else
      var r :- JvpEqn(names, eqns[0], ReadTrs(env, eqns[0].inputs), next);
      var env1 :- WriteTrs(env, eqns[0].outs, r.outs);
      var rest :- JvpEqns(names, eqns[1..], env1, r.next);
      Some(Traced(r.eqns + rest.eqns, rest.env, rest.next))
  }

  /** jvp_jaxpr: binders for the primals and for the tangents, outputs likewise; the builder's
      type check is the last step. */
  function JvpJaxpr(names: Naming, j: Jaxpr): Option<Jvped>
    decreases j, 2
  {
    var n, next := |j.binders|, names.first(j);
    var ps := FreshVars(Avals(j.binders), next);
    var ts := FreshVars(Avals(j.binders), next + n);
    var env :- WriteTrs(map[], j.binders, Duals(ps, ts));
    var r :- JvpEqns(names, j.eqns, env, next + 2 * n);
    if !AllBound(r.env.Keys, j.outs) then None
    else
      var outs := ReadTrs(r.env, j.outs);
      var jaxpr := Jaxpr(ps + ts, r.eqns, Primals(outs) + Tangents(outs));
      var _ :- Typecheck(jaxpr);
      Some(Jvped(jaxpr, r.next))
  }

  // ---------- the reference: dual numbers ----------

  /** A dual number: a value and its directional derivative. */
  datatype DVal = D(v: Val, dv: Val)

  type DEnv = map<Var, DVal>

  /** The partial derivatives of the differentiable primitives. */
  function Partials(m: Math, p: Prim, xs: seq<real>): seq<real> {
    match p
    case Add => [1.0, 1.0]
    case Mul => if |xs| == 2 then [xs[1], xs[0]] else []
    case Neg => [-1.0]
    case Sin => if |xs| == 1 then [m.cos(xs[0])] else []
    case Cos => if |xs| == 1 then [-m.sin(xs[0])] else []
    case Greater | Less => []
  }

  function Vals(ds: seq<DVal>): (r: seq<Val>)
    ensures |r| == |ds| && forall i :: 0 <= i < |ds| ==> r[i] == ds[i].v
  {
    seq(|ds|, i requires 0 <= i < |ds| => ds[i].v)
  }

  function Derivs(ds: seq<DVal>): (r: seq<Val>)
    ensures |r| == |ds| && forall i :: 0 <= i < |ds| ==> r[i] == ds[i].dv
  {
    seq(|ds|, i requires 0 <= i < |ds| => ds[i].dv)
  }

  function Reals(vs: seq<Val>): (r: seq<real>)
    ensures |r| == |vs| && forall i :: 0 <= i < |vs| ==> r[i] == AsReal(vs[i])
  {
    seq(|vs|, i requires 0 <= i < |vs| => AsReal(vs[i]))
  }

  /** The total derivative: the sum of the partial derivatives times the derivatives of the
      arguments. */
  function Chain(ps: seq<real>, dxs: seq<real>): real {
    if ps == [] || dxs == [] then 0.0 else ps[0] * dxs[0] + Chain(ps[1..], dxs[1..])
  }

  function DualPrim(m: Math, p: Prim, ins: seq<DVal>): Option<seq<DVal>> {
    var zs :- ImplPrim(m, p, Vals(ins));
    var dz := if p.Greater? || p.Less? then B(false)
              else R(Chain(Partials(m, p, Reals(Vals(ins))), Reals(Derivs(ins))));
    Some([D(zs[0], dz)])
  }

  function GetD(env: DEnv, x: Atom): DVal
    requires Bound(env.Keys, x)
  {
    if x.V? then env[x.v] else D(x.val, Zero(TypeOf(x.val)))
  }

  function GetDs(env: DEnv, xs: seq<Atom>): (r: seq<DVal>)
    requires AllBound(env.Keys, xs)
    ensures |r| == |xs| && forall i :: 0 <= i < |xs| ==> r[i] == GetD(env, xs[i])
  {
    seq(|xs|, i requires 0 <= i < |xs| => GetD(env, xs[i]))
  }

  function WriteDs(env: DEnv, vs: seq<Var>, ds: seq<DVal>): Option<DEnv>
    decreases vs
  {
    if vs == [] || ds == [] then Some(env)
    else if vs[0] in env then None
    else WriteDs(env[vs[0] := ds[0]], vs[1..], ds[1..])
  }

  function DualBind(m: Math, e: Eqn, ins: seq<DVal>): Option<seq<DVal>>
    decreases e, 0
  {
    match e
    case PrimEqn(p, _, _) => DualPrim(m, p, ins)
    case CallEqn(body, _, _) => EvalDual(m, body, ins)
    case CondEqn(onTrue, onFalse, _, _) =>
      if |ins| == 0 then None
      else if Truthy(ins[0].v) then EvalDual(m, onTrue, ins[1..])
      else EvalDual(m, onFalse, ins[1..])
  }

  function EvalDualEqns(m: Math, eqns: seq<Eqn>, env: DEnv): Option<DEnv>
    decreases eqns, 0
  {
    if eqns == [] then Some(env)
    else if !AllBound(env.Keys, eqns[0].inputs) then None
    else
      var outs :- DualBind(m, eqns[0], GetDs(env, eqns[0].inputs));
      var env1 :- WriteDs(env, eqns[0].outs, outs);
      EvalDualEqns(m, eqns[1..], env1)
  }

  /** Evaluation on dual numbers: the meaning of forward mode. */
  function EvalDual(m: Math, j: Jaxpr, args: seq<DVal>): Option<seq<DVal>>
    decreases j, 1
  {
    var env0 :- WriteDs(map[], j.binders, args);
    var env :- EvalDualEqns(m, j.eqns, env0);
    if AllBound(env.Keys, j.outs) then Some(GetDs(env, j.outs)) else None
  }
}
