/** Why the transposition of a linearized program cannot fail: a staged JVP uses its tangents
    linearly, and partial evaluation keeps that. */
module Linearity {
  import opened Wrappers
  import opened Lists
  import opened Jaxprs
  import opened PartialEvaluation
  import opened PartialEvalProof
  import opened Residuals
  import opened Jvp
  import opened JvpTyping

  /** An equation that meets an unknown operand is add, neg, or mul by something known. */
  predicate LinearEqn(e: Eqn, flags: seq<bool>)
    decreases e, 0
  {
    match e
    case PrimEqn(p, _, _) =>
      true in flags ==>
        (match p
         case Add | Neg => true
         case Mul => |flags| == 2 && flags[0] != flags[1]
         case Sin | Cos | Greater | Less => false)
    case CallEqn(body, _, _) => LinearIn(body, flags)
    case CondEqn(onTrue, onFalse, _, _) =>
      |flags| > 0 && !flags[0] && LinearIn(onTrue, flags[1..]) && LinearIn(onFalse, flags[1..])
  }

  predicate LinearEqns(eqns: seq<Eqn>, env: Unknowns)
    decreases eqns, 0
  {
    if eqns == [] then true
    else
      var flags := Flags(env, eqns[0].inputs);
      LinearEqn(eqns[0], flags) && LinearEqns(eqns[1..], WriteUnks(env, FlowEqn(eqns[0], flags), eqns[0].outs))
  }

  /** The jaxpr treats its unknown inputs linearly. */
  predicate LinearIn(j: Jaxpr, unks: seq<bool>)
    decreases j, 1
  {
    LinearEqns(j.eqns, WriteUnks(map[], unks, j.binders))
  }

  lemma {:induction false} LinearKnownPreds(j: Jaxpr, unks: seq<bool>)
    requires LinearIn(j, unks)
    ensures KnownPreds(j, unks)
    decreases j, 1
  {
    LinearEqnsKnownPreds(j.eqns, WriteUnks(map[], unks, j.binders));
  }

  lemma {:induction false} LinearEqnsKnownPreds(eqns: seq<Eqn>, env: Unknowns)
    requires LinearEqns(eqns, env)
    ensures KnownPredsEqns(eqns, env)
    decreases eqns, 0
  {
    if eqns != [] {
      var flags := Flags(env, eqns[0].inputs);
      match eqns[0] {
        case PrimEqn(_, _, _) =>
        case CallEqn(body, _, _) => LinearKnownPreds(body, flags);
        case CondEqn(onTrue, onFalse, _, _) =>
          LinearKnownPreds(onTrue, flags[1..]);
          LinearKnownPreds(onFalse, flags[1..]);
      }
      LinearEqnsKnownPreds(eqns[1..], WriteUnks(env, FlowEqn(eqns[0], flags), eqns[0].outs));
    }
  }

  // ---------- without unknowns everything is linear ----------

  ghost predicate NoUnknowns(env: Unknowns) {
    forall v :: v in env ==> !env[v]
  }

  lemma {:induction false} WriteKnown(env: Unknowns, unks: seq<bool>, vs: seq<Var>)
    requires NoUnknowns(env) && true !in unks
    ensures NoUnknowns(WriteUnks(env, unks, vs))
    decreases vs
  {
    if unks != [] && vs != [] {
      assert unks[0] in unks;
      WriteKnown(env[vs[0] := unks[0]], unks[1..], vs[1..]);
    }
  }

  lemma {:induction false} AllKnown(j: Jaxpr, unks: seq<bool>)
    requires true !in unks && Typecheck(j).Some? && |unks| == |j.binders|
    ensures LinearIn(j, unks) && true !in Flow(j, unks)
    decreases j, 1
  {
    hide TypecheckEqns;
    WriteKnown(map[], unks, j.binders);
    var bound := TypecheckStart(j);
    AllKnownEqns(j.eqns, WriteUnks(map[], unks, j.binders), bound);
  }

  lemma {:induction false} AllKnownEqns(eqns: seq<Eqn>, env: Unknowns, bound: set<Var>)
    requires NoUnknowns(env) && TypecheckEqns(bound, eqns).Some?
    ensures LinearEqns(eqns, env) && NoUnknowns(FlowEqns(eqns, env))
    decreases eqns, 0
  {
    hide AbstractEval, BindVars;
    if eqns != [] {
      var e := eqns[0];
      var flags := Flags(env, e.inputs);
      AllKnownEqn(e, flags);
      WriteKnown(env, FlowEqn(e, flags), e.outs);
      AllKnownEqns(eqns[1..], WriteUnks(env, FlowEqn(e, flags), e.outs), TypecheckEqn(bound, e).value);
    }
  }

  lemma {:induction false} AllKnownEqn(e: Eqn, flags: seq<bool>)
    requires true !in flags && AbstractEval(e, AtomTys(e.inputs)).Some? && |flags| == |e.inputs|
    ensures LinearEqn(e, flags) && true !in FlowEqn(e, flags)
    decreases e, 0
  {
    match e
    case PrimEqn(_, _, _) =>
    case CallEqn(body, _, _) =>
      TypecheckTypes(body);
      AllKnown(body, flags);
    case CondEqn(onTrue, onFalse, _, _) =>
      assert flags[0] in flags;
      TypecheckTypes(onTrue);
      TypecheckTypes(onFalse);
      AllKnown(onTrue, flags[1..]);
      AllKnown(onFalse, flags[1..]);
  }

  // ---------- a staged JVP is linear in its tangents ----------

  /** The atom does not depend on the tangents. */
  ghost predicate KnownAtom(env: Unknowns, x: Atom, next: nat) {
    x.V? ==> x.v.id < next && !Flag(env, x)
  }

  ghost predicate KnownPrimal(env: Unknowns, t: Tr, next: nat) {
    KnownAtom(env, Primal(t), next) && (Tangent(t).V? ==> Tangent(t).v.id < next)
  }

  ghost predicate KnownPrimals(env: Unknowns, ts: seq<Tr>, next: nat) {
    forall t :: t in ts ==> KnownPrimal(env, t, next)
  }

  ghost predicate KnownPrimalEnv(env: Unknowns, trs: TrEnv, next: nat) {
    forall v :: v in trs ==> KnownPrimal(env, trs[v], next)
  }

  /** `env'` has flags for more variables, all of them younger than `next`. */
  ghost predicate Grows(env: Unknowns, env': Unknowns, next: nat, next': nat) {
    && next <= next'
    && (forall v :: v in env' ==> v.id < next')
    && (forall v: Var :: v.id < next ==> (v in env <==> v in env') && (v in env ==> env'[v] == env[v]))
  }

  /** Recording `eqns` from the flags `env` on leads to the flags `env'`. */
  ghost predicate Linear(env: Unknowns, eqns: seq<Eqn>, env': Unknowns, next: nat, next': nat) {
    && LinearEqns(eqns, env)
    && FlowEqns(eqns, env) == env'
    && Grows(env, env', next, next')
  }

  lemma {:induction false} FlowAppend(env: Unknowns, xs: seq<Eqn>, ys: seq<Eqn>)
    ensures FlowEqns(xs + ys, env) == FlowEqns(ys, FlowEqns(xs, env))
    ensures LinearEqns(xs + ys, env) <==> LinearEqns(xs, env) && LinearEqns(ys, FlowEqns(xs, env))
    decreases xs
  {
    hide FlowEqn, LinearEqn;
    if xs == [] {
      assert xs + ys == ys;
    } else {
      assert (xs + ys)[1..] == xs[1..] + ys;
      FlowAppend(WriteUnks(env, FlowEqn(xs[0], Flags(env, xs[0].inputs)), xs[0].outs), xs[1..], ys);
    }
  }

  lemma LinearAppend(env: Unknowns, xs: seq<Eqn>, env1: Unknowns, ys: seq<Eqn>, env2: Unknowns, n: nat, n1: nat,
                     n2: nat)
    requires Linear(env, xs, env1, n, n1) && Linear(env1, ys, env2, n1, n2)
    ensures Linear(env, xs + ys, env2, n, n2)
  {
    hide FlowEqns, LinearEqns;
    FlowAppend(env, xs, ys);
  }

  lemma LinearStart(env: Unknowns, next: nat)
    requires forall v :: v in env ==> v.id < next
    ensures Linear(env, [], env, next, next)
  {
  }

  lemma LinearOne(env: Unknowns, e: Eqn, next: nat, next': nat)
    requires LinearEqn(e, Flags(env, e.inputs)) && next <= next'
    requires forall v :: v in env ==> v.id < next
    requires forall v :: v in e.outs ==> next <= v.id < next'
    ensures Linear(env, [e], WriteUnks(env, FlowEqn(e, Flags(env, e.inputs)), e.outs), next, next')
  {
    hide FlowEqn, LinearEqn;
    var flags := FlowEqn(e, Flags(env, e.inputs));
    var env' := WriteUnks(env, flags, e.outs);
    assert [e][1..] == [] && FlowEqns([], env') == env' && LinearEqns([], env');
    assert FlowEqns([e], env) == FlowEqns([e][1..], env') && LinearEqns([e], env) == LinearEqns([e][1..], env');
    WriteGrows(env, flags, e.outs, next, next');
  }

  lemma {:induction false} WriteGrows(env: Unknowns, flags: seq<bool>, vs: seq<Var>, next: nat, next': nat)
    requires next <= next' && forall v :: v in env ==> v.id < next'
    requires forall v :: v in vs ==> next <= v.id < next'
    ensures Grows(env, WriteUnks(env, flags, vs), next, next')
    decreases vs
  {
    if flags != [] && vs != [] {
      assert vs[0] in vs;
      WriteGrows(env[vs[0] := flags[0]], flags[1..], vs[1..], next, next');
    }
  }

  /** Recording one scalar operation. */
  lemma Emit(env: Unknowns, eqns: seq<Eqn>, env1: Unknowns, next: nat, n: nat, p: Prim, inputs: seq<Atom>, ty: Ty)
    returns (flag: bool, env2: Unknowns)
    requires Linear(env, eqns, env1, next, n)
    requires LinearEqn(Op(p, inputs, Var(n, ty)), Flags(env1, inputs))
    ensures flag == (true in Flags(env1, inputs)) && env2 == env1[Var(n, ty) := flag]
    ensures Linear(env, eqns + [Op(p, inputs, Var(n, ty))], env2, next, n + 1)
  {
    hide LinearEqns, FlowEqns, LinearEqn;
    var out := Var(n, ty);
    var e := Op(p, inputs, out);
    flag := true in Flags(env1, inputs);
    env2 := env1[out := flag];
    LinearOne(env1, e, n, n + 1);
    assert [out][1..] == [] && Repeat(flag, 1)[0] == flag;
    assert WriteUnks(env1, Repeat(flag, 1), [out]) == env2;
    LinearAppend(env, eqns, env1, [e], env2, next, n, n + 1);
  }

  lemma Flags1(env: Unknowns, x: Atom)
    ensures Flags(env, [x]) == [Flag(env, x)]
    ensures true in Flags(env, [x]) <==> Flag(env, x)
  {
  }

  lemma Flags2(env: Unknowns, x: Atom, y: Atom)
    ensures Flags(env, [x, y]) == [Flag(env, x), Flag(env, y)]
    ensures true in Flags(env, [x, y]) <==> Flag(env, x) || Flag(env, y)
  {
  }

  /** What recording the operations of one equation preserves. */
  ghost predicate StepLinear(env: Unknowns, r: Emitted, next: nat) {
    exists env' :: Linear(env, r.eqns, env', next, r.next) && KnownPrimals(env', r.outs, r.next)
  }

  lemma JvpNegLinear(ins: seq<Tr>, env: Unknowns, next: nat)
    requires |ins| == 1 && KnownPrimals(env, ins, next) && (forall v :: v in env ==> v.id < next)
    ensures StepLinear(env, JvpPrim(Neg, ins, next).value, next)
  {
    hide Linear;
    assert ins[0] in ins;
    var x, xd := Primal(ins[0]), Tangent(ins[0]);
    LinearStart(env, next);
    Flags1(env, x);
    var f1, e1 := Emit(env, [], env, next, next, Neg, [x], Float);
    Flags1(e1, xd);
    var f2, e2 := Emit(env, [] + [Op(Neg, [x], Var(next, Float))], e1, next, next + 1, Neg, [xd], Float);
    var r := JvpPrim(Neg, ins, next).value;
    assert r.eqns == [] + [r.eqns[0]] + [r.eqns[1]];
  }

  lemma JvpSinLinear(ins: seq<Tr>, env: Unknowns, next: nat)
    requires |ins| == 1 && KnownPrimals(env, ins, next) && (forall v :: v in env ==> v.id < next)
    ensures StepLinear(env, JvpPrim(Sin, ins, next).value, next)
  {
    hide Linear;
    assert ins[0] in ins;
    var x, xd := Primal(ins[0]), Tangent(ins[0]);
    var r := JvpPrim(Sin, ins, next).value;
    var q := r.eqns;
    var a := Var(next + 1, Float);
    LinearStart(env, next);
    Flags1(env, x);
    var f1, e1 := Emit(env, [], env, next, next, Sin, [x], Float);
    Flags1(e1, x);
    var f2, e2 := Emit(env, [] + [q[0]], e1, next, next + 1, Cos, [x], Float);
    Flags2(e2, V(a), xd);
    var f3, e3 := Emit(env, [] + [q[0]] + [q[1]], e2, next, next + 2, Mul, [V(a), xd], Float);
    assert q == [] + [q[0]] + [q[1]] + [q[2]];
  }

  lemma JvpCosLinear(ins: seq<Tr>, env: Unknowns, next: nat)
    requires |ins| == 1 && KnownPrimals(env, ins, next) && (forall v :: v in env ==> v.id < next)
    ensures StepLinear(env, JvpPrim(Cos, ins, next).value, next)
  {
    hide Linear;
    assert ins[0] in ins;
    var x, xd := Primal(ins[0]), Tangent(ins[0]);
    var r := JvpPrim(Cos, ins, next).value;
    var q := r.eqns;
    var a, b := Var(next + 1, Float), Var(next + 2, Float);
    LinearStart(env, next);
    Flags1(env, x);
    var f1, e1 := Emit(env, [], env, next, next, Cos, [x], Float);
    Flags1(e1, x);
    var f2, e2 := Emit(env, [] + [q[0]], e1, next, next + 1, Sin, [x], Float);
    Flags1(e2, V(a));
    var f3, e3 := Emit(env, [] + [q[0]] + [q[1]], e2, next, next + 2, Neg, [V(a)], Float);
    Flags2(e3, V(b), xd);
    var f4, e4 := Emit(env, [] + [q[0]] + [q[1]] + [q[2]], e3, next, next + 3, Mul, [V(b), xd], Float);
    assert q == [] + [q[0]] + [q[1]] + [q[2]] + [q[3]];
  }

  lemma JvpAddLinear(ins: seq<Tr>, env: Unknowns, next: nat)
    requires |ins| == 2 && KnownPrimals(env, ins, next) && (forall v :: v in env ==> v.id < next)
    ensures StepLinear(env, JvpPrim(Add, ins, next).value, next)
  {
    hide Linear;
    assert ins[0] in ins && ins[1] in ins;
    var x, y, xd, yd := Primal(ins[0]), Primal(ins[1]), Tangent(ins[0]), Tangent(ins[1]);
    var q := JvpPrim(Add, ins, next).value.eqns;
    LinearStart(env, next);
    Flags2(env, x, y);
    var f1, e1 := Emit(env, [], env, next, next, Add, [x, y], Float);
    Flags2(e1, xd, yd);
    var f2, e2 := Emit(env, [] + [q[0]], e1, next, next + 1, Add, [xd, yd], Float);
    assert q == [] + [q[0]] + [q[1]];
  }

  lemma JvpMulLinear(ins: seq<Tr>, env: Unknowns, next: nat)
    requires |ins| == 2 && KnownPrimals(env, ins, next) && (forall v :: v in env ==> v.id < next)
    ensures StepLinear(env, JvpPrim(Mul, ins, next).value, next)
  {
    hide Linear;
    assert ins[0] in ins && ins[1] in ins;
    var x, y, xd, yd := Primal(ins[0]), Primal(ins[1]), Tangent(ins[0]), Tangent(ins[1]);
    var a, b := Var(next + 1, Float), Var(next + 2, Float);
    var q := JvpPrim(Mul, ins, next).value.eqns;
    LinearStart(env, next);
    Flags2(env, x, y);
    var f1, e1 := Emit(env, [], env, next, next, Mul, [x, y], Float);
    Flags2(e1, xd, y);
    var f2, e2 := Emit(env, [] + [q[0]], e1, next, next + 1, Mul, [xd, y], Float);
    Flags2(e2, x, yd);
    var f3, e3 := Emit(env, [] + [q[0]] + [q[1]], e2, next, next + 2, Mul, [x, yd], Float);
    Flags2(e3, V(a), V(b));
    var f4, e4 := Emit(env, [] + [q[0]] + [q[1]] + [q[2]], e3, next, next + 3, Add, [V(a), V(b)], Float);
    assert q == [] + [q[0]] + [q[1]] + [q[2]] + [q[3]];
  }

  lemma JvpCompareLinear(p: Prim, ins: seq<Tr>, env: Unknowns, next: nat)
    requires |ins| == 2 && KnownPrimals(env, ins, next) && (forall v :: v in env ==> v.id < next)
    requires p.Greater? || p.Less?
    ensures StepLinear(env, JvpPrim(p, ins, next).value, next)
  {
    hide Linear;
    assert ins[0] in ins && ins[1] in ins;
    var x, y := Primal(ins[0]), Primal(ins[1]);
    var q := JvpPrim(p, ins, next).value.eqns;
    LinearStart(env, next);
    Flags2(env, x, y);
    var f1, e1 := Emit(env, [], env, next, next, p, [x, y], Bool);
    assert q == [] + [q[0]];
  }

  lemma KnownAtoms(env: Unknowns, ins: seq<Tr>, next: nat)
    requires KnownPrimals(env, ins, next)
    ensures Flags(env, Primals(ins)) == Repeat(false, |ins|)
    ensures Flags(env, Primals(ins) + Tangents(ins)) == Repeat(false, |ins|) + Flags(env, Tangents(ins))
  {
    forall i | 0 <= i < |ins| ensures !Flag(env, Primals(ins)[i]) {
      assert ins[i] in ins;
    }
  }

  lemma SameAbstractEval(e: Eqn, e': Eqn, tys: seq<Ty>)
    requires match e
             case PrimEqn(p, _, _) => e'.PrimEqn? && e'.prim == p
             case CallEqn(body, _, _) => e'.CallEqn? && e'.body == body
             case CondEqn(t, f, _, _) => e'.CondEqn? && e'.onTrue == t && e'.onFalse == f
    ensures AbstractEval(e, tys) == AbstractEval(e', tys)
  {
  }

  /** An operation that meets no tracer is recorded with known operands. */
  lemma PlainLinear(names: Naming, e: Eqn, ins: seq<Tr>, env: Unknowns, next: nat)
    requires KnownPrimals(env, ins, next) && (forall v :: v in env ==> v.id < next)
    requires AbstractEval(e, AtomTys(Primals(ins))).Some? && forall t :: t in ins ==> t.Plain?
    ensures JvpEqn(names, e, ins, next).Some? && StepLinear(env, JvpEqn(names, e, ins, next).value, next)
  {
    hide AbstractEval, LinearEqn, FlowEqn, FlowEqns, LinearEqns;
    var r := JvpEqn(names, e, ins, next).value;
    var q := r.eqns[0];
    var tys := AbstractEval(e, AtomTys(Primals(ins))).value;
    SameAbstractEval(e, q, AtomTys(Primals(ins)));
    var flags := Flags(env, q.inputs);
    KnownAtoms(env, ins, next);
    assert q.inputs == Primals(ins) && q.outs == FreshVars(tys, next) && r.next == next + |tys|;
    FreshDistinct(tys, next);
    AllKnownEqn(q, flags);
    LinearOne(env, q, next, r.next);
    FlowLength(q, flags);
    PlainsKnown(env, FlowEqn(q, flags), q.outs, next, r.next);
  }

  lemma PlainsKnown(env: Unknowns, flow: seq<bool>, outs: seq<Var>, n: nat, next: nat)
    requires |outs| == |flow| && Distinct(outs) && true !in flow && forall v :: v in env ==> v.id < n
    requires forall v :: v in outs ==> n <= v.id < next
    ensures KnownPrimals(WriteUnks(env, flow, outs), Plains(outs), next)
  {
    hide WriteUnks;
    WriteUnksExact(env, flow, outs);
    var env' := WriteUnks(env, flow, outs);
    var ts := Plains(outs);
    forall t | t in ts ensures KnownPrimal(env', t, next) {
      var i :| 0 <= i < |ts| && ts[i] == t;
      assert env'[outs[i]] == flow[i] && flow[i] in flow;
      assert outs[i] in outs;
    }
  }

  /** New outputs of a call or conditional: the first half, the primals, is known. */
  lemma HigherOrderLinear(e: Eqn, env: Unknowns, tys: seq<Ty>, k: nat, n: nat, next: nat, r: Emitted)
    requires LinearEqn(e, Flags(env, e.inputs)) && n <= next && (forall v :: v in env ==> v.id < n)
    requires e.outs == FreshVars(tys, next) && |tys| == 2 * k
    requires r == Emitted([e], Duals(e.outs[..k], e.outs[k..]), next + |tys|)
    requires |FlowEqn(e, Flags(env, e.inputs))| == 2 * k
    requires forall i :: 0 <= i < k ==> !FlowEqn(e, Flags(env, e.inputs))[i]
    ensures StepLinear(env, r, n)
  {
    hide LinearEqn, FlowEqn, FlowEqns, LinearEqns;
    var flow := FlowEqn(e, Flags(env, e.inputs));
    FreshDistinct(tys, next);
    LinearOne(env, e, n, r.next);
    DualsKnown(env, flow, e.outs, k, n, r.next);
  }

  lemma DualsKnown(env: Unknowns, flow: seq<bool>, outs: seq<Var>, k: nat, n: nat, next: nat)
    requires |outs| == |flow| == 2 * k && Distinct(outs) && forall v :: v in env ==> v.id < n
    requires forall v :: v in outs ==> n <= v.id < next
    requires forall i :: 0 <= i < k ==> !flow[i]
    ensures KnownPrimals(WriteUnks(env, flow, outs), Duals(outs[..k], outs[k..]), next)
  {
    hide WriteUnks;
    WriteUnksExact(env, flow, outs);
    var env' := WriteUnks(env, flow, outs);
    var ts := Duals(outs[..k], outs[k..]);
    forall t | t in ts ensures KnownPrimal(env', t, next) {
      var i :| 0 <= i < |ts| && ts[i] == t;
      assert env'[outs[i]] == flow[i];
      assert outs[i] in outs && outs[k + i] in outs;
    }
  }

  ghost predicate PrimalsKnown(j: Jaxpr, unks: seq<bool>, k: nat) {
    && LinearIn(j, unks)
    && |Flow(j, unks)| == 2 * k
    && forall i :: 0 <= i < k ==> !Flow(j, unks)[i]
  }

  lemma {:induction false} JvpRuleLinear(names: Naming, e: Eqn, ins: seq<Tr>, env: Unknowns, next: nat)
    requires KnownPrimals(env, ins, next) && (forall v :: v in env ==> v.id < next)
    requires AbstractEval(e, AtomTys(Primals(ins))).Some? && JvpRule(names, e, ins, next).Some?
    ensures StepLinear(env, JvpRule(names, e, ins, next).value, next)
    decreases e, 0
  {
    hide Typecheck, JvpJaxpr, JvpPrim, StepLinear, Flow, LinearIn;
    match e
    case PrimEqn(p, _, _) =>
      JvpPrimLinear(p, ins, env, next);
    case CallEqn(body, _, _) =>
      var jj := JvpJaxpr(names, body).value;
      JvpTotal(names, body);
        TypecheckTypes(body);
      JvpLinear(names, body, Flags(env, Tangents(ins)));
      KnownAtoms(env, ins, next);
      var r := JvpRule(names, e, ins, next).value;
      HigherOrderLinear(r.eqns[0], env, Typecheck(jj.jaxpr).value.outTypes, |body.outs|, next, next, r);
    case CondEqn(onTrue, onFalse, _, _) =>
      JvpTotal(names, onTrue);
      var t := JvpJaxpr(names, onTrue).value;
      JvpTotal(names, onFalse);
      var f := JvpJaxpr(names, onFalse).value;
      TypecheckTypes(onTrue);
      TypecheckTypes(onFalse);
      var u := Flags(env, Tangents(ins[1..]));
      assert AtomTys(Primals(ins))[1..] == AtomTys(Primals(ins[1..]));
      JvpLinear(names, onTrue, u);
      JvpLinear(names, onFalse, u);
      assert ins[0] in ins;
      KnownAtoms(env, ins[1..], next);
      var r := JvpRule(names, e, ins, next).value;
      CondFlags(env, Primal(ins[0]), Primals(ins[1..]) + Tangents(ins[1..]));
      HigherOrderLinear(r.eqns[0], env, Typecheck(t.jaxpr).value.outTypes, |onTrue.outs|, next, next, r);
  }

  lemma CondFlags(env: Unknowns, pred: Atom, xs: seq<Atom>)
    ensures Flags(env, [pred] + xs) == [Flag(env, pred)] + Flags(env, xs)
    ensures Flags(env, [pred] + xs)[1..] == Flags(env, xs)
  {
    var all, flags := [pred] + xs, [Flag(env, pred)] + Flags(env, xs);
    hide Flag;
    forall i | 0 <= i < |all| ensures Flags(env, all)[i] == flags[i] {
      if i > 0 {
        assert all[i] == xs[i - 1];
      }
    }
    assert Flags(env, all) == flags;
    assert flags[1..] == Flags(env, xs);
  }

  lemma JvpPrimLinear(p: Prim, ins: seq<Tr>, env: Unknowns, next: nat)
    requires KnownPrimals(env, ins, next) && (forall v :: v in env ==> v.id < next)
    requires JvpPrim(p, ins, next).Some?
    ensures StepLinear(env, JvpPrim(p, ins, next).value, next)
  {
    hide StepLinear;
    match p
    case Neg => JvpNegLinear(ins, env, next);
    case Sin => JvpSinLinear(ins, env, next);
    case Cos => JvpCosLinear(ins, env, next);
    case Add => JvpAddLinear(ins, env, next);
    case Mul => JvpMulLinear(ins, env, next);
    case Greater | Less => JvpCompareLinear(p, ins, env, next);
  }

  lemma {:induction false} JvpEqnLinear(names: Naming, e: Eqn, ins: seq<Tr>, env: Unknowns, next: nat)
    requires KnownPrimals(env, ins, next) && (forall v :: v in env ==> v.id < next)
    requires AbstractEval(e, AtomTys(Primals(ins))).Some? && JvpEqn(names, e, ins, next).Some?
    ensures StepLinear(env, JvpEqn(names, e, ins, next).value, next)
    decreases e, 1
  {
    hide AbstractEval, JvpRule, StepLinear;
    if forall t :: t in ins ==> t.Plain? {
      PlainLinear(names, e, ins, env, next);
    } else {
      JvpRuleLinear(names, e, ins, env, next);
    }
  }

  lemma KnownReads(env: Unknowns, trs: TrEnv, xs: seq<Atom>, next: nat)
    requires KnownPrimalEnv(env, trs, next) && AllBound(trs.Keys, xs)
    ensures KnownPrimals(env, ReadTrs(trs, xs), next)
  {
    forall t | t in ReadTrs(trs, xs) ensures KnownPrimal(env, t, next) {
      var i :| 0 <= i < |xs| && ReadTrs(trs, xs)[i] == t;
      assert Bound(trs.Keys, xs[i]);
    }
  }

  lemma KnownWrites(env: Unknowns, env': Unknowns, trs: TrEnv, vs: seq<Var>, ts: seq<Tr>, next: nat, next': nat)
    requires KnownPrimalEnv(env, trs, next) && Grows(env, env', next, next') && KnownPrimals(env', ts, next')
    requires |vs| == |ts| && Distinct(vs) && forall v :: v in vs ==> v !in trs
    ensures WriteTrs(trs, vs, ts).Some? && KnownPrimalEnv(env', WriteTrs(trs, vs, ts).value, next')
  {
    WriteTrsSpec(trs, vs, ts);
    var r := WriteTrs(trs, vs, ts).value;
    forall v | v in r ensures KnownPrimal(env', r[v], next') {
      if v in trs {
        assert KnownPrimal(env, trs[v], next);
      } else {
        var i :| 0 <= i < |vs| && vs[i] == v;
        assert ts[i] in ts;
      }
    }
  }

  lemma {:induction false} JvpEqnsLinear(names: Naming, eqns: seq<Eqn>, trs: TrEnv, s: set<Var>, env: Unknowns,
                                         next: nat)
    returns (env': Unknowns)
    requires TrEnvOk(s, trs) && Below(s, next) && TypecheckEqns(trs.Keys, eqns).Some?
    requires KnownPrimalEnv(env, trs, next) && (forall v :: v in env ==> v.id < next)
    ensures JvpEqns(names, eqns, trs, next).Some?
    ensures var r := JvpEqns(names, eqns, trs, next).value;
            Linear(env, r.eqns, env', next, r.next) && KnownPrimalEnv(env', r.env, r.next)
    decreases eqns, 0
  {
    hide JvpEqn, AbstractEval, WriteTrs, Linear;
    if eqns == [] {
      env' := env;
      LinearStart(env, next);
    } else {
      var e := eqns[0];
      var ins := ReadTrs(trs, e.inputs);
      ReadTrsOk(s, trs, e.inputs);
      JvpEqnTotal(names, e, ins, AtomTys(e.inputs), s, next);
      PartsOk(s, ins, AtomTys(e.inputs));
      KnownReads(env, trs, e.inputs, next);
      JvpEqnLinear(names, e, ins, env, next);
      var r := JvpEqn(names, e, ins, next).value;
      var env1 :| Linear(env, r.eqns, env1, next, r.next) && KnownPrimals(env1, r.outs, r.next);
      var s1 := TypecheckEqns(s, r.eqns).value;
      DistinctOuts(trs.Keys, e);
      TrEnvOkLarger(s, s1, trs);
      WriteTrsOk(s1, trs, e.outs, r.outs);
      var trs1 := WriteTrs(trs, e.outs, r.outs).value;
      LinearGrows(env, r.eqns, env1, next, r.next);
      KnownWrites(env, env1, trs, e.outs, r.outs, next, r.next);
      env' := JvpEqnsLinear(names, eqns[1..], trs1, s1, env1, r.next);
      var rest := JvpEqns(names, eqns[1..], trs1, r.next).value;
      LinearAppend(env, r.eqns, env1, rest.eqns, env', next, r.next, rest.next);
    }
  }

  lemma LinearGrows(env: Unknowns, eqns: seq<Eqn>, env': Unknowns, next: nat, next': nat)
    requires Linear(env, eqns, env', next, next')
    ensures Grows(env, env', next, next')
  {
  }

  /** The JVP of a jaxpr is linear in its tangents, whichever of them are unknown, and its primal
      outputs never depend on them. */
  lemma {:induction false} JvpLinear(names: Naming, j: Jaxpr, u: seq<bool>)
    requires Typecheck(j).Some? && |u| == |j.binders|
    ensures JvpJaxpr(names, j).Some?
    ensures PrimalsKnown(JvpJaxpr(names, j).value.jaxpr, Repeat(false, |u|) + u, |j.outs|)
    decreases j, 2
  {
    hide TypecheckEqns, JvpEqns, WriteTrs, WriteUnks, Linear, PrimalsKnown, KnownPrimals, BindVars, TrEnvOk,
      KnownPrimalEnv;
    JvpTotal(names, j);
    var n := |j.binders|;
    var bound := TypecheckStart(j);
    BindersBound(j, bound);
    var next := names.first(j);
    var jj := JvpJaxpr(names, j).value.jaxpr;
    var ps, ts, trs, r := JvpShape(names, j);
    var env := WriteUnks(map[], Repeat(false, n) + u, ps + ts);
    JvpStart(j.binders, ps, ts, trs, env, next, u);
    var env' := JvpEqnsLinear(names, j.eqns, trs, ToSet(ps + ts), env, next + 2 * n);
    KnownReads(env', r.env, j.outs, r.next);
    JvpOuts(jj, Repeat(false, n) + u, env', ReadTrs(r.env, j.outs), next + 2 * n, r.next);
  }

  lemma JvpOuts(jj: Jaxpr, unks: seq<bool>, env': Unknowns, outs: seq<Tr>, next: nat, next': nat)
    requires Linear(WriteUnks(map[], unks, jj.binders), jj.eqns, env', next, next')
    requires KnownPrimals(env', outs, next') && jj.outs == Primals(outs) + Tangents(outs)
    ensures PrimalsKnown(jj, unks, |outs|)
  {
    hide FlowEqns, LinearEqns, WriteUnks;
    KnownAtoms(env', outs, next');
  }

  lemma JvpStart(vs: seq<Var>, ps: seq<Var>, ts: seq<Var>, trs: TrEnv, env: Unknowns, next: nat, u: seq<bool>)
    requires Distinct(vs) && |u| == |vs| && ps == FreshVars(Avals(vs), next) && ts == FreshVars(Avals(vs), next + |vs|)
    requires WriteTrs(map[], vs, Duals(ps, ts)) == Some(trs)
             && env == WriteUnks(map[], Repeat(false, |vs|) + u, ps + ts)
    ensures trs.Keys == ToSet(vs) && TrEnvOk(ToSet(ps + ts), trs) && Below(ToSet(ps + ts), next + 2 * |vs|)
    ensures KnownPrimalEnv(env, trs, next + 2 * |vs|) && forall v :: v in env ==> v.id < next + 2 * |vs|
  {
    hide WriteUnks, WriteTrs, TrEnvOk, KnownPrimalEnv, KnownPrimals, TrsOk, FreshVars, Distinct;
    var last, duals := next + 2 * |vs|, Duals(ps, ts);
    FreshStart(Avals(vs), ps, ts, next, last);
    StartKnown(ps, ts, env, next, last, u);
    TracersStart(ToSet(ps + ts), vs, duals);
    KnownStart(env, vs, duals, last);
  }

  lemma FreshStart(tys: seq<Ty>, ps: seq<Var>, ts: seq<Var>, next: nat, last: nat)
    requires ps == FreshVars(tys, next) && ts == FreshVars(tys, next + |tys|) && last == next + 2 * |tys|
    ensures TrsOk(ToSet(ps + ts), Duals(ps, ts), tys) && Distinct(ps + ts)
    ensures forall v :: v in ps + ts ==> next <= v.id < last
  {
    hide TrsOk;
    var outs := ps + ts;
    FreshTwice(tys, next);
    FreshDistinct(tys + tys, next);
    DualsOk(ToSet(outs), tys, outs, next);
    assert outs[..|tys|] == ps && outs[|tys|..] == ts;
  }

  lemma StartKnown(ps: seq<Var>, ts: seq<Var>, env: Unknowns, next: nat, last: nat, u: seq<bool>)
    requires Distinct(ps + ts) && |ps| == |ts| == |u| && forall v :: v in ps + ts ==> next <= v.id < last
    requires env == WriteUnks(map[], Repeat(false, |u|) + u, ps + ts)
    ensures KnownPrimals(env, Duals(ps, ts), last) && forall v :: v in env ==> v.id < last
  {
    hide WriteUnks, KnownPrimals, Distinct;
    var n, outs := |u|, ps + ts;
    assert outs[..n] == ps && outs[n..] == ts;
    DualsKnown(map[], Repeat(false, n) + u, outs, n, next, last);
    WriteUnksExact(map[], Repeat(false, n) + u, outs);
  }

  lemma TracersStart(s: set<Var>, vs: seq<Var>, ts: seq<Tr>)
    requires Distinct(vs) && |ts| == |vs| && TrsOk(s, ts, Avals(vs))
    ensures var trs := WriteTrs(map[], vs, ts); trs.Some? && TrEnvOk(s, trs.value) && trs.value.Keys == ToSet(vs)
  {
    hide WriteTrs, TrsOk, Distinct;
    WriteTrsOk(s, map[], vs, ts);
    assert {} + ToSet(vs) == ToSet(vs);
  }

  lemma KnownStart(env: Unknowns, vs: seq<Var>, ts: seq<Tr>, next: nat)
    requires Distinct(vs) && |ts| == |vs| && KnownPrimals(env, ts, next) && forall v :: v in env ==> v.id < next
    ensures WriteTrs(map[], vs, ts).Some? && KnownPrimalEnv(env, WriteTrs(map[], vs, ts).value, next)
  {
    hide WriteTrs, KnownPrimals, Distinct;
    KnownWrites(env, env, map[], vs, ts, next, next);
  }
}
