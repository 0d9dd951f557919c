/** Two Jaxpr objects with equal contents are staged in the same way, up to the numbers of the new
    variables, and their conditionals share the staged branches. */
module Renaming {
  import opened Wrappers
  import opened Jaxprs
  import opened PartialEvaluation
  import opened Residuals
  import opened Jvp
  import opened JvpTyping
  import opened JvpNames

  /** The variables from `n` on are numbered from `k` on instead. */
  function Move(n: nat, k: nat, v: Var): Var {
    if v.id >= n then Var(v.id - n + k, v.aval) else v
  }

  function MoveVars(n: nat, k: nat, vs: seq<Var>): (r: seq<Var>)
    ensures |r| == |vs| && forall i :: 0 <= i < |vs| ==> r[i] == Move(n, k, vs[i])
  {
    seq(|vs|, i requires 0 <= i < |vs| => Move(n, k, vs[i]))
  }

  function MoveAtom(n: nat, k: nat, x: Atom): Atom {
    if x.V? then V(Move(n, k, x.v)) else x
  }

  function MoveAtoms(n: nat, k: nat, xs: seq<Atom>): (r: seq<Atom>)
    ensures |r| == |xs| && forall i :: 0 <= i < |xs| ==> r[i] == MoveAtom(n, k, xs[i])
  {
    seq(|xs|, i requires 0 <= i < |xs| => MoveAtom(n, k, xs[i]))
  }

  /** Bodies and branches stay the same objects. */
  function MoveEqn(n: nat, k: nat, e: Eqn): Eqn {
    e.(inputs := MoveAtoms(n, k, e.inputs), outs := MoveVars(n, k, e.outs))
  }

  function MoveEqns(n: nat, k: nat, eqns: seq<Eqn>): (r: seq<Eqn>)
    ensures |r| == |eqns| && forall i :: 0 <= i < |eqns| ==> r[i] == MoveEqn(n, k, eqns[i])
  {
    seq(|eqns|, i requires 0 <= i < |eqns| => MoveEqn(n, k, eqns[i]))
  }

  function MoveTr(n: nat, k: nat, t: Tr): Tr {
    match t
    case Dual(p, d) => Dual(MoveAtom(n, k, p), MoveAtom(n, k, d))
    case Plain(x) => Plain(MoveAtom(n, k, x))
  }

  function MoveTrs(n: nat, k: nat, ts: seq<Tr>): (r: seq<Tr>)
    ensures |r| == |ts| && forall i :: 0 <= i < |ts| ==> r[i] == MoveTr(n, k, ts[i])
  {
    seq(|ts|, i requires 0 <= i < |ts| => MoveTr(n, k, ts[i]))
  }

  function MoveEnv(n: nat, k: nat, trs: TrEnv): TrEnv {
    map v | v in trs :: MoveTr(n, k, trs[v])
  }

  // ---------- staging ----------

  lemma MoveFresh(n: nat, k: nat, tys: seq<Ty>, next: nat)
    requires next >= n
    ensures MoveVars(n, k, FreshVars(tys, next)) == FreshVars(tys, next - n + k)
  {
  }

  lemma MoveParts(n: nat, k: nat, ts: seq<Tr>)
    ensures Primals(MoveTrs(n, k, ts)) == MoveAtoms(n, k, Primals(ts))
    ensures Tangents(MoveTrs(n, k, ts)) == MoveAtoms(n, k, Tangents(ts))
    ensures AtomTys(Primals(MoveTrs(n, k, ts))) == AtomTys(Primals(ts))
    ensures (forall t :: t in MoveTrs(n, k, ts) ==> t.Plain?) <==> (forall t :: t in ts ==> t.Plain?)
  {
    var ms := MoveTrs(n, k, ts);
    forall i | 0 <= i < |ts| ensures ms[i].Plain? <==> ts[i].Plain? {
    }
    if forall t :: t in ms ==> t.Plain? {
      forall i | 0 <= i < |ts| ensures ts[i].Plain? {
        assert ms[i] in ms;
      }
    }
  }

  lemma MoveAtomsAppend(n: nat, k: nat, xs: seq<Atom>, ys: seq<Atom>)
    ensures MoveAtoms(n, k, xs + ys) == MoveAtoms(n, k, xs) + MoveAtoms(n, k, ys)
  {
  }

  lemma MoveReads(n: nat, k: nat, trs: TrEnv, xs: seq<Atom>)
    requires AllBound(trs.Keys, xs)
    ensures AllBound(MoveEnv(n, k, trs).Keys, xs)
    ensures ReadTrs(MoveEnv(n, k, trs), xs) == ReadMoved(n, k, ReadTrs(trs, xs), xs)
  {
    assert MoveEnv(n, k, trs).Keys == trs.Keys;
    forall i | 0 <= i < |xs| ensures Bound(trs.Keys, xs[i]) {
    }
  }

  /** A literal is read as it is. */
  function ReadMoved(n: nat, k: nat, ts: seq<Tr>, xs: seq<Atom>): (r: seq<Tr>)
    requires |ts| == |xs|
    ensures |r| == |ts|
  {
    MoveTrs(n, k, ts)
  }

  lemma {:induction false} MoveWrites(n: nat, k: nat, trs: TrEnv, vs: seq<Var>, ts: seq<Tr>)
    requires WriteTrs(trs, vs, ts).Some?
    ensures WriteTrs(MoveEnv(n, k, trs), vs, MoveTrs(n, k, ts)) == Some(MoveEnv(n, k, WriteTrs(trs, vs, ts).value))
    decreases vs
  {
    if vs != [] && ts != [] {
      assert MoveTrs(n, k, ts)[1..] == MoveTrs(n, k, ts[1..]);
      assert MoveEnv(n, k, trs[vs[0] := ts[0]]) == MoveEnv(n, k, trs)[vs[0] := MoveTr(n, k, ts[0])];
      MoveWrites(n, k, trs[vs[0] := ts[0]], vs[1..], ts[1..]);
    }
  }

  lemma Moved1(n: nat, k: nat, p: Prim, x: Atom, id: nat, ty: Ty)
    requires id >= n
    ensures MoveEqn(n, k, Op(p, [x], Var(id, ty))) == Op(p, [MoveAtom(n, k, x)], Var(id - n + k, ty))
    ensures MoveAtom(n, k, V(Var(id, ty))) == V(Var(id - n + k, ty))
  {
  }

  lemma Moved2(n: nat, k: nat, p: Prim, x: Atom, y: Atom, id: nat, ty: Ty)
    requires id >= n
    ensures MoveEqn(n, k, Op(p, [x, y], Var(id, ty)))
            == Op(p, [MoveAtom(n, k, x), MoveAtom(n, k, y)], Var(id - n + k, ty))
    ensures MoveAtom(n, k, V(Var(id, ty))) == V(Var(id - n + k, ty))
  {
  }

  lemma MovedTr(n: nat, k: nat, t: Tr)
    ensures Primal(MoveTr(n, k, t)) == MoveAtom(n, k, Primal(t))
            && Tangent(MoveTr(n, k, t)) == MoveAtom(n, k, Tangent(t))
  {
  }

  ghost predicate PrimMoves(n: nat, k: nat, p: Prim, ins: seq<Tr>, next: nat)
    requires next >= n
  {
    var r := JvpPrim(p, ins, next);
    r.Some? ==>
      r.value.next >= n
      && JvpPrim(p, MoveTrs(n, k, ins), next - n + k)
         == Some(Emitted(MoveEqns(n, k, r.value.eqns), MoveTrs(n, k, r.value.outs), r.value.next - n + k))
  }

  /** A few operations and a tracer of their results. */
  lemma FewMoves(n: nat, k: nat, r: Emitted, q: Emitted)
    requires |r.eqns| == |q.eqns| <= 4 && |r.outs| == |q.outs| == 1
    requires |r.eqns| > 0 ==> q.eqns[0] == MoveEqn(n, k, r.eqns[0])
    requires |r.eqns| > 1 ==> q.eqns[1] == MoveEqn(n, k, r.eqns[1])
    requires |r.eqns| > 2 ==> q.eqns[2] == MoveEqn(n, k, r.eqns[2])
    requires |r.eqns| > 3 ==> q.eqns[3] == MoveEqn(n, k, r.eqns[3])
    requires q.outs[0] == MoveTr(n, k, r.outs[0])
    ensures q.eqns == MoveEqns(n, k, r.eqns) && q.outs == MoveTrs(n, k, r.outs)
  {
    hide MoveEqn, MoveTr;
  }

  lemma UnaryMoves(n: nat, k: nat, p: Prim, ins: seq<Tr>, next: nat)
    requires |ins| == 1 && next >= n
    ensures PrimMoves(n, k, p, ins, next)
  {
    hide MoveAtom, MoveEqn, Primal, Tangent;
    var x, xd := Primal(ins[0]), Tangent(ins[0]);
    MovedTr(n, k, ins[0]);
    Moved1(n, k, p, x, next, Float);
    match p
    case Neg =>
      Moved1(n, k, Neg, xd, next + 1, Float);
      FewMoves(n, k, JvpPrim(p, ins, next).value, JvpPrim(p, MoveTrs(n, k, ins), next - n + k).value);
    case Sin =>
      Moved1(n, k, Cos, x, next + 1, Float);
      Moved2(n, k, Mul, V(Var(next + 1, Float)), xd, next + 2, Float);
      FewMoves(n, k, JvpPrim(p, ins, next).value, JvpPrim(p, MoveTrs(n, k, ins), next - n + k).value);
    case Cos =>
      Moved1(n, k, Sin, x, next + 1, Float);
      Moved1(n, k, Neg, V(Var(next + 1, Float)), next + 2, Float);
      Moved2(n, k, Mul, V(Var(next + 2, Float)), xd, next + 3, Float);
      FewMoves(n, k, JvpPrim(p, ins, next).value, JvpPrim(p, MoveTrs(n, k, ins), next - n + k).value);
    case Add | Mul | Greater | Less =>
  }

  lemma BinaryMoves(n: nat, k: nat, p: Prim, ins: seq<Tr>, next: nat)
    requires |ins| == 2 && next >= n
    ensures PrimMoves(n, k, p, ins, next)
  {
    hide MoveAtom, MoveEqn, Primal, Tangent;
    var x, y, xd, yd := Primal(ins[0]), Primal(ins[1]), Tangent(ins[0]), Tangent(ins[1]);
    MovedTr(n, k, ins[0]);
    MovedTr(n, k, ins[1]);
    Moved2(n, k, p, x, y, next, Float);
    match p
    case Add =>
      Moved2(n, k, Add, xd, yd, next + 1, Float);
      FewMoves(n, k, JvpPrim(p, ins, next).value, JvpPrim(p, MoveTrs(n, k, ins), next - n + k).value);
    case Mul =>
      Moved2(n, k, Mul, xd, y, next + 1, Float);
      Moved2(n, k, Mul, x, yd, next + 2, Float);
      Moved2(n, k, Add, V(Var(next + 1, Float)), V(Var(next + 2, Float)), next + 3, Float);
      FewMoves(n, k, JvpPrim(p, ins, next).value, JvpPrim(p, MoveTrs(n, k, ins), next - n + k).value);
    case Greater | Less =>
      Moved2(n, k, p, x, y, next, Bool);
      LitMoves(n, k, Zero(Bool));
      FewMoves(n, k, JvpPrim(p, ins, next).value, JvpPrim(p, MoveTrs(n, k, ins), next - n + k).value);
    case Neg | Sin | Cos =>
  }

  lemma LitMoves(n: nat, k: nat, v: Val)
    ensures MoveAtom(n, k, Lit(v)) == Lit(v)
  {
  }

  lemma JvpPrimMoves(n: nat, k: nat, p: Prim, ins: seq<Tr>, next: nat)
    requires next >= n
    ensures PrimMoves(n, k, p, ins, next)
  {
    if |ins| == 1 {
      UnaryMoves(n, k, p, ins, next);
    } else if |ins| == 2 {
      BinaryMoves(n, k, p, ins, next);
    }
  }

  lemma MoveHalves(n: nat, k: nat, tys: seq<Ty>, next: nat, h: nat)
    requires next >= n && |tys| == 2 * h
    ensures var outs, moved := FreshVars(tys, next), FreshVars(tys, next - n + k);
            Duals(moved[..h], moved[h..]) == MoveTrs(n, k, Duals(outs[..h], outs[h..]))
  {
  }

  ghost predicate EqnMoves(names: Naming, n: nat, k: nat, e: Eqn, ins: seq<Tr>, next: nat)
    requires next >= n
  {
    var r := JvpEqn(names, e, ins, next);
    r.Some? ==>
      r.value.next >= n
      && JvpEqn(names, e, MoveTrs(n, k, ins), next - n + k)
         == Some(Emitted(MoveEqns(n, k, r.value.eqns), MoveTrs(n, k, r.value.outs), r.value.next - n + k))
  }

  lemma PlainMoves(names: Naming, n: nat, k: nat, e: Eqn, ins: seq<Tr>, next: nat)
    requires next >= n && forall t :: t in ins ==> t.Plain?
    ensures EqnMoves(names, n, k, e, ins, next)
  {
    hide AbstractEval, JvpRule, MoveAtom, Move;
    MoveParts(n, k, ins);
    if JvpEqn(names, e, ins, next).Some? {
      var tys := AbstractEval(e, AtomTys(Primals(ins))).value;
      MoveFresh(n, k, tys, next);
      MovePlains(n, k, tys, next);
      OneMoved(n, k, JvpEqn(names, e, ins, next).value.eqns[0]);
    }
  }

  lemma CallMoves(names: Naming, n: nat, k: nat, e: Eqn, ins: seq<Tr>, next: nat)
    requires next >= n && e.CallEqn? && !(forall t :: t in ins ==> t.Plain?)
    ensures EqnMoves(names, n, k, e, ins, next)
  {
    hide JvpJaxpr, Typecheck, MoveAtom, Move;
    MoveParts(n, k, ins);
    assert JvpEqn(names, e, ins, next) == JvpRule(names, e, ins, next);
    assert JvpEqn(names, e, MoveTrs(n, k, ins), next - n + k) == JvpRule(names, e, MoveTrs(n, k, ins), next - n + k);
    if JvpRule(names, e, ins, next).Some? {
      var tys := Typecheck(JvpJaxpr(names, e.body).value.jaxpr).value.outTypes;
      MoveFresh(n, k, tys, next);
      MoveHalves(n, k, tys, next, |tys| / 2);
      MoveAtomsAppend(n, k, Primals(ins), Tangents(ins));
      OneMoved(n, k, JvpRule(names, e, ins, next).value.eqns[0]);
    }
  }

  lemma CondInputsMove(n: nat, k: nat, ins: seq<Tr>)
    requires ins != []
    ensures var ms := MoveTrs(n, k, ins);
            MoveAtoms(n, k, [Primal(ins[0])] + (Primals(ins[1..]) + Tangents(ins[1..])))
            == [Primal(ms[0])] + (Primals(ms[1..]) + Tangents(ms[1..]))
  {
    hide MoveAtom, Primal, Tangent;
    assert MoveTrs(n, k, ins)[1..] == MoveTrs(n, k, ins[1..]);
    MoveParts(n, k, ins[1..]);
    MoveAtomsAppend(n, k, Primals(ins[1..]), Tangents(ins[1..]));
    MoveAtomsAppend(n, k, [Primal(ins[0])], Primals(ins[1..]) + Tangents(ins[1..]));
    MovedTr(n, k, ins[0]);
    assert MoveAtoms(n, k, [Primal(ins[0])]) == [Primal(MoveTr(n, k, ins[0]))];
  }

  lemma CondMoves(names: Naming, n: nat, k: nat, e: Eqn, ins: seq<Tr>, next: nat)
    requires next >= n && e.CondEqn? && !(forall t :: t in ins ==> t.Plain?)
    ensures EqnMoves(names, n, k, e, ins, next)
  {
    hide JvpJaxpr, Typecheck, MoveAtom, Move, Primals, Tangents, Primal;
    MoveParts(n, k, ins);
    assert JvpEqn(names, e, ins, next) == JvpRule(names, e, ins, next);
    assert JvpEqn(names, e, MoveTrs(n, k, ins), next - n + k) == JvpRule(names, e, MoveTrs(n, k, ins), next - n + k);
    if JvpRule(names, e, ins, next).Some? {
      var tys := Typecheck(JvpJaxpr(names, e.onTrue).value.jaxpr).value.outTypes;
      MoveFresh(n, k, tys, next);
      MoveHalves(n, k, tys, next, |tys| / 2);
      CondInputsMove(n, k, ins);
      OneMoved(n, k, JvpEqn(names, e, ins, next).value.eqns[0]);
    }
  }

  lemma JvpEqnMoves(names: Naming, n: nat, k: nat, e: Eqn, ins: seq<Tr>, next: nat)
    requires next >= n
    ensures EqnMoves(names, n, k, e, ins, next)
  {
    hide JvpJaxpr, JvpPrim, Typecheck, AbstractEval, MoveAtom, Move, EqnMoves;
    if forall t :: t in ins ==> t.Plain? {
      PlainMoves(names, n, k, e, ins, next);
    } else {
      match e {
        case PrimEqn(p, _, _) =>
          JvpPrimMoves(n, k, p, ins, next);
          PrimEqnMoves(names, n, k, e, ins, next);
        case CallEqn(_, _, _) => CallMoves(names, n, k, e, ins, next);
        case CondEqn(_, _, _, _) => CondMoves(names, n, k, e, ins, next);
      }
    }
  }

  lemma PrimEqnMoves(names: Naming, n: nat, k: nat, e: Eqn, ins: seq<Tr>, next: nat)
    requires next >= n && e.PrimEqn? && PrimMoves(n, k, e.prim, ins, next) && !(forall t :: t in ins ==> t.Plain?)
    ensures EqnMoves(names, n, k, e, ins, next)
  {
    hide JvpPrim, AbstractEval, MoveAtom, Move;
    MoveParts(n, k, ins);
    assert JvpEqn(names, e, ins, next) == JvpRule(names, e, ins, next);
    assert JvpEqn(names, e, MoveTrs(n, k, ins), next - n + k) == JvpRule(names, e, MoveTrs(n, k, ins), next - n + k);
  }

  lemma MovePlains(n: nat, k: nat, tys: seq<Ty>, next: nat)
    requires next >= n
    ensures MoveTrs(n, k, Plains(FreshVars(tys, next))) == Plains(FreshVars(tys, next - n + k))
  {
  }

  lemma OneMoved(n: nat, k: nat, e: Eqn)
    ensures MoveEqns(n, k, [e]) == [MoveEqn(n, k, e)]
  {
  }

  lemma {:induction false} JvpEqnsMoves(names: Naming, n: nat, k: nat, eqns: seq<Eqn>, trs: TrEnv, next: nat)
    requires JvpEqns(names, eqns, trs, next).Some? && next >= n
    ensures var r := JvpEqns(names, eqns, trs, next).value;
            && r.next >= n
            && JvpEqns(names, eqns, MoveEnv(n, k, trs), next - n + k)
               == Some(Traced(MoveEqns(n, k, r.eqns), MoveEnv(n, k, r.env), r.next - n + k))
    decreases eqns
  {
    hide JvpEqn, WriteTrs;
    if eqns != [] {
      var e := eqns[0];
      var ins := ReadTrs(trs, e.inputs);
      MoveReads(n, k, trs, e.inputs);
      JvpEqnMoves(names, n, k, e, ins, next);
      var r := JvpEqn(names, e, ins, next).value;
      MoveWrites(n, k, trs, e.outs, r.outs);
      var trs1 := WriteTrs(trs, e.outs, r.outs).value;
      JvpEqnsMoves(names, n, k, eqns[1..], trs1, r.next);
      var rest := JvpEqns(names, eqns[1..], trs1, r.next).value;
      assert MoveEqns(n, k, r.eqns + rest.eqns) == MoveEqns(n, k, r.eqns) + MoveEqns(n, k, rest.eqns);
    }
  }

  /** Staging another object with the same contents. */
  lemma JvpMoves(names: Naming, b: Jaxpr, id: nat)
    requires Typecheck(b).Some?
    ensures var c := b.(id := id);
            && JvpJaxpr(names, b).Some? && JvpJaxpr(names, c).Some?
            && var n, k := names.first(b), names.first(c);
            && var t, f := JvpJaxpr(names, b).value.jaxpr, JvpJaxpr(names, c).value.jaxpr;
            && f.binders == MoveVars(n, k, t.binders) && f.eqns == MoveEqns(n, k, t.eqns)
            && f.outs == MoveAtoms(n, k, t.outs)
  {
    hide JvpEqns, WriteTrs, Typecheck;
    var c := b.(id := id);
    SameType(b, id);
    JvpTotal(names, b);
    JvpTotal(names, c);
    var n, k, w := names.first(b), names.first(c), |b.binders|;
    var ps, ts, trs, r := JvpShape(names, b);
    var ps', ts', trs', r' := JvpShape(names, c);
    MoveFresh(n, k, Avals(b.binders), n);
    MoveFresh(n, k, Avals(b.binders), n + w);
    assert MoveTrs(n, k, Duals(ps, ts)) == Duals(ps', ts');
    MoveWrites(n, k, map[], b.binders, Duals(ps, ts));
    assert MoveEnv(n, k, map[]) == map[];
    assert trs' == MoveEnv(n, k, trs);
    JvpEqnsMoves(names, n, k, b.eqns, trs, n + 2 * w);
    MoveReads(n, k, r.env, b.outs);
    MoveParts(n, k, ReadTrs(r.env, b.outs));
    MoveAtomsAppend(n, k, Primals(ReadTrs(r.env, b.outs)), Tangents(ReadTrs(r.env, b.outs)));
  }

  lemma SameType(b: Jaxpr, id: nat)
    ensures Typecheck(b.(id := id)) == Typecheck(b)
  {
  }

  // ---------- what partial evaluation does to it ----------

  /** The same values are unknown. */
  ghost predicate Related(n: nat, k: nat, env: Unknowns, env': Unknowns) {
    forall v: Var :: v.id >= n ==> (v in env <==> Move(n, k, v) in env') && (v in env ==> env[v] == env'[Move(n, k, v)])
  }

  lemma RelatedFlags(n: nat, k: nat, env: Unknowns, env': Unknowns, xs: seq<Atom>, s: set<Var>)
    requires Related(n, k, env, env') && AllBound(s, xs) && forall v :: v in s ==> v.id >= n
    ensures Flags(env', MoveAtoms(n, k, xs)) == Flags(env, xs)
  {
    forall i | 0 <= i < |xs| ensures Flag(env', MoveAtom(n, k, xs[i])) == Flag(env, xs[i]) {
      assert Bound(s, xs[i]);
    }
  }

  lemma {:induction false} RelatedWrites(n: nat, k: nat, env: Unknowns, env': Unknowns, unks: seq<bool>, vs: seq<Var>)
    requires Related(n, k, env, env') && forall v :: v in vs ==> v.id >= n
    ensures Related(n, k, WriteUnks(env, unks, vs), WriteUnks(env', unks, MoveVars(n, k, vs)))
    decreases vs
  {
    if unks != [] && vs != [] {
      assert vs[0] in vs && MoveVars(n, k, vs)[1..] == MoveVars(n, k, vs[1..]);
      var env1, env1' := env[vs[0] := unks[0]], env'[Move(n, k, vs[0]) := unks[0]];
      forall v: Var | v.id >= n
        ensures (v in env1 <==> Move(n, k, v) in env1') && (v in env1 ==> env1[v] == env1'[Move(n, k, v)])
      {
        assert Move(n, k, v) == Move(n, k, vs[0]) <==> v == vs[0];
      }
      RelatedWrites(n, k, env1, env1', unks[1..], vs[1..]);
    }
  }

  lemma MovedFields(n: nat, k: nat, e: Eqn)
    ensures MoveEqn(n, k, e).inputs == MoveAtoms(n, k, e.inputs) && MoveEqn(n, k, e).outs == MoveVars(n, k, e.outs)
  {
  }

  lemma MovedEqnParts(n: nat, k: nat, e: Eqn, flags: seq<bool>)
    ensures var q := MoveEqn(n, k, e);
            && FlowEqn(q, flags) == FlowEqn(e, flags) && CondRes(q, flags) == CondRes(e, flags)
            && NoClashEqn(q, flags) == NoClashEqn(e, flags)
  {
    hide Flow, Res, NoClash, Joinable;
  }

  /** The moved equations hand on the same variables of their conditionals. */
  lemma {:induction false} MovedResiduals(n: nat, k: nat, eqns: seq<Eqn>, env: Unknowns, env': Unknowns, s: set<Var>)
    requires Related(n, k, env, env') && TypecheckEqns(s, eqns).Some?
    requires forall v :: v in TypecheckEqns(s, eqns).value ==> v.id >= n
    ensures var qs := MoveEqns(n, k, eqns);
            && Related(n, k, FlowEqns(eqns, env), FlowEqns(qs, env'))
            && CondResEqns(qs, env') == CondResEqns(eqns, env)
            && NoClashInside(qs, env') == NoClashInside(eqns, env)
            && ResApart({}, qs, env') == ResApart({}, eqns, env)
    decreases eqns
  {
    hide TypecheckEqn, FlowEqn, CondRes, NoClashEqn, Related, MoveEqn, WriteUnks, Move;
    if eqns != [] {
      var e := eqns[0];
      var qs := MoveEqns(n, k, eqns);
      DistinctOuts(s, e);
      var s1 := TypecheckEqn(s, e).value;
      TypecheckGrows(s1, eqns[1..]);
      assert forall v :: v in s ==> v.id >= n;
      RelatedFlags(n, k, env, env', e.inputs, s);
      var flags := Flags(env, e.inputs);
      MovedEqnParts(n, k, e, flags);
      assert forall v :: v in e.outs ==> v in s1;
      RelatedWrites(n, k, env, env', FlowEqn(e, flags), e.outs);
      assert qs[1..] == MoveEqns(n, k, eqns[1..]) && qs[0] == MoveEqn(n, k, e);
      MovedFields(n, k, e);
      MovedResiduals(n, k, eqns[1..], WriteUnks(env, FlowEqn(e, flags), e.outs),
                     WriteUnks(env', FlowEqn(e, flags), MoveVars(n, k, e.outs)), s1);
    } else {
      assert MoveEqns(n, k, eqns) == [];
    }
  }

  /** The staged JVPs of two objects with the same contents. */
  lemma TwinResiduals(names: Naming, b: Jaxpr, id: nat, u: seq<bool>)
    requires Typecheck(b).Some?
    ensures JvpJaxpr(names, b).Some? && JvpJaxpr(names, b.(id := id)).Some?
    ensures var t, f := JvpJaxpr(names, b).value.jaxpr, JvpJaxpr(names, b.(id := id)).value.jaxpr;
            var env, env' := WriteUnks(map[], u, t.binders), WriteUnks(map[], u, f.binders);
            && |f.binders| == |t.binders| && Flow(f, u) == Flow(t, u)
            && CondResEqns(f.eqns, env') == CondResEqns(t.eqns, env)
            && NoClashInside(f.eqns, env') == NoClashInside(t.eqns, env)
            && ResApart({}, f.eqns, env') == ResApart({}, t.eqns, env)
  {
    hide JvpJaxpr, Typecheck, TypecheckEqns, WriteUnks, CondResEqns, NoClashInside, ResApart, FlowEqns, Related,
      Level, AllFrom, MadeFor, Scope, Allocated, Apart;
    JvpMoves(names, b, id);
    JvpTotal(names, b);
    JvpScope(names, b);
    var n, k := names.first(b), names.first(b.(id := id));
    var t, f := JvpJaxpr(names, b).value.jaxpr, JvpJaxpr(names, b.(id := id)).value.jaxpr;
    LevelAbove(names, b, t);
    NothingRelated(n, k);
    var bound := OutsBoundSet(t);
    TypecheckGrows(bound, t.eqns);
    assert forall v :: v in t.binders ==> v in bound;
    RelatedWrites(n, k, map[], map[], u, t.binders);
    MovedResiduals(n, k, t.eqns, WriteUnks(map[], u, t.binders), WriteUnks(map[], u, f.binders), bound);
    RelatedFlags(n, k, FlowEqns(t.eqns, WriteUnks(map[], u, t.binders)),
                 FlowEqns(f.eqns, WriteUnks(map[], u, f.binders)),
                 t.outs, Level(t));
  }

  lemma LevelAbove(names: Naming, b: Jaxpr, t: Jaxpr)
    requires forall v :: v in Level(t) ==> MadeFor(names, v, b)
    ensures forall v :: v in Level(t) ==> v.id >= names.first(b)
  {
    hide Level, End;
  }

  lemma NothingRelated(n: nat, k: nat)
    ensures Related(n, k, map[], map[])
  {
  }
}
