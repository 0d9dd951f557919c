/** partial_eval_jaxpr: unzips a jaxpr into a stage that runs on the known inputs and a stage
    that runs once the unknown inputs arrive, with residuals passed from one to the other. */
module PartialEvaluation {
  import opened Wrappers
  import opened Lists
  import opened Jaxprs

  type Unknowns = map<Var, bool>

  /** The residuals are a Python set; `order` is the order in which list() enumerates it,
      about which nothing is known. */
  type Order = set<Var> -> seq<Var>

  ghost predicate IsOrder(order: Order) {
    forall s :: Distinct(order(s)) && ToSet(order(s)) == s
  }

  datatype Split = Split(known: Jaxpr, unknown: Jaxpr, outUnks: seq<bool>, numRes: nat, next: nat)

  datatype EqnSplit = EqnSplit(known: seq<Eqn>, unknown: seq<Eqn>, outUnks: seq<bool>,
                               residuals: set<Var>, next: nat)

  datatype EqnsSplit = EqnsSplit(known: seq<Eqn>, unknown: seq<Eqn>, env: Unknowns,
                                 residuals: set<Var>, next: nat)

  datatype CondSplit = CondSplit(trueKnown: Jaxpr, falseKnown: Jaxpr, trueUnknown: Jaxpr, falseUnknown: Jaxpr,
                                 outUnks: seq<bool>, numRes: nat, next: nat)

  predicate Unk(env: Unknowns, x: Atom)
    requires Bound(env.Keys, x)
  {
    x.V? && env[x.v]
  }

  /** map(read, xs) on the unknown-ness environment. */
  function Unks(env: Unknowns, xs: seq<Atom>): (r: Option<seq<bool>>)
    ensures r.Some? <==> AllBound(env.Keys, xs)
    ensures r.Some? ==> |r.value| == |xs| && forall i :: 0 <= i < |xs| ==> r.value[i] == Unk(env, xs[i])
  {
    if AllBound(env.Keys, xs) then Some(seq(|xs|, i requires 0 <= i < |xs| => Unk(env, xs[i]))) else None
  }

  function WriteUnks(env: Unknowns, unks: seq<bool>, vs: seq<Var>): Unknowns
    decreases vs
  {
    if unks == [] || vs == [] then env
    else WriteUnks(env[vs[0] := unks[0]], unks[1..], vs[1..])
  }

  /** The known variables among the operands of a delayed equation become residuals. */
  function KnownVars(unks: seq<bool>, xs: seq<Atom>): set<Var>
    requires |unks| == |xs|
  {
    set i | 0 <= i < |xs| && !unks[i] && xs[i].V? :: xs[i].v
  }

  function FreshVars(tys: seq<Ty>, next: nat): (r: seq<Var>)
    ensures |r| == |tys| && forall i :: 0 <= i < |tys| ==> r[i] == Var(next + i, tys[i])
  {
    seq(|tys|, i requires 0 <= i < |tys| => Var(next + i, tys[i]))
  }

  function Or(bs: seq<bool>, cs: seq<bool>): (r: seq<bool>)
    ensures |r| == (if |bs| <= |cs| then |bs| else |cs|)
    ensures forall i :: 0 <= i < |r| ==> r[i] == (bs[i] || cs[i])
  {
    seq(if |bs| <= |cs| then |bs| else |cs|, i requires 0 <= i < |bs| && i < |cs| => bs[i] || cs[i])
  }

  /** _join_jaxpr_res: each branch also returns zeros in the places of the other's residuals. */
  function JoinRes(j1: Jaxpr, j2: Jaxpr, n1: nat, n2: nat): Option<(Jaxpr, Jaxpr)> {
    var ty1 :- Typecheck(j1);
    var ty2 :- Typecheck(j2);
    var k1, k2 := |j1.outs| - n1, |j2.outs| - n2;
    if k1 < 0 || k2 < 0 || ty1.outTypes[..k1] != ty2.outTypes[..k2] then None
    else
      var res1, res2 := j1.outs[k1..], j2.outs[k2..];
      Some((Jaxpr(j1.binders, j1.eqns, j1.outs[..k1] + res1 + Lits(Zeros(AtomTys(res2)))),
            Jaxpr(j2.binders, j2.eqns, j2.outs[..k2] + Lits(Zeros(AtomTys(res1))) + res2)))
  }

  /** _join_jaxpr_consts: both branches bind both lists of leading inputs. */
  function JoinConsts(j1: Jaxpr, j2: Jaxpr, n1: nat, n2: nat): Option<(Jaxpr, Jaxpr)> {
    var ty1 :- Typecheck(j1);
    var ty2 :- Typecheck(j2);
    if |j1.binders| < n1 || |j2.binders| < n2 || ty1.inTypes[n1..] != ty2.inTypes[n2..] then None
    else
      var consts1, rest1 := j1.binders[..n1], j1.binders[n1..];
      var consts2, rest2 := j2.binders[..n2], j2.binders[n2..];
      Some((Jaxpr(consts1 + consts2 + rest1, j1.eqns, j1.outs),
            Jaxpr(consts1 + consts2 + rest2, j2.eqns, j2.outs)))
  }

  /** _cond_partial_eval on the two branches of `e`. */
  function CondPartialEval(order: Order, e: Eqn, unks: seq<bool>, next: nat): Option<CondSplit>
    requires e.CondEqn?
    decreases e, 0
  {
    var t0 :- PartialEval(order, e.onTrue, unks, None, next);
    var f0 :- PartialEval(order, e.onFalse, unks, None, t0.next);
    var outUnks := Or(t0.outUnks, f0.outUnks);
    var t :- PartialEval(order, e.onTrue, unks, Some(outUnks), f0.next);
    var f :- PartialEval(order, e.onFalse, unks, Some(outUnks), t.next);
    var known :- JoinRes(t.known, f.known, t.numRes, f.numRes);
    var unknown :- JoinConsts(t.unknown, f.unknown, t.numRes, f.numRes);
    var ty1 :- Typecheck(known.0);
    var ty2 :- Typecheck(unknown.0);
    if Typecheck(known.1) == Some(ty1) && Typecheck(unknown.1) == Some(ty2)
    then Some(CondSplit(known.0, known.1, unknown.0, unknown.1, outUnks, t.numRes + f.numRes, f.next))
    else None
  }

  /** The end of xla_call_peval_eqn: two calls, linked by fresh residual variables. */
  function CallSplit(s: Split, unks: seq<bool>, inputs: seq<Atom>, outs: seq<Var>): Option<EqnSplit>
    requires |unks| == |inputs|
  {
    if |s.outUnks| != |outs| || |s.unknown.binders| < s.numRes then None
    else
      var residuals := FreshVars(Avals(s.unknown.binders[..s.numRes]), s.next);
      var eqn1 := CallEqn(s.known, Select(unks, false, inputs), Select(s.outUnks, false, outs) + residuals);
      var eqn2 := CallEqn(s.unknown, Atoms(residuals) + Select(unks, true, inputs), Select(s.outUnks, true, outs));
      Some(EqnSplit([eqn1], [eqn2], s.outUnks, ToSet(residuals), s.next + s.numRes))
  }

  /** The end of cond_peval_eqn: two conditionals on the same predicate, linked by the residual
      variables of the branches themselves. */
  function CondEqnSplit(c: CondSplit, unks: seq<bool>, pred: Atom, inputs: seq<Atom>, outs: seq<Var>): Option<EqnSplit>
    requires |unks| == |inputs|
  {
    if |c.outUnks| != |outs| || |c.trueUnknown.binders| < c.numRes then None
    else
      var residuals := c.trueUnknown.binders[..c.numRes];
      var eqn1 := CondEqn(c.trueKnown, c.falseKnown, [pred] + Select(unks, false, inputs),
                          Select(c.outUnks, false, outs) + residuals);
      var eqn2 := CondEqn(c.trueUnknown, c.falseUnknown, [pred] + (Atoms(residuals) + Select(unks, true, inputs)),
                          Select(c.outUnks, true, outs));
      Some(EqnSplit([eqn1], [eqn2], c.outUnks, (if pred.V? then {pred.v} else {}) + ToSet(residuals), c.next))
  }

  /** One pass of the loop over the equations, for operands with the given unknown-ness. */
  function PevalEqn(order: Order, unks: seq<bool>, e: Eqn, next: nat): Option<EqnSplit>
    requires |unks| == |e.inputs|
    decreases e, 1
  {
    match e
    case PrimEqn(_, inputs, outs) =>
      if true in unks then
        Some(EqnSplit([], [e], Repeat(true, |outs|), KnownVars(unks, inputs), next))
      else
        Some(EqnSplit([e], [], Repeat(false, |outs|), {}, next))
    case CallEqn(body, inputs, outs) =>
      var s :- PartialEval(order, body, unks, None, next);
      CallSplit(s, unks, inputs, outs)
    case CondEqn(_, _, inputs, outs) =>
      if |inputs| == 0 || unks[0] then None
      else
        var c :- CondPartialEval(order, e, unks[1..], next);
        CondEqnSplit(c, unks[1..], inputs[0], inputs[1..], outs)
  }

  function PevalEqns(order: Order, eqns: seq<Eqn>, env: Unknowns, next: nat): Option<EqnsSplit>
    decreases eqns, 0
  {
    if eqns == [] then Some(EqnsSplit([], [], env, {}, next))
    else
      var unks :- Unks(env, eqns[0].inputs);
      var s :- PevalEqn(order, unks, eqns[0], next);
      var rest :- PevalEqns(order, eqns[1..], WriteUnks(env, s.outUnks, eqns[0].outs), s.next);
      Some(EqnsSplit(s.known + rest.known, s.unknown + rest.unknown, rest.env,
                     s.residuals + rest.residuals, rest.next))
  }

  /** typecheck_partial_eval_jaxpr: both stages are well-typed and their types are the
      matching parts of the type of the original. */
  predicate TypecheckSplit(j: Jaxpr, unks: seq<bool>, outUnks: seq<bool>, known: Jaxpr, unknown: Jaxpr) {
    var ty, ty1, ty2 := Typecheck(j), Typecheck(known), Typecheck(unknown);
    && ty.Some? && ty1.Some? && ty2.Some?
    && |unks| == |ty.value.inTypes| && |outUnks| == |ty.value.outTypes|
    && var b1 := Select(outUnks, false, ty.value.outTypes);
    && |b1| <= |ty1.value.outTypes|
    && var res := ty1.value.outTypes[|b1|..];
    && ty1.value.inTypes == Select(unks, false, ty.value.inTypes)
    && ty1.value.outTypes[..|b1|] == b1
    && ty2.value.inTypes == res + Select(unks, true, ty.value.inTypes)
    && ty2.value.outTypes == Select(outUnks, true, ty.value.outTypes)
  }

  /** The known variables among the outputs that are to be delayed become residuals, too. */
  function Forced(outs: seq<Atom>, flags: seq<bool>, inst: seq<bool>): set<Var>
    requires |flags| == |inst| == |outs|
  {
    set i | 0 <= i < |outs| && inst[i] && !flags[i] && outs[i].V? :: outs[i].v
  }

  /** The last part of partial_eval_jaxpr, after its loop. */
  function FinishSplit(order: Order, j: Jaxpr, unks: seq<bool>, instantiate: Option<seq<bool>>, p: EqnsSplit)
    : Option<Split>
    requires |unks| == |j.binders|
  {
    var outUnks0 :- Unks(p.env, j.outs);
    if instantiate.Some? && |instantiate.value| != |j.outs| then None
    else
      var inst := if instantiate.Some? then instantiate.value else Repeat(false, |j.outs|);
      var outUnks := Or(outUnks0, inst);
      var residuals := order(p.residuals + Forced(j.outs, outUnks0, inst));
      var known := Jaxpr(Select(unks, false, j.binders), p.known,
                         Select(outUnks, false, j.outs) + Atoms(residuals));
      var unknown := Jaxpr(residuals + Select(unks, true, j.binders), p.unknown,
                           Select(outUnks, true, j.outs));
      if TypecheckSplit(j, unks, outUnks, known, unknown)
      then Some(Split(known, unknown, outUnks, |residuals|, p.next))
      else None
  }

  function PartialEval(order: Order, j: Jaxpr, unks: seq<bool>, instantiate: Option<seq<bool>>, next: nat)
    : Option<Split>
    decreases j, 1
  {
    if |unks| != |j.binders| then None
    else
      var p :- PevalEqns(order, j.eqns, WriteUnks(map[], unks, j.binders), next);
      FinishSplit(order, j, unks, instantiate, p)
  }

  /** What the two stages are for: run the first, hand its residuals to the second, merge. */
  function RunSplit(m: Math, s: Split, unks: seq<bool>, args: seq<Val>): Option<seq<Val>>
    requires |unks| == |args|
  {
    var first :- Eval(m, s.known, Select(unks, false, args));
    var k := |first| - s.numRes;
    if k < 0 then None
    else
      var second :- Eval(m, s.unknown, first[k..] + Select(unks, true, args));
      Merge(s.outUnks, first[..k], second)
  }

  /** The rest of the loop, started from the state `acc` that it has reached. */
  ghost function Continue(order: Order, eqns: seq<Eqn>, acc: EqnsSplit): Option<EqnsSplit> {
    var p :- PevalEqns(order, eqns, acc.env, acc.next);
    Some(EqnsSplit(acc.known + p.known, acc.unknown + p.unknown, p.env, acc.residuals + p.residuals, p.next))
  }

  ghost function After(acc: EqnsSplit, e: Eqn, s: EqnSplit): EqnsSplit {
    EqnsSplit(acc.known + s.known, acc.unknown + s.unknown, WriteUnks(acc.env, s.outUnks, e.outs),
              acc.residuals + s.residuals, s.next)
  }

  lemma ContinueStep(order: Order, eqns: seq<Eqn>, i: nat, acc: EqnsSplit)
    requires i < |eqns|
    ensures Continue(order, eqns[i..], acc) ==
            var unks := Unks(acc.env, eqns[i].inputs);
            if unks.None? then None
            else
              var s := PevalEqn(order, unks.value, eqns[i], acc.next);
              if s.None? then None else Continue(order, eqns[i + 1..], After(acc, eqns[i], s.value))
  {
    assert eqns[i..][1..] == eqns[i + 1..];
    var unks := Unks(acc.env, eqns[i].inputs);
    if unks.Some? {
      var s := PevalEqn(order, unks.value, eqns[i], acc.next);
      if s.Some? {
        var rest := PevalEqns(order, eqns[i + 1..], WriteUnks(acc.env, s.value.outUnks, eqns[i].outs), s.value.next);
        if rest.Some? {
          var p := rest.value;
          assert acc.known + (s.value.known + p.known) == (acc.known + s.value.known) + p.known;
          assert acc.unknown + (s.value.unknown + p.unknown) == (acc.unknown + s.value.unknown) + p.unknown;
          assert acc.residuals + (s.value.residuals + p.residuals)
              == (acc.residuals + s.value.residuals) + p.residuals;
        }
      }
    }
  }

  lemma ContinueStart(order: Order, eqns: seq<Eqn>, env: Unknowns, next: nat)
    ensures Continue(order, eqns[0..], EqnsSplit([], [], env, {}, next)) == PevalEqns(order, eqns, env, next)
  {
    assert eqns[0..] == eqns;
    var p := PevalEqns(order, eqns, env, next);
    if p.Some? {
      assert [] + p.value.known == p.value.known && [] + p.value.unknown == p.value.unknown;
      assert {} + p.value.residuals == p.value.residuals;
    }
  }

  lemma ContinueEnd(order: Order, eqns: seq<Eqn>, acc: EqnsSplit)
    ensures Continue(order, eqns[|eqns|..], acc) == Some(acc)
  {
    assert acc.known + [] == acc.known && acc.unknown + [] == acc.unknown;
    assert acc.residuals + {} == acc.residuals;
  }

  /** The part of the loop body without a rule: a plain equation is moved as a whole. */
  lemma AfterPrim(order: Order, acc: EqnsSplit, e: Eqn, unks: seq<bool>)
    requires e.PrimEqn? && |unks| == |e.inputs|
    ensures PevalEqn(order, unks, e, acc.next).Some?
    ensures After(acc, e, PevalEqn(order, unks, e, acc.next).value) ==
            if true in unks then
              EqnsSplit(acc.known, acc.unknown + [e], WriteUnks(acc.env, Repeat(true, |e.outs|), e.outs),
                        acc.residuals + KnownVars(unks, e.inputs), acc.next)
            else
              EqnsSplit(acc.known + [e], acc.unknown, WriteUnks(acc.env, Repeat(false, |e.outs|), e.outs),
                        acc.residuals, acc.next)
  {
    assert acc.known + [] == acc.known && acc.unknown + [] == acc.unknown;
    assert acc.residuals + {} == acc.residuals;
  }

  /** partial_eval_jaxpr as the source runs it: a loop that appends to the equation lists of the
      two stages and to the residual set, with a rule for calls and conditionals. */
  method PartialEvalJaxpr(order: Order, j: Jaxpr, unks: seq<bool>, instantiate: Option<seq<bool>>, next: nat)
    returns (r: Option<Split>)
    ensures r == PartialEval(order, j, unks, instantiate, next)
  {
    if |unks| != |j.binders| {
      return None;
    }
    var eqns1: seq<Eqn>, eqns2: seq<Eqn> := [], [];
    var env := WriteUnks(map[], unks, j.binders);
    var residuals: set<Var> := {};
    var n := next;
    ContinueStart(order, j.eqns, env, n);
    ghost var goal := PevalEqns(order, j.eqns, env, n);
    for i := 0 to |j.eqns|
      invariant Continue(order, j.eqns[i..], EqnsSplit(eqns1, eqns2, env, residuals, n)) == goal
    {
      var e := j.eqns[i];
      ghost var acc := EqnsSplit(eqns1, eqns2, env, residuals, n);
      ContinueStep(order, j.eqns, i, acc);
      var unksIn := Unks(env, e.inputs);
      if unksIn.None? {
        return None;
      }
      if !e.PrimEqn? {
        var split := PevalEqn(order, unksIn.value, e, n);
        if split.None? {
          return None;
        }
        eqns1, eqns2 := eqns1 + split.value.known, eqns2 + split.value.unknown;
        residuals := residuals + split.value.residuals;
        env := WriteUnks(env, split.value.outUnks, e.outs);
        n := split.value.next;
      } else {
        AfterPrim(order, acc, e, unksIn.value);
        if true in unksIn.value {
          eqns2 := eqns2 + [e];
          residuals := residuals + KnownVars(unksIn.value, e.inputs);
          env := WriteUnks(env, Repeat(true, |e.outs|), e.outs);
        } else {
          eqns1 := eqns1 + [e];
          env := WriteUnks(env, Repeat(false, |e.outs|), e.outs);
        }
      }
    }
    ContinueEnd(order, j.eqns, EqnsSplit(eqns1, eqns2, env, residuals, n));
    r := FinishSplit(order, j, unks, instantiate, EqnsSplit(eqns1, eqns2, env, residuals, n));
  }
}
