/** Partial evaluation preserves meaning: whenever partial_eval_jaxpr returns, its two stages
    together compute what the original jaxpr computes. No assumption on variable names is
    needed, because the final type check rejects every split in which they collide. */
module PartialEvalProof {
  import opened Wrappers
  import opened Lists
  import opened Jaxprs
  import opened Soundness
  import opened PartialEvaluation

  /** Each variable of the original that has been passed so far has its original value in the
      stage that its flag names. */
  ghost predicate Agree(unks: Unknowns, env: Env, env1: Env, env2: Env) {
    forall v :: v in unks ==>
      && v in env
      && (if unks[v] then v in env2 && env2[v] == env[v] else v in env1 && env1[v] == env[v])
  }

  ghost predicate Shared(residuals: set<Var>, env1: Env, env2: Env) {
    forall v :: v in residuals ==> v in env1 && v in env2 && env1[v] == env2[v]
  }

  lemma {:induction false} WriteUnksSpec(env: Unknowns, unks: seq<bool>, vs: seq<Var>)
    requires |unks| == |vs|
    ensures WriteUnks(env, unks, vs).Keys == env.Keys + ToSet(vs)
    ensures forall v :: v in WriteUnks(env, unks, vs) ==>
              || (v in env && v !in vs && WriteUnks(env, unks, vs)[v] == env[v])
              || exists i :: 0 <= i < |vs| && vs[i] == v && WriteUnks(env, unks, vs)[v] == unks[i]
    decreases vs
  {
    if vs != [] {
      var env1 := env[vs[0] := unks[0]];
      WriteUnksSpec(env1, unks[1..], vs[1..]);
      var r := WriteUnks(env1, unks[1..], vs[1..]);
      assert vs == [vs[0]] + vs[1..];
      forall v | v in r
        ensures (v in env && v !in vs && r[v] == env[v]) || exists i :: 0 <= i < |vs| && vs[i] == v && r[v] == unks[i]
      {
        if v in env1 && v !in vs[1..] && r[v] == env1[v] {
          if v == vs[0] {
            assert vs[0] == v && r[v] == unks[0];
          }
        } else {
          var i :| 0 <= i < |vs[1..]| && vs[1..][i] == v && r[v] == unks[1..][i];
          assert vs[i + 1] == v && r[v] == unks[i + 1];
        }
      }
    }
  }

  lemma {:induction false} GetsSelect(env: Env, bs: seq<bool>, b: bool, xs: seq<Atom>)
    requires |bs| == |xs| && AllBound(env.Keys, xs)
    ensures AllBound(env.Keys, Select(bs, b, xs))
    ensures Gets(env, Select(bs, b, xs)) == Select(bs, b, Gets(env, xs))
  {
    if bs != [] {
      assert Bound(env.Keys, xs[0]);
      GetsSelect(env, bs[1..], b, xs[1..]);
      assert Gets(env, xs[1..]) == Gets(env, xs)[1..];
      var tail := Select(bs[1..], b, xs[1..]);
      if bs[0] == b {
        assert Gets(env, [xs[0]] + tail) == [Get(env, xs[0])] + Gets(env, tail);
      }
    }
  }

  lemma {:induction false} AtomsSelect(bs: seq<bool>, b: bool, vs: seq<Var>)
    requires |bs| == |vs|
    ensures Select(bs, b, Atoms(vs)) == Atoms(Select(bs, b, vs))
  {
    if bs != [] {
      AtomsSelect(bs[1..], b, vs[1..]);
      assert Atoms(vs)[1..] == Atoms(vs[1..]);
      var tail := Select(bs[1..], b, vs[1..]);
      assert Atoms([vs[0]] + tail) == [V(vs[0])] + Atoms(tail);
    }
  }

  lemma GetsAppend(env: Env, xs: seq<Atom>, ys: seq<Atom>)
    requires AllBound(env.Keys, xs + ys)
    ensures AllBound(env.Keys, xs) && AllBound(env.Keys, ys)
    ensures Gets(env, xs + ys) == Gets(env, xs) + Gets(env, ys)
  {
  }

  lemma AtomsAppend(vs: seq<Var>, ws: seq<Var>)
    ensures Atoms(vs + ws) == Atoms(vs) + Atoms(ws)
  {
  }

  /** If two environments give the selected variables the same values, they agree on every
      variable that is selected. */
  lemma SelectedAgree(env: Env, env': Env, bs: seq<bool>, b: bool, vs: seq<Var>, i: nat)
    requires |bs| == |vs| && i < |vs| && bs[i] == b
    requires AllBound(env.Keys, Atoms(vs)) && AllBound(env'.Keys, Atoms(Select(bs, b, vs)))
    requires Gets(env', Atoms(Select(bs, b, vs))) == Select(bs, b, Gets(env, Atoms(vs)))
    ensures vs[i] in env && vs[i] in env' && env'[vs[i]] == env[vs[i]]
  {
    var chosen := Select(bs, b, vs);
    SelectMember(bs, b, vs, i);
    var k :| 0 <= k < |chosen| && chosen[k] == vs[i];
    GetsSelect(env, bs, b, Atoms(vs));
    AtomsSelect(bs, b, vs);
    GetsAtomsAt(env', chosen, k);
    GetsAtomsAt(env, chosen, k);
  }

  /** Known operands are residuals, so the second stage reads the values of the original. */
  lemma OperandsAgree(unks: Unknowns, xs: seq<Atom>, flags: seq<bool>, env: Env, env1: Env, env2: Env)
    requires Agree(unks, env, env1, env2) && Unks(unks, xs) == Some(flags)
    requires Shared(KnownVars(flags, xs), env1, env2)
    ensures AllBound(env.Keys, xs) && AllBound(env2.Keys, xs)
    ensures Gets(env2, xs) == Gets(env, xs)
  {
    forall i | 0 <= i < |xs|
      ensures Bound(env.Keys, xs[i]) && Bound(env2.Keys, xs[i]) && Get(env2, xs[i]) == Get(env, xs[i])
    {
      assert Bound(unks.Keys, xs[i]);
      if xs[i].V? && !flags[i] {
        assert xs[i].v in KnownVars(flags, xs);
      }
    }
  }

  /** The operands with flag `b` have their original values in the stage that `b` names. */
  lemma SelectedOperands(unks: Unknowns, xs: seq<Atom>, flags: seq<bool>, b: bool, env: Env, env1: Env, env2: Env)
    requires Agree(unks, env, env1, env2) && Unks(unks, xs) == Some(flags) && AllBound(env.Keys, xs)
    ensures var stage := if b then env2 else env1;
            && AllBound(stage.Keys, Select(flags, b, xs))
            && Gets(stage, Select(flags, b, xs)) == Select(flags, b, Gets(env, xs))
  {
    var stage := if b then env2 else env1;
    var chosen := Select(flags, b, xs);
    GetsSelect(env, flags, b, xs);
    forall k | 0 <= k < |chosen| ensures Bound(stage.Keys, chosen[k]) && Get(stage, chosen[k]) == Get(env, chosen[k]) {
      var i := SelectIndex(flags, b, xs, chosen[k]);
      assert Bound(unks.Keys, xs[i]);
    }
  }

  /** The outputs of one equation agree after its parts have run in the two stages. */
  ghost predicate OutsAgree(flags: seq<bool>, outs: seq<Var>, env: Env, env1: Env, env2: Env) {
    && |flags| == |outs|
    && forall i :: 0 <= i < |outs| ==>
         && outs[i] in env
         && (if flags[i] then outs[i] in env2 && env2[outs[i]] == env[outs[i]]
             else outs[i] in env1 && env1[outs[i]] == env[outs[i]])
  }

  lemma PrimAgree(m: Math, e: Eqn, unks: Unknowns, flags: seq<bool>, env: Env, env1: Env, env2: Env)
    requires e.PrimEqn? && Agree(unks, env, env1, env2) && Unks(unks, e.inputs) == Some(flags)
    requires Sat(m, e, env)
    requires if true in flags
             then Sat(m, e, env2) && Shared(KnownVars(flags, e.inputs), env1, env2)
             else Sat(m, e, env1)
    ensures OutsAgree(Repeat(true in flags, |e.outs|), e.outs, env, env1, env2)
  {
    if true in flags {
      OperandsAgree(unks, e.inputs, flags, env, env1, env2);
    } else {
      forall i | 0 <= i < |e.inputs| ensures Get(env1, e.inputs[i]) == Get(env, e.inputs[i]) {
        assert Bound(unks.Keys, e.inputs[i]) && !flags[i];
      }
      assert Gets(env1, e.inputs) == Gets(env, e.inputs);
    }
    forall i | 0 <= i < |e.outs|
      ensures e.outs[i] in env
      ensures if true in flags then e.outs[i] in env2 && env2[e.outs[i]] == env[e.outs[i]]
              else e.outs[i] in env1 && env1[e.outs[i]] == env[e.outs[i]]
    {
      GetsAtomsAt(env, e.outs, i);
      GetsAtomsAt(if true in flags then env2 else env1, e.outs, i);
    }
  }

  /** What the two stages of a call or a conditional compute, from outputs `first` of the first
      and `second` of the second, is what the original computes. */
  lemma HigherOrderAgree(outUnks: seq<bool>, outs: seq<Var>, residuals: seq<Var>,
                         first: seq<Val>, second: seq<Val>, env: Env, env1: Env, env2: Env)
    requires |outUnks| == |outs| && AllBound(env.Keys, Atoms(outs))
    requires AllBound(env1.Keys, Atoms(Select(outUnks, false, outs) + residuals))
    requires Gets(env1, Atoms(Select(outUnks, false, outs) + residuals)) == first
    requires AllBound(env2.Keys, Atoms(Select(outUnks, true, outs)))
    requires Gets(env2, Atoms(Select(outUnks, true, outs))) == second
    requires |residuals| <= |first|
    requires Merge(outUnks, first[..|first| - |residuals|], second) == Some(Gets(env, Atoms(outs)))
    ensures OutsAgree(outUnks, outs, env, env1, env2)
  {
    var known := Select(outUnks, false, outs);
    AtomsAppend(known, residuals);
    GetsAppend(env1, Atoms(known), Atoms(residuals));
    assert first[..|first| - |residuals|] == Gets(env1, Atoms(known));
    SelectMerge(outUnks, first[..|first| - |residuals|], second);
    forall i | 0 <= i < |outs|
      ensures outs[i] in env
      ensures if outUnks[i] then outs[i] in env2 && env2[outs[i]] == env[outs[i]]
              else outs[i] in env1 && env1[outs[i]] == env[outs[i]]
    {
      if outUnks[i] {
        SelectedAgree(env, env2, outUnks, true, outs, i);
      } else {
        SelectedAgree(env, env1, outUnks, false, outs, i);
      }
    }
  }

  lemma ResidualValues(residuals: seq<Var>, known: seq<Var>, first: seq<Val>, env1: Env, env2: Env)
    requires AllBound(env1.Keys, Atoms(known + residuals)) && Gets(env1, Atoms(known + residuals)) == first
    requires Shared(ToSet(residuals), env1, env2)
    ensures AllBound(env2.Keys, Atoms(residuals))
    ensures Gets(env2, Atoms(residuals)) == first[|first| - |residuals|..]
  {
  }

  /** The shape of a split of `j`. */
  ghost predicate SplitOf(j: Jaxpr, unks: seq<bool>, s: Split) {
    && |unks| == |j.binders| && |s.outUnks| == |j.outs|
    && TypecheckSplit(j, unks, s.outUnks, s.known, s.unknown)
    && s.numRes <= |s.unknown.binders|
    && var res := s.unknown.binders[..s.numRes];
    && s.known.binders == Select(unks, false, j.binders)
    && s.unknown.binders == res + Select(unks, true, j.binders)
    && s.known.outs == Select(s.outUnks, false, j.outs) + Atoms(res)
    && s.unknown.outs == Select(s.outUnks, true, j.outs)
  }

  lemma SplitShape(order: Order, j: Jaxpr, unks: seq<bool>, instantiate: Option<seq<bool>>, next: nat)
    requires PartialEval(order, j, unks, instantiate, next).Some?
    ensures SplitOf(j, unks, PartialEval(order, j, unks, instantiate, next).value)
  {
    hide Typecheck, Select, PevalEqns;
    var p := PevalEqns(order, j.eqns, WriteUnks(map[], unks, j.binders), next).value;
    var s := FinishSplit(order, j, unks, instantiate, p).value;
    var res := s.unknown.binders[..s.numRes];
    assert s.unknown.binders == res + Select(unks, true, j.binders);
  }

  lemma TypecheckTypes(j: Jaxpr)
    requires Typecheck(j).Some?
    ensures Typecheck(j).value.inTypes == Avals(j.binders)
    ensures Typecheck(j).value.outTypes == AtomTys(j.outs)
  {
  }

  lemma SelectTys(outUnks: seq<bool>, b: bool, xs: seq<Atom>)
    requires |outUnks| == |xs|
    ensures Select(outUnks, b, AtomTys(xs)) == AtomTys(Select(outUnks, b, xs))
  {
    SelectPointwise(outUnks, b, xs, AtomTys(xs), AtomTy);
  }

  /** A conditional branch, joined with the residuals of the other one, passes them as zeros
      (`zs` before its own residuals or `ws` after them) and otherwise runs as before. */
  lemma BranchStages(m: Math, j: Jaxpr, s: Split, known: Jaxpr, unknown: Jaxpr, unks: seq<bool>, args: seq<Val>,
                     pre: seq<Var>, post: seq<Var>, zs: seq<Val>, ws: seq<Val>)
    requires |unks| == |args|
    requires SplitOf(j, unks, s) && TypesOf(args) == Avals(j.binders)
    requires Typecheck(known).Some? && Typecheck(unknown).Some?
    requires TypesOf(zs) == Avals(pre) && TypesOf(ws) == Avals(post)
    requires var k := |s.known.outs| - s.numRes;
             known == Jaxpr(s.known.binders, s.known.eqns,
                            s.known.outs[..k] + Lits(zs) + s.known.outs[k..] + Lits(ws))
    requires unknown == Jaxpr(pre + s.unknown.binders[..s.numRes] + post + s.unknown.binders[s.numRes..],
                              s.unknown.eqns, s.unknown.outs)
    ensures Eval(m, s.known, Select(unks, false, args)).Some?
    ensures var o := Eval(m, s.known, Select(unks, false, args)).value;
            var k := |s.known.outs| - s.numRes;
            && |o| == |s.known.outs|
            && Eval(m, known, Select(unks, false, args)) == Some(o[..k] + zs + o[k..] + ws)
            && Eval(m, unknown, zs + o[k..] + ws + Select(unks, true, args))
               == Eval(m, s.unknown, o[k..] + Select(unks, true, args))
  {
    hide Eval, FinalEnv, Typecheck, Select;
    var a1, a2 := Select(unks, false, args), Select(unks, true, args);
    var k := |s.known.outs| - s.numRes;
    StageTypes(m, j, s, unks, args);
    var o := Eval(m, s.known, a1).value;
    PaddedOutputs(m, s.known, known, a1, k, zs, ws);
    var b1, b2 := s.unknown.binders[..s.numRes], s.unknown.binders[s.numRes..];
    assert s.unknown.binders == b1 + b2;
    Widen(m, s.unknown, unknown, pre, b1, post, b2, zs, o[k..], ws, a2);
  }

  lemma PaddedOutputs(m: Math, j: Jaxpr, j': Jaxpr, a: seq<Val>, k: nat, zs: seq<Val>, ws: seq<Val>)
    requires Eval(m, j, a).Some? && k <= |j.outs|
    requires j' == Jaxpr(j.binders, j.eqns, j.outs[..k] + Lits(zs) + j.outs[k..] + Lits(ws))
    ensures |Eval(m, j, a).value| == |j.outs|
    ensures Eval(m, j', a) == Some(Eval(m, j, a).value[..k] + zs + Eval(m, j, a).value[k..] + ws)
  {
    var env := FinalEnv(m, j, a).value;
    forall x | x in j'.outs ensures Bound(env.Keys, x) {
      assert x in Lits(zs) || x in Lits(ws) || x in j.outs;
    }
    assert Gets(env, j'.outs) == Gets(env, j.outs)[..k] + zs + Gets(env, j.outs)[k..] + ws;
  }

  /** The values that reach the second stage have the types of its binders. */
  lemma StageTypes(m: Math, j: Jaxpr, s: Split, unks: seq<bool>, args: seq<Val>)
    requires |unks| == |args|
    requires SplitOf(j, unks, s) && TypesOf(args) == Avals(j.binders)
    ensures TypesOf(Select(unks, false, args)) == Typecheck(s.known).value.inTypes
    ensures Eval(m, s.known, Select(unks, false, args)).Some?
    ensures var o := Eval(m, s.known, Select(unks, false, args)).value;
            var k := |s.known.outs| - s.numRes;
            && |o| == |s.known.outs|
            && TypesOf(o[k..]) == Avals(s.unknown.binders[..s.numRes])
            && TypesOf(Select(unks, true, args)) == Avals(s.unknown.binders[s.numRes..])
            && TypesOf(o[k..] + Select(unks, true, args)) == Typecheck(s.unknown).value.inTypes
  {
    hide Eval, FinalEnv, Typecheck, Select;
    var a1, a2 := Select(unks, false, args), Select(unks, true, args);
    var k := |s.known.outs| - s.numRes;
    TypecheckTypes(j);
    TypecheckTypes(s.known);
    TypecheckTypes(s.unknown);
    SelectTys(s.outUnks, false, j.outs);
    SelectTypes(unks, false, args);
    SelectTypes(unks, true, args);
    EvalSound(m, s.known, a1);
    var o := Eval(m, s.known, a1).value;
    assert |o| == |s.known.outs|;
    var res := o[k..];
    assert TypesOf(res) == TypesOf(o)[k..];
    var b1, b2 := s.unknown.binders[..s.numRes], s.unknown.binders[s.numRes..];
    var tys := Avals(s.unknown.binders);
    assert tys == TypesOf(res) + TypesOf(a2);
    assert Avals(b1) == tys[..s.numRes] && Avals(b2) == tys[s.numRes..];
    TypesAppend(res, a2);
  }

  lemma SelectTypes(unks: seq<bool>, b: bool, args: seq<Val>)
    requires |unks| == |args|
    ensures TypesOf(Select(unks, b, args)) == Select(unks, b, TypesOf(args))
  {
    SelectPointwise(unks, b, args, TypesOf(args), TypeOf);
  }

  lemma TypesAppend(xs: seq<Val>, ys: seq<Val>)
    ensures TypesOf(xs + ys) == TypesOf(xs) + TypesOf(ys)
  {
  }

  lemma AvalsAppend(vs: seq<Var>, ws: seq<Var>)
    ensures Avals(vs + ws) == Avals(vs) + Avals(ws)
  {
  }

  /** Binding more inputs than a jaxpr uses does not change what it computes. */
  lemma Widen(m: Math, j: Jaxpr, j': Jaxpr, pre: seq<Var>, b1: seq<Var>, post: seq<Var>, b2: seq<Var>,
              zs: seq<Val>, a1: seq<Val>, ws: seq<Val>, a2: seq<Val>)
    requires Typecheck(j).Some? && Typecheck(j').Some?
    requires j.binders == b1 + b2 && j' == Jaxpr(pre + b1 + post + b2, j.eqns, j.outs)
    requires TypesOf(zs) == Avals(pre) && TypesOf(a1) == Avals(b1) && TypesOf(ws) == Avals(post)
             && TypesOf(a2) == Avals(b2)
    ensures Eval(m, j', zs + a1 + ws + a2).Some?
    ensures Eval(m, j', zs + a1 + ws + a2) == Eval(m, j, a1 + a2)
  {
    hide Eval, FinalEnv, TypecheckEqns;
    var args := zs + a1 + ws + a2;
    TypesAppend(zs, a1);
    TypesAppend(zs + a1, ws);
    TypesAppend(zs + a1 + ws, a2);
    AvalsAppend(pre, b1);
    AvalsAppend(pre + b1, post);
    AvalsAppend(pre + b1 + post, b2);
    EvalSound(m, j', args);
    var env := FinalEnv(m, j', args).value;
    SubBinders(env, pre, b1, post, b2, zs, a1, ws, a2);
    EvalUnique(m, j, a1 + a2, env);
  }

  lemma SubBinders(env: Env, pre: seq<Var>, b1: seq<Var>, post: seq<Var>, b2: seq<Var>,
                   zs: seq<Val>, a1: seq<Val>, ws: seq<Val>, a2: seq<Val>)
    requires |zs| == |pre| && |a1| == |b1| && |ws| == |post| && |a2| == |b2|
    requires AllBound(env.Keys, Atoms(pre + b1 + post + b2))
    requires Gets(env, Atoms(pre + b1 + post + b2)) == zs + a1 + ws + a2
    ensures AllBound(env.Keys, Atoms(b1 + b2)) && Gets(env, Atoms(b1 + b2)) == a1 + a2
  {
    forall i | 0 <= i < |b1 + b2|
      ensures (b1 + b2)[i] in env && env[(b1 + b2)[i]] == (a1 + a2)[i]
    {
      var k := if i < |b1| then |pre| + i else |pre| + |post| + i;
      assert (b1 + b2)[i] == (pre + b1 + post + b2)[k];
      GetsAtomsAt(env, pre + b1 + post + b2, k);
    }
    GetsAtoms(env, b1 + b2, a1 + a2);
  }

  /** Running the two stages that _cond_partial_eval makes of the two branches. */
  function RunCondSplit(m: Math, c: CondSplit, pred: Val, unks: seq<bool>, args: seq<Val>): Option<seq<Val>>
    requires |unks| == |args|
  {
    var first :- Eval(m, if Truthy(pred) then c.trueKnown else c.falseKnown, Select(unks, false, args));
    var k := |first| - c.numRes;
    if k < 0 then None
    else
      var second :- Eval(m, if Truthy(pred) then c.trueUnknown else c.falseUnknown,
                         first[k..] + Select(unks, true, args));
      Merge(c.outUnks, first[..k], second)
  }

  lemma CutAt<T>(xs: seq<T>, zs: seq<T>, rs: seq<T>, ws: seq<T>, k: nat)
    requires |xs| == k
    ensures var all := xs + zs + rs + ws;
            |all| == k + |zs| + |rs| + |ws| && all[..k] == xs && all[k..] == zs + rs + ws
  {
  }

  lemma RunSplitBranch(m: Math, s: Split, unks: seq<bool>, args: seq<Val>, n: nat,
                       known: Jaxpr, unknown: Jaxpr, zs: seq<Val>, ws: seq<Val>)
    requires |unks| == |args|
    requires Eval(m, s.known, Select(unks, false, args)).Some?
    requires var o := Eval(m, s.known, Select(unks, false, args)).value;
             && s.numRes <= |o| && n == |zs| + s.numRes + |ws|
             && var k := |o| - s.numRes;
             && Eval(m, known, Select(unks, false, args)) == Some(o[..k] + zs + o[k..] + ws)
             && Eval(m, unknown, zs + o[k..] + ws + Select(unks, true, args))
                == Eval(m, s.unknown, o[k..] + Select(unks, true, args))
    ensures var first := Eval(m, known, Select(unks, false, args)).value;
            var k := |first| - n;
            && k >= 0
            && RunSplit(m, s, unks, args) ==
               (var second := Eval(m, unknown, first[k..] + Select(unks, true, args));
                if second.None? then None else Merge(s.outUnks, first[..k], second.value))
  {
    hide Eval, Select, Merge;
    var o := Eval(m, s.known, Select(unks, false, args)).value;
    var k := |o| - s.numRes;
    CutAt(o[..k], zs, o[k..], ws, k);
  }

  /** The second pair of partial evaluations inside _cond_partial_eval, and what is joined. */
  lemma CondParts(order: Order, e: Eqn, unks: seq<bool>, next: nat)
    returns (t: Split, f: Split, nt: nat, nf: nat)
    requires e.CondEqn? && CondPartialEval(order, e, unks, next).Some?
    ensures var c := CondPartialEval(order, e, unks, next).value;
            && PartialEval(order, e.onTrue, unks, Some(c.outUnks), nt) == Some(t)
            && PartialEval(order, e.onFalse, unks, Some(c.outUnks), nf) == Some(f)
            && t.outUnks == c.outUnks && f.outUnks == c.outUnks && c.numRes == t.numRes + f.numRes
            && JoinRes(t.known, f.known, t.numRes, f.numRes) == Some((c.trueKnown, c.falseKnown))
            && JoinConsts(t.unknown, f.unknown, t.numRes, f.numRes) == Some((c.trueUnknown, c.falseUnknown))
            && Typecheck(c.trueKnown).Some? && Typecheck(c.falseKnown) == Typecheck(c.trueKnown)
            && Typecheck(c.trueUnknown).Some? && Typecheck(c.falseUnknown) == Typecheck(c.trueUnknown)
    ensures SplitOf(e.onTrue, unks, t) && SplitOf(e.onFalse, unks, f)
  {
    hide PartialEval, Typecheck, JoinRes, JoinConsts, Select;
    var t0 := PartialEval(order, e.onTrue, unks, None, next).value;
    var f0 := PartialEval(order, e.onFalse, unks, None, t0.next).value;
    var inst := Or(t0.outUnks, f0.outUnks);
    nt := f0.next;
    t := PartialEval(order, e.onTrue, unks, Some(inst), nt).value;
    nf := t.next;
    f := PartialEval(order, e.onFalse, unks, Some(inst), nf).value;
    SplitShape(order, e.onTrue, unks, Some(inst), nt);
    SplitShape(order, e.onFalse, unks, Some(inst), nf);
    InstantiatedUnks(order, e.onTrue, unks, t0, inst, next, nt);
    InstantiatedUnks(order, e.onFalse, unks, f0, inst, t0.next, nf);
    assert Or(t0.outUnks, inst) == inst && Or(f0.outUnks, inst) == inst;
  }

  lemma BranchCorrect(m: Math, j: Jaxpr, s: Split, known: Jaxpr, unknown: Jaxpr, unks: seq<bool>, args: seq<Val>,
                      pre: seq<Var>, post: seq<Var>, n: nat)
    requires |unks| == |args| && SplitOf(j, unks, s) && TypesOf(args) == Avals(j.binders)
    requires Typecheck(known).Some? && Typecheck(unknown).Some? && n == |pre| + s.numRes + |post|
    requires var k := |s.known.outs| - s.numRes;
             known == Jaxpr(s.known.binders, s.known.eqns,
                            s.known.outs[..k] + Lits(Zeros(Avals(pre))) + s.known.outs[k..] + Lits(Zeros(Avals(post))))
    requires unknown == Jaxpr(pre + s.unknown.binders[..s.numRes] + post + s.unknown.binders[s.numRes..],
                              s.unknown.eqns, s.unknown.outs)
    ensures Eval(m, known, Select(unks, false, args)).Some?
    ensures var first := Eval(m, known, Select(unks, false, args)).value;
            var k := |first| - n;
            && k >= 0
            && RunSplit(m, s, unks, args) ==
               (var second := Eval(m, unknown, first[k..] + Select(unks, true, args));
                if second.None? then None else Merge(s.outUnks, first[..k], second.value))
  {
    hide Eval, Typecheck, Select, Merge;
    var zs, ws := Zeros(Avals(pre)), Zeros(Avals(post));
    BranchStages(m, j, s, known, unknown, unks, args, pre, post, zs, ws);
    RunSplitBranch(m, s, unks, args, n, known, unknown, zs, ws);
  }

  /** Partial evaluation of a conditional preserves meaning, for either value of the predicate:
      the branch that is not taken contributes zeros in place of its residuals. */
  lemma {:induction false} CondPartialEvalCorrect(m: Math, order: Order, e: Eqn, unks: seq<bool>, next: nat,
                                                  pred: Val, args: seq<Val>)
    requires IsOrder(order) && e.CondEqn? && CondPartialEval(order, e, unks, next).Some?
    requires Typecheck(e.onTrue).Some? && Typecheck(e.onTrue) == Typecheck(e.onFalse)
    requires TypesOf(args) == Avals(e.onTrue.binders)
    ensures |unks| == |args|
    ensures var c := CondPartialEval(order, e, unks, next).value;
            && Bind(m, e, [pred] + args).Some?
            && RunCondSplit(m, c, pred, unks, args) == Bind(m, e, [pred] + args)
    decreases e, 0
  {
    hide PartialEval, CondPartialEval, Eval, Typecheck, Select, Merge, RunSplit;
    var c := CondPartialEval(order, e, unks, next).value;
    var t, f, nt, nf := CondParts(order, e, unks, next);
    TypecheckTypes(e.onTrue);
    TypecheckTypes(e.onFalse);
    assert ([pred] + args)[1..] == args;
    var tRes, fRes := t.unknown.binders[..t.numRes], f.unknown.binders[..f.numRes];
    JoinedKnown(t.known, f.known, t.numRes, f.numRes, tRes, fRes);
    JoinedUnknown(t.unknown, f.unknown, t.numRes, f.numRes);
    if Truthy(pred) {
      PartialEvalCorrect(m, order, e.onTrue, unks, Some(c.outUnks), nt, args);
      BranchCorrect(m, e.onTrue, t, c.trueKnown, c.trueUnknown, unks, args, [], fRes, c.numRes);
    } else {
      PartialEvalCorrect(m, order, e.onFalse, unks, Some(c.outUnks), nf, args);
      BranchCorrect(m, e.onFalse, f, c.falseKnown, c.falseUnknown, unks, args, tRes, [], c.numRes);
    }
  }

  lemma JoinedKnown(j1: Jaxpr, j2: Jaxpr, n1: nat, n2: nat, res1: seq<Var>, res2: seq<Var>)
    requires n1 <= |j1.outs| && n2 <= |j2.outs| && JoinRes(j1, j2, n1, n2).Some?
    requires j1.outs[|j1.outs| - n1..] == Atoms(res1) && j2.outs[|j2.outs| - n2..] == Atoms(res2)
    ensures var k1, k2 := |j1.outs| - n1, |j2.outs| - n2;
            && JoinRes(j1, j2, n1, n2).value.0 ==
               Jaxpr(j1.binders, j1.eqns,
                     j1.outs[..k1] + Lits(Zeros(Avals([]))) + j1.outs[k1..] + Lits(Zeros(Avals(res2))))
            && JoinRes(j1, j2, n1, n2).value.1 ==
               Jaxpr(j2.binders, j2.eqns,
                     j2.outs[..k2] + Lits(Zeros(Avals(res1))) + j2.outs[k2..] + Lits(Zeros(Avals([]))))
  {
    hide Typecheck;
    var k1, k2 := |j1.outs| - n1, |j2.outs| - n2;
    var none := Lits(Zeros(Avals([])));
    ZerosOfAtoms(res1);
    ZerosOfAtoms(res2);
    AppendNothing(j1.outs[..k1], none);
    AppendNothing(j2.outs[..k2] + Lits(Zeros(Avals(res1))) + j2.outs[k2..], none);
  }

  lemma JoinedUnknown(j1: Jaxpr, j2: Jaxpr, n1: nat, n2: nat)
    requires n1 <= |j1.binders| && n2 <= |j2.binders| && JoinConsts(j1, j2, n1, n2).Some?
    ensures var res1, res2 := j1.binders[..n1], j2.binders[..n2];
            && JoinConsts(j1, j2, n1, n2).value.0 == Jaxpr([] + res1 + res2 + j1.binders[n1..], j1.eqns, j1.outs)
            && JoinConsts(j1, j2, n1, n2).value.1 == Jaxpr(res1 + res2 + [] + j2.binders[n2..], j2.eqns, j2.outs)
  {
    hide Typecheck;
    AppendNothing(j1.binders[..n1] + j2.binders[..n2], []);
    assert [] + j1.binders[..n1] == j1.binders[..n1];
  }

  lemma AppendNothing<T>(xs: seq<T>, none: seq<T>)
    requires none == []
    ensures xs + none == xs
  {
  }

  lemma ZerosOfAtoms(vs: seq<Var>)
    ensures Zeros(AtomTys(Atoms(vs))) == Zeros(Avals(vs))
    ensures TypesOf(Zeros(Avals(vs))) == Avals(vs)
  {
  }

  /** Which outputs are unknown does not depend on the names of fresh variables. */
  lemma {:induction false} UnksIndependent(order: Order, j: Jaxpr, unks: seq<bool>, n0: nat, n1: nat)
    requires PartialEval(order, j, unks, None, n0).Some? && |unks| == |j.binders|
    ensures PevalEqns(order, j.eqns, WriteUnks(map[], unks, j.binders), n1).Some? ==>
              PevalEqns(order, j.eqns, WriteUnks(map[], unks, j.binders), n1).value.env
              == PevalEqns(order, j.eqns, WriteUnks(map[], unks, j.binders), n0).value.env
    decreases j, 1
  {
    if PevalEqns(order, j.eqns, WriteUnks(map[], unks, j.binders), n1).Some? {
      EqnsIndependent(order, j.eqns, WriteUnks(map[], unks, j.binders), n0, n1);
    }
  }

  lemma {:induction false} EqnsIndependent(order: Order, eqns: seq<Eqn>, env: Unknowns, n0: nat, n1: nat)
    requires PevalEqns(order, eqns, env, n0).Some? && PevalEqns(order, eqns, env, n1).Some?
    ensures PevalEqns(order, eqns, env, n0).value.env == PevalEqns(order, eqns, env, n1).value.env
    decreases eqns, 0
  {
    if eqns != [] {
      var unks := Unks(env, eqns[0].inputs).value;
      var s0, s1 := PevalEqn(order, unks, eqns[0], n0).value, PevalEqn(order, unks, eqns[0], n1).value;
      EqnIndependent(order, unks, eqns[0], n0, n1);
      EqnsIndependent(order, eqns[1..], WriteUnks(env, s0.outUnks, eqns[0].outs), s0.next, s1.next);
    }
  }

  lemma {:induction false} EqnIndependent(order: Order, unks: seq<bool>, e: Eqn, n0: nat, n1: nat)
    requires |unks| == |e.inputs|
    requires PevalEqn(order, unks, e, n0).Some? && PevalEqn(order, unks, e, n1).Some?
    ensures PevalEqn(order, unks, e, n0).value.outUnks == PevalEqn(order, unks, e, n1).value.outUnks
    decreases e, 1
  {
    hide PartialEval, Typecheck, JoinRes, JoinConsts, Select;
    match e
    case PrimEqn(_, _, _) =>
    case CallEqn(body, _, _) =>
      OutUnksIndependent(order, body, unks, n0, n1);
    case CondEqn(onTrue, onFalse, _, _) =>
      var t0 := PartialEval(order, onTrue, unks[1..], None, n0).value;
      var t1 := PartialEval(order, onTrue, unks[1..], None, n1).value;
      OutUnksIndependent(order, onTrue, unks[1..], n0, n1);
      OutUnksIndependent(order, onFalse, unks[1..], t0.next, t1.next);
  }

  lemma {:induction false} OutUnksIndependent(order: Order, j: Jaxpr, unks: seq<bool>, n0: nat, n1: nat)
    requires PartialEval(order, j, unks, None, n0).Some? && PartialEval(order, j, unks, None, n1).Some?
    ensures PartialEval(order, j, unks, None, n0).value.outUnks == PartialEval(order, j, unks, None, n1).value.outUnks
    decreases j, 2
  {
    UnksIndependent(order, j, unks, n0, n1);
  }

  /** Asking for more outputs to be delayed delays exactly those outputs. */
  lemma InstantiatedUnks(order: Order, j: Jaxpr, unks: seq<bool>, s0: Split, inst: seq<bool>, n0: nat, n1: nat)
    requires PartialEval(order, j, unks, None, n0) == Some(s0)
    requires PartialEval(order, j, unks, Some(inst), n1).Some?
    ensures PartialEval(order, j, unks, Some(inst), n1).value.outUnks == Or(s0.outUnks, inst)
    ensures |inst| == |j.outs| == |s0.outUnks|
  {
    UnksIndependent(order, j, unks, n0, n1);
    var s1 := PartialEval(order, j, unks, Some(inst), n1).value;
    assert s1.outUnks == Or(s0.outUnks, inst);
  }

  /** Partial evaluation of one equation: the parts that it contributes to the two stages give
      its outputs their original values, each in the stage that its flag names. */
  lemma {:induction false} EqnAgree(m: Math, order: Order, e: Eqn, unks: Unknowns, flags: seq<bool>, next: nat,
                                    env: Env, env1: Env, env2: Env)
    requires IsOrder(order) && WellTyped(env)
    requires Agree(unks, env, env1, env2) && Unks(unks, e.inputs) == Some(flags)
    requires AbstractEval(e, AtomTys(e.inputs)).Some? && PevalEqn(order, flags, e, next).Some?
    requires Sat(m, e, env)
    requires var s := PevalEqn(order, flags, e, next).value;
             SatAll(m, s.known, env1) && SatAll(m, s.unknown, env2) && Shared(s.residuals, env1, env2)
    ensures OutsAgree(PevalEqn(order, flags, e, next).value.outUnks, e.outs, env, env1, env2)
    decreases e, 1
  {
    hide Typecheck, Select, PartialEval, Eval, Merge;
    var s := PevalEqn(order, flags, e, next).value;
    GetsTyped(env, e.inputs);
    match e
    case PrimEqn(_, _, _) =>
      assert if true in flags then e in s.unknown else e in s.known;
      PrimAgree(m, e, unks, flags, env, env1, env2);
    case CallEqn(body, inputs, outs) =>
      var b := PartialEval(order, body, flags, None, next).value;
      TypecheckTypes(body);
      PartialEvalCorrect(m, order, body, flags, None, next, Gets(env, inputs));
      CallAgree(m, b, e, s, unks, flags, env, env1, env2);
    case CondEqn(onTrue, onFalse, inputs, outs) =>
      var vals := Gets(env, inputs);
      assert [vals[0]] + vals[1..] == vals;
      assert TypesOf(vals[1..]) == TypesOf(vals)[1..];
      TypecheckTypes(onTrue);
      CondPartialEvalCorrect(m, order, e, flags[1..], next, vals[0], vals[1..]);
      var c := CondPartialEval(order, e, flags[1..], next).value;
      CondAgree(m, c, e, s, unks, flags, env, env1, env2);
  }

  lemma CallAgree(m: Math, b: Split, e: Eqn, s: EqnSplit, unks: Unknowns, flags: seq<bool>,
                  env: Env, env1: Env, env2: Env)
    requires Agree(unks, env, env1, env2) && Unks(unks, e.inputs) == Some(flags)
    requires e.CallEqn? && Sat(m, e, env) && CallSplit(b, flags, e.inputs, e.outs) == Some(s)
    requires RunSplit(m, b, flags, Gets(env, e.inputs)) == Eval(m, e.body, Gets(env, e.inputs))
    requires SatAll(m, s.known, env1) && SatAll(m, s.unknown, env2) && Shared(s.residuals, env1, env2)
    ensures OutsAgree(s.outUnks, e.outs, env, env1, env2)
  {
    hide Eval, Merge, Select;
    var residuals := FreshVars(Avals(b.unknown.binders[..b.numRes]), b.next);
    var args := Gets(env, e.inputs);
    var eqn1, eqn2 := s.known[0], s.unknown[0];
    assert Sat(m, eqn1, env1) && Sat(m, eqn2, env2);
    SelectedOperands(unks, e.inputs, flags, false, env, env1, env2);
    SelectedOperands(unks, e.inputs, flags, true, env, env1, env2);
    var first := Gets(env1, Atoms(eqn1.outs));
    assert Eval(m, b.known, Select(flags, false, args)) == Some(first);
    ResidualValues(residuals, Select(b.outUnks, false, e.outs), first, env1, env2);
    GetsAppend(env2, Atoms(residuals), Select(flags, true, e.inputs));
    var second := Gets(env2, Atoms(eqn2.outs));
    assert Eval(m, b.unknown, first[|first| - b.numRes..] + Select(flags, true, args)) == Some(second);
    HigherOrderAgree(b.outUnks, e.outs, residuals, first, second, env, env1, env2);
  }

  lemma CondAgree(m: Math, c: CondSplit, e: Eqn, s: EqnSplit, unks: Unknowns, flags: seq<bool>,
                  env: Env, env1: Env, env2: Env)
    requires Agree(unks, env, env1, env2) && Unks(unks, e.inputs) == Some(flags)
    requires e.CondEqn? && Sat(m, e, env) && |e.inputs| > 0 && !flags[0]
    requires CondEqnSplit(c, flags[1..], e.inputs[0], e.inputs[1..], e.outs) == Some(s)
    requires var vals := Gets(env, e.inputs);
             RunCondSplit(m, c, vals[0], flags[1..], vals[1..]) == Bind(m, e, vals)
    requires SatAll(m, s.known, env1) && SatAll(m, s.unknown, env2) && Shared(s.residuals, env1, env2)
    ensures OutsAgree(s.outUnks, e.outs, env, env1, env2)
  {
    hide Eval, Merge, Select;
    var residuals := c.trueUnknown.binders[..c.numRes];
    var pred, rest := e.inputs[0], e.inputs[1..];
    var vals := Gets(env, e.inputs);
    var args := vals[1..];
    var eqn1, eqn2 := s.known[0], s.unknown[0];
    assert Sat(m, eqn1, env1) && Sat(m, eqn2, env2);
    assert Bound(unks.Keys, pred);
    UnksTail(unks, e.inputs, flags);
    assert Gets(env, rest) == args;
    SelectedOperands(unks, rest, flags[1..], false, env, env1, env2);
    SelectedOperands(unks, rest, flags[1..], true, env, env1, env2);
    PredicateFirst(env1, pred, Select(flags[1..], false, rest));
    var first := Gets(env1, Atoms(eqn1.outs));
    ResidualValues(residuals, Select(c.outUnks, false, e.outs), first, env1, env2);
    var late := Atoms(residuals) + Select(flags[1..], true, rest);
    PredicateFirst(env2, pred, late);
    GetsAppend(env2, Atoms(residuals), Select(flags[1..], true, rest));
    var second := Gets(env2, Atoms(eqn2.outs));
    assert pred.V? ==> pred.v in s.residuals;
    HigherOrderAgree(c.outUnks, e.outs, residuals, first, second, env, env1, env2);
  }

  lemma UnksTail(unks: Unknowns, xs: seq<Atom>, flags: seq<bool>)
    requires Unks(unks, xs) == Some(flags) && |xs| > 0
    ensures Unks(unks, xs[1..]) == Some(flags[1..])
  {
    assert AllBound(unks.Keys, xs[1..]);
    assert Unks(unks, xs[1..]).value == flags[1..];
  }

  lemma PredicateFirst(env: Env, pred: Atom, xs: seq<Atom>)
    requires AllBound(env.Keys, [pred] + xs)
    ensures Bound(env.Keys, pred) && AllBound(env.Keys, xs)
    ensures Gets(env, [pred] + xs)[0] == Get(env, pred) && Gets(env, [pred] + xs)[1..] == Gets(env, xs)
  {
  }

  lemma AgreeAfter(unks: Unknowns, flags: seq<bool>, outs: seq<Var>, env: Env, env1: Env, env2: Env)
    requires Agree(unks, env, env1, env2) && OutsAgree(flags, outs, env, env1, env2)
    ensures Agree(WriteUnks(unks, flags, outs), env, env1, env2)
  {
    WriteUnksSpec(unks, flags, outs);
  }

  lemma {:induction false} EqnsAgree(m: Math, order: Order, eqns: seq<Eqn>, bound: set<Var>, unks: Unknowns, next: nat,
                                     env: Env, env1: Env, env2: Env)
    requires IsOrder(order) && WellTyped(env)
    requires TypecheckEqns(bound, eqns).Some? && PevalEqns(order, eqns, unks, next).Some?
    requires Agree(unks, env, env1, env2) && SatAll(m, eqns, env)
    requires var p := PevalEqns(order, eqns, unks, next).value;
             SatAll(m, p.known, env1) && SatAll(m, p.unknown, env2) && Shared(p.residuals, env1, env2)
    ensures Agree(PevalEqns(order, eqns, unks, next).value.env, env, env1, env2)
    decreases eqns, 0
  {
    if eqns != [] {
      var e := eqns[0];
      var flags := Unks(unks, e.inputs).value;
      var s := PevalEqn(order, flags, e, next).value;
      assert Sat(m, e, env);
      EqnAgree(m, order, e, unks, flags, next, env, env1, env2);
      AgreeAfter(unks, s.outUnks, e.outs, env, env1, env2);
      EqnsAgree(m, order, eqns[1..], TypecheckEqn(bound, e).value, WriteUnks(unks, s.outUnks, e.outs), s.next,
                env, env1, env2);
    }
  }

  lemma BindersAgree(j: Jaxpr, unks: seq<bool>, args: seq<Val>, s: Split, res: seq<Val>, env: Env, env1: Env, env2: Env)
    requires |unks| == |args| == |j.binders| && s.numRes == |res| <= |s.unknown.binders|
    requires s.known.binders == Select(unks, false, j.binders)
    requires s.unknown.binders == s.unknown.binders[..s.numRes] + Select(unks, true, j.binders)
    requires AllBound(env.Keys, Atoms(j.binders)) && Gets(env, Atoms(j.binders)) == args
    requires AllBound(env1.Keys, Atoms(s.known.binders))
    requires Gets(env1, Atoms(s.known.binders)) == Select(unks, false, args)
    requires AllBound(env2.Keys, Atoms(s.unknown.binders))
    requires Gets(env2, Atoms(s.unknown.binders)) == res + Select(unks, true, args)
    ensures Agree(WriteUnks(map[], unks, j.binders), env, env1, env2)
  {
    var late := Select(unks, true, j.binders);
    AtomsAppend(s.unknown.binders[..s.numRes], late);
    GetsAppend(env2, Atoms(s.unknown.binders[..s.numRes]), Atoms(late));
    assert Gets(env2, Atoms(late)) == Select(unks, true, args);
    forall i | 0 <= i < |j.binders|
      ensures j.binders[i] in env
      ensures if unks[i] then j.binders[i] in env2 && env2[j.binders[i]] == env[j.binders[i]]
              else j.binders[i] in env1 && env1[j.binders[i]] == env[j.binders[i]]
    {
      SelectedAgree(env, if unks[i] then env2 else env1, unks, unks[i], j.binders, i);
    }
    AgreeAfter(map[], unks, j.binders, env, env1, env2);
  }

  lemma ResidualsShared(s: Split, first: seq<Val>, a2: seq<Val>, env1: Env, env2: Env)
    requires s.numRes <= |s.unknown.binders| && s.numRes <= |s.known.outs|
    requires s.known.outs[|s.known.outs| - s.numRes..] == Atoms(s.unknown.binders[..s.numRes])
    requires AllBound(env1.Keys, s.known.outs) && Gets(env1, s.known.outs) == first
    requires AllBound(env2.Keys, Atoms(s.unknown.binders))
    requires Gets(env2, Atoms(s.unknown.binders)) == first[|first| - s.numRes..] + a2
    ensures Shared(ToSet(s.unknown.binders[..s.numRes]), env1, env2)
  {
    var k := |first| - s.numRes;
    forall i | 0 <= i < s.numRes
      ensures var v := s.unknown.binders[i]; v in env1 && v in env2 && env1[v] == env2[v]
    {
      assert s.known.outs[k + i] == s.known.outs[k..][i] == V(s.unknown.binders[i]);
      assert Bound(env1.Keys, s.known.outs[k + i]);
      GetsAtomsAt(env2, s.unknown.binders, i);
      assert first[k + i] == (first[k..] + a2)[i];
    }
  }

  /** The outputs of the two stages are the known and the unknown outputs of the original;
      an instantiated known output reaches the second stage as a residual or as a literal. */
  lemma OutputsAgree(order: Order, j: Jaxpr, unks: seq<bool>, instantiate: Option<seq<bool>>, p: EqnsSplit, s: Split,
                     env: Env, env1: Env, env2: Env)
    requires IsOrder(order) && |unks| == |j.binders|
    requires FinishSplit(order, j, unks, instantiate, p) == Some(s)
    requires |s.outUnks| == |j.outs| && s.numRes <= |s.unknown.binders|
    requires Agree(p.env, env, env1, env2)
    requires AllBound(env.Keys, j.outs)
    requires Shared(ToSet(s.unknown.binders[..s.numRes]), env1, env2)
    ensures AllBound(env1.Keys, Select(s.outUnks, false, j.outs))
    ensures AllBound(env2.Keys, Select(s.outUnks, true, j.outs))
    ensures Gets(env1, Select(s.outUnks, false, j.outs)) == Select(s.outUnks, false, Gets(env, j.outs))
    ensures Gets(env2, Select(s.outUnks, true, j.outs)) == Select(s.outUnks, true, Gets(env, j.outs))
  {
    hide Typecheck, Select;
    var flags := Unks(p.env, j.outs).value;
    var inst := if instantiate.Some? then instantiate.value else Repeat(false, |j.outs|);
    var forced := Forced(j.outs, flags, inst);
    assert s.unknown.binders[..s.numRes] == order(p.residuals + forced);
    GetsSelect(env, s.outUnks, false, j.outs);
    GetsSelect(env, s.outUnks, true, j.outs);
    var known, late := Select(s.outUnks, false, j.outs), Select(s.outUnks, true, j.outs);
    forall k | 0 <= k < |known| ensures Bound(env1.Keys, known[k]) && Get(env1, known[k]) == Get(env, known[k]) {
      var i := SelectIndex(s.outUnks, false, j.outs, known[k]);
      assert Bound(p.env.Keys, j.outs[i]) && !flags[i];
    }
    forall k | 0 <= k < |late| ensures Bound(env2.Keys, late[k]) && Get(env2, late[k]) == Get(env, late[k]) {
      var i := SelectIndex(s.outUnks, true, j.outs, late[k]);
      assert Bound(p.env.Keys, j.outs[i]);
      if !flags[i] && j.outs[i].V? {
        assert j.outs[i].v in forced;
      }
    }
  }

  /** The final environments of the original and of the two stages. */
  lemma StageEnvs(m: Math, j: Jaxpr, unks: seq<bool>, s: Split, args: seq<Val>)
    returns (env: Env, env1: Env, env2: Env, first: seq<Val>)
    requires SplitOf(j, unks, s) && TypesOf(args) == Avals(j.binders)
    ensures |unks| == |args| && WellTyped(env) && s.numRes <= |first| == |s.known.outs|
    ensures Solves(m, j, args, env) && Eval(m, j, args) == Some(Gets(env, j.outs))
    ensures Solves(m, s.known, Select(unks, false, args), env1)
    ensures Gets(env1, s.known.outs) == first && Eval(m, s.known, Select(unks, false, args)) == Some(first)
    ensures var late := first[|first| - s.numRes..] + Select(unks, true, args);
            && Solves(m, s.unknown, late, env2)
            && Eval(m, s.unknown, late) == Some(Gets(env2, s.unknown.outs))
  {
    hide Eval, FinalEnv, Typecheck, Select, SatAll;
    TypecheckTypes(j);
    EvalSound(m, j, args);
    env := FinalEnv(m, j, args).value;
    StageTypes(m, j, s, unks, args);
    EvalSound(m, s.known, Select(unks, false, args));
    env1 := FinalEnv(m, s.known, Select(unks, false, args)).value;
    first := Eval(m, s.known, Select(unks, false, args)).value;
    var late := first[|first| - s.numRes..] + Select(unks, true, args);
    EvalSound(m, s.unknown, late);
    env2 := FinalEnv(m, s.unknown, late).value;
  }

  lemma SelectedOutputs(m: Math, s: Split, outs: seq<Val>, unks: seq<bool>, args: seq<Val>, first: seq<Val>)
    requires |unks| == |args| && |outs| == |s.outUnks| && s.numRes <= |first|
    requires Eval(m, s.known, Select(unks, false, args)) == Some(first)
    requires first[..|first| - s.numRes] == Select(s.outUnks, false, outs)
    requires Eval(m, s.unknown, first[|first| - s.numRes..] + Select(unks, true, args))
             == Some(Select(s.outUnks, true, outs))
    ensures RunSplit(m, s, unks, args) == Some(outs)
  {
    hide Eval, Select, Merge;
    MergeSelect(s.outUnks, outs);
  }

  /** The main theorem of partial evaluation: for every known/unknown split of the inputs, every
      choice of outputs to instantiate and every order of the residual set, the two stages
      together compute what the jaxpr computes. */
  lemma {:induction false} PartialEvalCorrect(m: Math, order: Order, j: Jaxpr, unks: seq<bool>,
                                              instantiate: Option<seq<bool>>, next: nat, args: seq<Val>)
    requires IsOrder(order) && PartialEval(order, j, unks, instantiate, next).Some?
    requires TypesOf(args) == Avals(j.binders)
    ensures |unks| == |args|
    ensures Eval(m, j, args).Some?
    ensures RunSplit(m, PartialEval(order, j, unks, instantiate, next).value, unks, args) == Eval(m, j, args)
    decreases j, 2
  {
    hide Eval, Typecheck, Select, Merge, PevalEqns, RunSplit;
    SplitShape(order, j, unks, instantiate, next);
    var s := PartialEval(order, j, unks, instantiate, next).value;
    var env, env1, env2, first := StageEnvs(m, j, unks, s, args);
    var unks0 := WriteUnks(map[], unks, j.binders);
    var p := PevalEqns(order, j.eqns, unks0, next).value;
    SplitParts(order, j, unks, instantiate, p, s);
    BindersAgree(j, unks, args, s, first[|first| - s.numRes..], env, env1, env2);
    ResidualsShared(s, first, Select(unks, true, args), env1, env2);
    var bound := TypecheckStart(j);
    EqnsAgree(m, order, j.eqns, bound, unks0, next, env, env1, env2);
    OutputsAgree(order, j, unks, instantiate, p, s, env, env1, env2);
    GetsAppend(env1, Select(s.outUnks, false, j.outs), Atoms(s.unknown.binders[..s.numRes]));
    assert first[..|first| - s.numRes] == Select(s.outUnks, false, Gets(env, j.outs));
    SelectedOutputs(m, s, Gets(env, j.outs), unks, args, first);
  }

  lemma TypecheckStart(j: Jaxpr) returns (bound: set<Var>)
    requires Typecheck(j).Some?
    ensures BindVars({}, j.binders) == Some(bound) && TypecheckEqns(bound, j.eqns).Some?
    ensures AllBound(TypecheckEqns(bound, j.eqns).value, j.outs)
  {
    bound := BindVars({}, j.binders).value;
  }

  lemma SplitParts(order: Order, j: Jaxpr, unks: seq<bool>, instantiate: Option<seq<bool>>, p: EqnsSplit, s: Split)
    requires IsOrder(order) && |unks| == |j.binders| && s.numRes <= |s.unknown.binders|
    requires FinishSplit(order, j, unks, instantiate, p) == Some(s)
    ensures s.known.eqns == p.known && s.unknown.eqns == p.unknown
    ensures p.residuals <= ToSet(s.unknown.binders[..s.numRes])
    ensures Distinct(s.unknown.binders[..s.numRes])
  {
    hide Typecheck, Select;
    var flags := Unks(p.env, j.outs).value;
    var inst := if instantiate.Some? then instantiate.value else Repeat(false, |j.outs|);
    var forced := Forced(j.outs, flags, inst);
    assert s.unknown.binders[..s.numRes] == order(p.residuals + forced);
  }
}
