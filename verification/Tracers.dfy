/** tracers_to_jaxpr: turns the graph of tracers and recipes that partial evaluation has built into
    a jaxpr. The graph is given by values: tracers and constants have an identity, as id() has. */
module Tracers {
  import opened Wrappers
  import opened Lists
  import opened Jaxprs
  import opened Soundness
  import opened PartialEvaluation
  import opened Residuals
  import opened PartialEvalTotal
  import opened JvpTyping
  import opened TopologicalSort

  /** A primitive with its parameters. */
  datatype Op = PrimOp(prim: Prim) | CallOp(body: Jaxpr) | CondOp(onTrue: Jaxpr, onFalse: Jaxpr)

  function MakeEqn(op: Op, inputs: seq<Atom>, outs: seq<Var>): Eqn {
    match op
    case PrimOp(p) => PrimEqn(p, inputs, outs)
    case CallOp(body) => CallEqn(body, inputs, outs)
    case CondOp(t, f) => CondEqn(t, f, inputs, outs)
  }

  /** `key` is the id() of the constant; `refs` are the weak references to the output tracers, None
      for one that has been collected. */
  datatype Recipe =
    | LambdaBinding
    | Const(val: Val, key: nat)
    | EqnRecipe(rid: nat, op: Op, tracersIn: seq<Node>, avalsOut: seq<Ty>, refs: seq<Option<Node>>)

  datatype Tracer = Tracer(aval: Ty, recipe: Recipe)

  type TracerGraph = map<Node, Tracer>

  /** tracer_parents */
  function Parents(t: Tracer): seq<Node> {
    if t.recipe.EqnRecipe? then t.recipe.tracersIn else []
  }

  function GraphOf(ts: TracerGraph): Graph {
    map n | n in ts :: Parents(ts[n])
  }

  function TracerAvals(ts: TracerGraph, ns: seq<Node>): (r: seq<Ty>)
    requires forall n :: n in ns ==> n in ts
    ensures |r| == |ns| && forall i :: 0 <= i < |ns| ==> r[i] == ts[ns[i]].aval
  {
    seq(|ns|, i requires 0 <= i < |ns| => ts[ns[i]].aval)
  }

  /** What process_primitive and instantiate_const establish for one tracer. */
  ghost predicate TracerOk(ts: TracerGraph, n: Node)
    requires n in ts
  {
    var t := ts[n];
    match t.recipe
    case LambdaBinding => true
    case Const(val, key) =>
      && t.aval == TypeOf(val)
      && forall u :: u in ts && ts[u].recipe.Const? && ts[u].recipe.key == key ==> ts[u].recipe == t.recipe
    case EqnRecipe(rid, op, tracersIn, avalsOut, refs) =>
      && Some(n) in refs && |refs| == |avalsOut|
      && (forall p :: p in tracersIn ==> p in ts)
      && AbstractEval(MakeEqn(op, [], []), TracerAvals(ts, tracersIn)) == Some(avalsOut)
      && (forall i :: 0 <= i < |refs| && refs[i].Some? ==> RefOk(ts, refs[i].value, t.recipe, avalsOut[i]))
      && (forall i, k :: 0 <= i < k < |refs| && refs[i].Some? ==> refs[i] != refs[k])
      && forall u :: u in ts && ts[u].recipe.EqnRecipe? && ts[u].recipe.rid == rid ==> ts[u].recipe == t.recipe
  }

  /** A live output tracer of a recipe. */
  ghost predicate RefOk(ts: TracerGraph, u: Node, r: Recipe, aval: Ty) {
    u in ts && ts[u].recipe == r && ts[u].aval == aval
  }

  ghost predicate GraphOk(ts: TracerGraph, rank: Node -> nat) {
    && Closed(GraphOf(ts), ts.Keys) && Ranked(GraphOf(ts), rank)
    && forall n :: n in ts ==> TracerOk(ts, n)
  }

  // ---------- the state of the loop ----------

  datatype State = State(vars: map<Node, Var>, constVars: map<nat, Var>, consts: seq<(Var, Val)>,
                         processed: set<nat>, eqns: seq<Eqn>, next: nat)

  function ConstBinders(consts: seq<(Var, Val)>): (r: seq<Var>)
    ensures |r| == |consts| && forall i :: 0 <= i < |consts| ==> r[i] == consts[i].0
  {
    seq(|consts|, i requires 0 <= i < |consts| => consts[i].0)
  }

  function ConstVals(consts: seq<(Var, Val)>): (r: seq<Val>)
    ensures |r| == |consts| && forall i :: 0 <= i < |consts| ==> r[i] == consts[i].1
  {
    seq(|consts|, i requires 0 <= i < |consts| => consts[i].1)
  }

  function VarsOf(vars: map<Node, Var>, ns: seq<Node>): (r: seq<Var>)
    requires forall n :: n in ns ==> n in vars
    ensures |r| == |ns| && forall i :: 0 <= i < |ns| ==> r[i] == vars[ns[i]]
  {
    seq(|ns|, i requires 0 <= i < |ns| => vars[ns[i]])
  }

  /** The loop over the output references in recipe_to_eqn. */
  function AssignRefs(vars: map<Node, Var>, refs: seq<Option<Node>>, outs: seq<Var>): map<Node, Var>
    requires |refs| == |outs|
    decreases refs
  {
    if refs == [] then vars
    else AssignRefs(if refs[0].Some? then vars[refs[0].value := outs[0]] else vars, refs[1..], outs[1..])
  }

  function RecipeIds(ts: TracerGraph, ns: seq<Node>): set<nat> {
    set n | n in ns && n in ts && ts[n].recipe.EqnRecipe? :: ts[n].recipe.rid
  }

  function ConstKeys(ts: TracerGraph, ns: seq<Node>): set<nat> {
    set n | n in ns && n in ts && ts[n].recipe.Const? :: ts[n].recipe.key
  }

  /** `e` is the equation for the recipe of tracer `n`, with `v` as the output that stands for `n`. */
  ghost predicate EqnFor(vars: map<Node, Var>, r: Recipe, n: Node, v: Var, e: Eqn) {
    && r.EqnRecipe? && (forall p :: p in r.tracersIn ==> p in vars)
    && e == MakeEqn(r.op, Atoms(VarsOf(vars, r.tracersIn)), e.outs) && |e.outs| == |r.refs|
    && exists i :: 0 <= i < |r.refs| && r.refs[i] == Some(n) && e.outs[i] == v
  }

  /** Why the variable of a tracer stands for it. */
  ghost predicate Explained(ts: TracerGraph, ins: seq<Node>, inVars: seq<Var>, s: State, n: Node)
    requires n in ts && n in s.vars && |ins| == |inVars|
  {
    match ts[n].recipe
    case LambdaBinding => exists i :: 0 <= i < |ins| && ins[i] == n && inVars[i] == s.vars[n]
    case Const(val, key) => key in s.constVars && s.constVars[key] == s.vars[n] && (s.vars[n], val) in s.consts
    case EqnRecipe(rid, _, _, _, _) =>
      rid in s.processed && exists e :: e in s.eqns && EqnFor(s.vars, ts[n].recipe, n, s.vars[n], e)
  }

  ghost predicate Typed(inVars: seq<Var>, s: State) {
    && Distinct(ConstBinders(s.consts) + inVars)
    && (forall i :: 0 <= i < |s.consts| ==> s.consts[i].0.aval == TypeOf(s.consts[i].1))
    && var r := TypecheckEqns(ToSet(ConstBinders(s.consts) + inVars), s.eqns);
    && r.Some? && Below(r.value, s.next)
  }

  ghost function BoundVars(inVars: seq<Var>, s: State): set<Var>
    requires Typed(inVars, s)
  {
    TypecheckEqns(ToSet(ConstBinders(s.consts) + inVars), s.eqns).value
  }

  ghost predicate VarsOk(ts: TracerGraph, ins: seq<Node>, inVars: seq<Var>, s: State)
    requires |ins| == |inVars| && Typed(inVars, s)
  {
    forall n :: n in s.vars ==>
      n in ts && s.vars[n].aval == ts[n].aval && s.vars[n] in BoundVars(inVars, s) && Explained(ts, ins, inVars, s, n)
  }

  /** The variable of a constant is bound to the value of the tracers that refer to it. */
  ghost predicate ConstKept(ts: TracerGraph, s: State, k: nat)
    requires k in s.constVars
  {
    exists i, n :: 0 <= i < |s.consts| && s.consts[i].0 == s.constVars[k]
                && n in ts && ts[n].recipe == Const(s.consts[i].1, k)
  }

  ghost predicate ConstsKept(ts: TracerGraph, s: State) {
    forall k :: k in s.constVars ==> ConstKept(ts, s, k)
  }

  /** Which tracers have a variable. */
  ghost predicate Placed(ts: TracerGraph, ins: seq<Node>, s: State, done: seq<Node>) {
    && ToSet(ins) <= s.vars.Keys && ToSet(done) <= s.vars.Keys
    && (forall n :: n in ts && ts[n].recipe.EqnRecipe? && ts[n].recipe.rid in s.processed ==> n in s.vars)
    && (forall n :: n in s.vars && n in ts && ts[n].recipe.Const? ==> n in done)
  }

  /** One equation for every recipe and one binder for every constant. */
  ghost predicate Counted(ts: TracerGraph, s: State, done: seq<Node>) {
    && s.processed == RecipeIds(ts, done) && |s.eqns| == |s.processed|
    && s.constVars.Keys == ConstKeys(ts, done) && |s.consts| == |s.constVars|
  }

  /** What the loop of tracers_to_jaxpr keeps. */
  ghost predicate Inv(ts: TracerGraph, ins: seq<Node>, inVars: seq<Var>, s: State, done: seq<Node>) {
    && |ins| == |inVars| && Typed(inVars, s) && VarsOk(ts, ins, inVars, s)
    && ConstsKept(ts, s) && Placed(ts, ins, s, done) && Counted(ts, s, done)
  }

  // ---------- one pass of the loop ----------

  lemma {:induction false} AssignRefsSpec(vars: map<Node, Var>, refs: seq<Option<Node>>, outs: seq<Var>)
    requires |refs| == |outs|
    requires forall i, k :: 0 <= i < k < |refs| && refs[i].Some? ==> refs[i] != refs[k]
    ensures var r := AssignRefs(vars, refs, outs);
            && (forall n :: n in vars && Some(n) !in refs ==> n in r && r[n] == vars[n])
            && (forall n :: n in r ==> n in vars || Some(n) in refs)
            && (forall i :: 0 <= i < |refs| && refs[i].Some? ==> refs[i].value in r && r[refs[i].value] == outs[i])
    decreases refs
  {
    if refs != [] {
      var vars1 := if refs[0].Some? then vars[refs[0].value := outs[0]] else vars;
      AssignRefsSpec(vars1, refs[1..], outs[1..]);
      assert refs == [refs[0]] + refs[1..];
      var r := AssignRefs(vars, refs, outs);
      forall i | 0 <= i < |refs| && refs[i].Some? ensures refs[i].value in r && r[refs[i].value] == outs[i] {
        if i > 0 {
          assert refs[i] == refs[1..][i - 1] && outs[i] == outs[1..][i - 1];
        }
      }
    }
  }

  lemma DoneOne(ts: TracerGraph, done: seq<Node>, n: Node)
    requires n in ts
    ensures RecipeIds(ts, done + [n])
         == RecipeIds(ts, done) + if ts[n].recipe.EqnRecipe? then {ts[n].recipe.rid} else {}
    ensures ConstKeys(ts, done + [n]) == ConstKeys(ts, done) + if ts[n].recipe.Const? then {ts[n].recipe.key} else {}
    ensures ToSet(done + [n]) == ToSet(done) + {n}
  {
    assert forall k :: k in done + [n] <==> k in done || k == n;
  }

  /** The state has only grown. */
  ghost predicate StateGrows(s: State, s1: State) {
    && (forall n :: n in s.vars ==> n in s1.vars && s1.vars[n] == s.vars[n])
    && (forall k :: k in s.constVars ==> k in s1.constVars && s1.constVars[k] == s.constVars[k])
    && s.consts <= s1.consts && s.processed <= s1.processed && s.eqns <= s1.eqns
  }

  lemma ExplainedMore(ts: TracerGraph, ins: seq<Node>, inVars: seq<Var>, s: State, s1: State, n: Node)
    requires |ins| == |inVars| && StateGrows(s, s1) && n in ts && n in s.vars && Explained(ts, ins, inVars, s, n)
    ensures Explained(ts, ins, inVars, s1, n)
  {
    match ts[n].recipe
    case LambdaBinding =>
    case Const(val, key) =>
      assert (s.vars[n], val) in s1.consts;
    case EqnRecipe(_, op, tracersIn, _, _) =>
      var e :| e in s.eqns && EqnFor(s.vars, ts[n].recipe, n, s.vars[n], e);
      assert VarsOf(s1.vars, tracersIn) == VarsOf(s.vars, tracersIn);
      assert e in s1.eqns && EqnFor(s1.vars, ts[n].recipe, n, s1.vars[n], e);
  }

  lemma ConstsKeptMore(ts: TracerGraph, s: State, s1: State, n: Node)
    requires StateGrows(s, s1) && ConstsKept(ts, s)
    requires forall k :: k in s1.constVars ==> k in s.constVars || ConstKept(ts, s1, k)
    ensures ConstsKept(ts, s1)
  {
  }

  /** The old entries of a grown state are still right. */
  lemma VarsOkMore(ts: TracerGraph, ins: seq<Node>, inVars: seq<Var>, s: State, s1: State)
    requires |ins| == |inVars| && Typed(inVars, s) && VarsOk(ts, ins, inVars, s) && Typed(inVars, s1)
             && StateGrows(s, s1)
    requires BoundVars(inVars, s) <= BoundVars(inVars, s1)
    requires forall n :: n in s1.vars && n !in s.vars ==>
               n in ts && s1.vars[n].aval == ts[n].aval && s1.vars[n] in BoundVars(inVars, s1)
                   && Explained(ts, ins, inVars, s1, n)
    ensures VarsOk(ts, ins, inVars, s1)
  {
    hide Typed, BoundVars, Explained;
    forall n | n in s.vars ensures Explained(ts, ins, inVars, s1, n) {
      ExplainedMore(ts, ins, inVars, s, s1, n);
    }
  }

  /** A tracer that already has a variable. */
  lemma StepSeen(ts: TracerGraph, ins: seq<Node>, inVars: seq<Var>, s: State, done: seq<Node>, n: Node)
    requires Inv(ts, ins, inVars, s, done) && n in ts && n in s.vars
    requires !ts[n].recipe.Const? && (ts[n].recipe.EqnRecipe? ==> ts[n].recipe.rid in s.processed)
    ensures Inv(ts, ins, inVars, s, done + [n])
  {
    hide Typed, VarsOk, ConstsKept, RecipeIds, ConstKeys;
    DoneOne(ts, done, n);
  }

  /** A constant that has been met before. */
  lemma StepShared(ts: TracerGraph, ins: seq<Node>, inVars: seq<Var>, s: State, done: seq<Node>, n: Node)
    requires Inv(ts, ins, inVars, s, done) && n in ts && TracerOk(ts, n) && n !in s.vars
    requires ts[n].recipe.Const? && ts[n].recipe.key in s.constVars
    ensures Inv(ts, ins, inVars, s.(vars := s.vars[n := s.constVars[ts[n].recipe.key]]), done + [n])
  {
    hide Typed, BoundVars, VarsOk, ConstKept, RecipeIds, ConstKeys, TracerOk;
    var key := ts[n].recipe.key;
    var s1 := s.(vars := s.vars[n := s.constVars[key]]);
    DoneOne(ts, done, n);
    SharedConst(ts, inVars, s, n);
    TypedSame(inVars, s, s1);
    VarsOkMore(ts, ins, inVars, s, s1);
    ConstsKeptMore(ts, s, s1, n);
  }

  lemma TypedSame(inVars: seq<Var>, s: State, s1: State)
    requires Typed(inVars, s) && s1.consts == s.consts && s1.eqns == s.eqns && s1.next == s.next
    ensures Typed(inVars, s1) && BoundVars(inVars, s1) == BoundVars(inVars, s)
  {
  }

  lemma SharedConst(ts: TracerGraph, inVars: seq<Var>, s: State, n: Node)
    requires n in ts && TracerOk(ts, n) && ts[n].recipe.Const? && ts[n].recipe.key in s.constVars
    requires ConstKept(ts, s, ts[n].recipe.key) && Typed(inVars, s)
    ensures var v := s.constVars[ts[n].recipe.key];
            v.aval == ts[n].aval && (v, ts[n].recipe.val) in s.consts && v in BoundVars(inVars, s)
  {
    hide TypecheckEqns;
    var key := ts[n].recipe.key;
    var v := s.constVars[key];
    var i, u :| 0 <= i < |s.consts| && s.consts[i].0 == v && u in ts && ts[u].recipe == Const(s.consts[i].1, key);
    assert ts[u].recipe == ts[n].recipe;
    assert s.consts[i] == (v, ts[n].recipe.val);
    assert (ConstBinders(s.consts) + inVars)[i] == v;
    TypecheckGrows(ToSet(ConstBinders(s.consts) + inVars), s.eqns);
  }

  function AddConst(s: State, n: Node, key: nat, v: Var, val: Val): State {
    s.(vars := s.vars[n := v], constVars := s.constVars[key := v], consts := s.consts + [(v, val)], next := s.next + 1)
  }

  /** A constant that is met for the first time. */
  lemma StepConst(ts: TracerGraph, ins: seq<Node>, inVars: seq<Var>, s: State, done: seq<Node>, n: Node, v: Var)
    requires Inv(ts, ins, inVars, s, done) && n in ts && TracerOk(ts, n) && n !in s.vars
    requires ts[n].recipe.Const? && ts[n].recipe.key !in s.constVars && v == Var(s.next, ts[n].aval)
    ensures Inv(ts, ins, inVars, AddConst(s, n, ts[n].recipe.key, v, ts[n].recipe.val), done + [n])
  {
    hide Typed, BoundVars, VarsOk, Explained, ConstsKept, RecipeIds, ConstKeys, AddConst, Placed, Counted;
    var key, val := ts[n].recipe.key, ts[n].recipe.val;
    var s1 := AddConst(s, n, key, v, val);
    ConstGrows(s, n, key, v, val);
    TypedConst(inVars, s, s1, v, val);
    NewConst(ts, ins, inVars, s1, n);
    VarsOkMore(ts, ins, inVars, s, s1);
    ConstsKeptMore(ts, s, s1, n);
    ConstCovered(ts, ins, s, done, n, v);
  }

  lemma ConstGrows(s: State, n: Node, key: nat, v: Var, val: Val)
    requires n !in s.vars && key !in s.constVars
    ensures var s1 := AddConst(s, n, key, v, val);
            && StateGrows(s, s1) && s1.vars.Keys == s.vars.Keys + {n} && s1.constVars.Keys == s.constVars.Keys + {key}
            && s1.consts == s.consts + [(v, val)] && s1.eqns == s.eqns && s1.next == s.next + 1
            && s1.vars[n] == v && s1.constVars[key] == v
  {
  }

  lemma NewConst(ts: TracerGraph, ins: seq<Node>, inVars: seq<Var>, s: State, n: Node)
    requires n in ts && ts[n].recipe.Const? && ts[n].recipe.key in s.constVars && |s.consts| > 0 && |ins| == |inVars|
    requires s.consts[|s.consts| - 1] == (s.constVars[ts[n].recipe.key], ts[n].recipe.val)
    requires n in s.vars && s.vars[n] == s.constVars[ts[n].recipe.key]
    ensures ConstKept(ts, s, ts[n].recipe.key) && Explained(ts, ins, inVars, s, n)
  {
  }

  lemma ConstCovered(ts: TracerGraph, ins: seq<Node>, s: State, done: seq<Node>, n: Node, v: Var)
    requires Placed(ts, ins, s, done) && Counted(ts, s, done) && n in ts && n !in s.vars
    requires ts[n].recipe.Const? && ts[n].recipe.key !in s.constVars
    ensures Placed(ts, ins, AddConst(s, n, ts[n].recipe.key, v, ts[n].recipe.val), done + [n])
    ensures Counted(ts, AddConst(s, n, ts[n].recipe.key, v, ts[n].recipe.val), done + [n])
  {
    hide RecipeIds, ConstKeys, Placed;
    DoneOne(ts, done, n);
    var s1 := AddConst(s, n, ts[n].recipe.key, v, ts[n].recipe.val);
    assert s1.constVars.Keys == s.constVars.Keys + {ts[n].recipe.key};
    PlacedMore(ts, ins, s, s1, done, n);
  }

  lemma PlacedMore(ts: TracerGraph, ins: seq<Node>, s: State, s1: State, done: seq<Node>, n: Node)
    requires Placed(ts, ins, s, done) && s.vars.Keys <= s1.vars.Keys && n in s1.vars
    requires forall u :: u in s1.vars && u !in s.vars && u in ts && ts[u].recipe.Const? ==> u == n
    requires forall u :: u in ts && ts[u].recipe.EqnRecipe? && ts[u].recipe.rid in s1.processed - s.processed ==>
               u in s1.vars
    ensures Placed(ts, ins, s1, done + [n])
  {
  }

  lemma TypedConst(inVars: seq<Var>, s: State, s1: State, v: Var, val: Val)
    requires Typed(inVars, s) && v == Var(s.next, TypeOf(val))
    requires s1.consts == s.consts + [(v, val)] && s1.eqns == s.eqns && s1.next == s.next + 1
    ensures Typed(inVars, s1) && BoundVars(inVars, s1) == BoundVars(inVars, s) + {v}
  {
    hide TypecheckEqns;
    var cs := ConstBinders(s.consts);
    TypecheckGrows(ToSet(cs + inVars), s.eqns);
    assert ConstBinders(s1.consts) == cs + [v];
    DistinctInsert(cs, inVars, v);
    TypecheckMore(ToSet(cs + inVars), {v}, s.eqns);
  }

  lemma DistinctInsert(xs: seq<Var>, ys: seq<Var>, v: Var)
    requires Distinct(xs + ys) && v !in ToSet(xs + ys)
    ensures Distinct(xs + [v] + ys) && ToSet(xs + [v] + ys) == ToSet(xs + ys) + {v}
  {
    var a, b := xs + ys, xs + [v] + ys;
    forall i | 0 <= i < |b| ensures b[i] == if i < |xs| then a[i] else if i == |xs| then v else a[i - 1] {
    }
    forall i, k | 0 <= i < k < |b| ensures b[i] != b[k] {
      assert i != |xs| ==> b[i] == a[if i < |xs| then i else i - 1];
      assert k != |xs| ==> b[k] == a[if k < |xs| then k else k - 1];
      assert forall l :: 0 <= l < |a| ==> a[l] in ToSet(a);
    }
    forall x | x in a ensures x in b {
      var i :| 0 <= i < |a| && a[i] == x;
      assert b[if i < |xs| then i else i + 1] == x;
    }
  }

  function AddEqn(s: State, r: Recipe, outs: seq<Var>): State
    requires r.EqnRecipe? && |r.refs| == |outs| && forall p :: p in r.tracersIn ==> p in s.vars
  {
    s.(vars := AssignRefs(s.vars, r.refs, outs), processed := s.processed + {r.rid},
       eqns := s.eqns + [MakeEqn(r.op, Atoms(VarsOf(s.vars, r.tracersIn)), outs)], next := s.next + |outs|)
  }

  /** recipe_to_eqn, for a recipe that is met for the first time. */
  lemma StepEqn(ts: TracerGraph, ins: seq<Node>, inVars: seq<Var>, s: State, done: seq<Node>, n: Node, outs: seq<Var>)
    requires Inv(ts, ins, inVars, s, done) && n in ts && (forall u :: u in ts ==> TracerOk(ts, u))
    requires ts[n].recipe.EqnRecipe? && ts[n].recipe.rid !in s.processed
    requires forall p :: p in ts[n].recipe.tracersIn ==> p in s.vars
    requires outs == FreshVars(ts[n].recipe.avalsOut, s.next) && |ts[n].recipe.refs| == |outs|
    ensures Inv(ts, ins, inVars, AddEqn(s, ts[n].recipe, outs), done + [n])
  {
    hide Typed, BoundVars, Explained, ConstsKept, RecipeIds, ConstKeys, AddEqn, Placed, Counted, ConstKept, TracerOk,
      VarsOk;
    var r := ts[n].recipe;
    assert TracerOk(ts, n);
    var s1 := AddEqn(s, r, outs);
    RefsNew(ts, ins, inVars, s, n);
    InputsTyped(ts, ins, inVars, s, n);
    EqnGrows(s, r, outs);
    TypedEqn(ts, inVars, s, n, outs);
    forall u | u in s1.vars && u !in s.vars
      ensures u in ts && s1.vars[u].aval == ts[u].aval && s1.vars[u] in BoundVars(inVars, s1)
              && Explained(ts, ins, inVars, s1, u)
    {
      NewRef(ts, ins, inVars, s, n, outs, u);
    }
    VarsOkMore(ts, ins, inVars, s, s1);
    ConstsKeptMore(ts, s, s1, n);
    EqnCovered(ts, ins, s, done, n, outs);
  }

  /** The outputs of a recipe that has not been processed have no variable yet. */
  lemma RefsNew(ts: TracerGraph, ins: seq<Node>, inVars: seq<Var>, s: State, n: Node)
    requires |ins| == |inVars| && Typed(inVars, s) && VarsOk(ts, ins, inVars, s) && n in ts && TracerOk(ts, n)
    requires ts[n].recipe.EqnRecipe? && ts[n].recipe.rid !in s.processed
    ensures forall i :: 0 <= i < |ts[n].recipe.refs| && ts[n].recipe.refs[i].Some? ==>
              ts[n].recipe.refs[i].value !in s.vars
    ensures forall i, k :: 0 <= i < k < |ts[n].recipe.refs| && ts[n].recipe.refs[i].Some? ==>
              ts[n].recipe.refs[i] != ts[n].recipe.refs[k]
  {
    hide Typed, BoundVars;
    var refs := ts[n].recipe.refs;
    forall i | 0 <= i < |refs| && refs[i].Some? ensures refs[i].value !in s.vars {
      assert RefOk(ts, refs[i].value, ts[n].recipe, ts[n].recipe.avalsOut[i]);
    }
  }

  lemma InputsTyped(ts: TracerGraph, ins: seq<Node>, inVars: seq<Var>, s: State, n: Node)
    requires |ins| == |inVars| && Typed(inVars, s) && VarsOk(ts, ins, inVars, s) && n in ts && ts[n].recipe.EqnRecipe?
    requires forall p :: p in ts[n].recipe.tracersIn ==> p in s.vars
    ensures forall p :: p in ts[n].recipe.tracersIn ==>
              p in ts && s.vars[p].aval == ts[p].aval && s.vars[p] in BoundVars(inVars, s)
  {
    hide Typed, BoundVars, Explained;
  }

  lemma EqnGrows(s: State, r: Recipe, outs: seq<Var>)
    requires r.EqnRecipe? && |r.refs| == |outs| && forall p :: p in r.tracersIn ==> p in s.vars
    requires forall i :: 0 <= i < |r.refs| && r.refs[i].Some? ==> r.refs[i].value !in s.vars
    requires forall i, k :: 0 <= i < k < |r.refs| && r.refs[i].Some? ==> r.refs[i] != r.refs[k]
    ensures var s1 := AddEqn(s, r, outs);
            && StateGrows(s, s1) && s1.consts == s.consts && s1.constVars == s.constVars
            && (forall u :: u in s1.vars && u !in s.vars ==> Some(u) in r.refs)
            && (forall i :: 0 <= i < |r.refs| && r.refs[i].Some? ==>
                r.refs[i].value in s1.vars && s1.vars[r.refs[i].value] == outs[i])
  {
    AssignRefsSpec(s.vars, r.refs, outs);
    forall u | u in s.vars ensures Some(u) !in r.refs {
    }
  }

  lemma TypedEqn(ts: TracerGraph, inVars: seq<Var>, s: State, n: Node, outs: seq<Var>)
    requires Typed(inVars, s) && n in ts && TracerOk(ts, n) && ts[n].recipe.EqnRecipe?
    requires outs == FreshVars(ts[n].recipe.avalsOut, s.next)
    requires forall p :: p in ts[n].recipe.tracersIn ==>
               p in s.vars && s.vars[p].aval == ts[p].aval && s.vars[p] in BoundVars(inVars, s)
    ensures var s1 := AddEqn(s, ts[n].recipe, outs);
            Typed(inVars, s1) && BoundVars(inVars, s1) == BoundVars(inVars, s) + ToSet(outs)
  {
    hide TypecheckEqns, AbstractEval;
    var r := ts[n].recipe;
    var vs := VarsOf(s.vars, r.tracersIn);
    var e := MakeEqn(r.op, Atoms(vs), outs);
    var bound := BoundVars(inVars, s);
    FreshDistinct(r.avalsOut, s.next);
    forall v | v in vs ensures v in bound {
      var i :| 0 <= i < |vs| && vs[i] == v;
      assert r.tracersIn[i] in r.tracersIn;
    }
    BoundAtoms(bound, vs);
    AtomTysOfVars(vs);
    forall i | 0 <= i < |vs| ensures Avals(vs)[i] == TracerAvals(ts, r.tracersIn)[i] {
      assert r.tracersIn[i] in r.tracersIn;
    }
    assert Avals(vs) == TracerAvals(ts, r.tracersIn);
    MadeTypes(r.op, Atoms(vs), outs, Avals(vs));
    SingleEqn(bound, e);
    TypecheckAppend(ToSet(ConstBinders(s.consts) + inVars), s.eqns, [e]);
  }

  lemma MadeTypes(op: Op, inputs: seq<Atom>, outs: seq<Var>, tys: seq<Ty>)
    ensures AbstractEval(MakeEqn(op, inputs, outs), tys) == AbstractEval(MakeEqn(op, [], []), tys)
    ensures MakeEqn(op, inputs, outs).inputs == inputs && MakeEqn(op, inputs, outs).outs == outs
  {
  }

  lemma NewRef(ts: TracerGraph, ins: seq<Node>, inVars: seq<Var>, s: State, n: Node, outs: seq<Var>, u: Node)
    requires |ins| == |inVars| && n in ts && TracerOk(ts, n) && ts[n].recipe.EqnRecipe?
    requires outs == FreshVars(ts[n].recipe.avalsOut, s.next) && Some(u) in ts[n].recipe.refs
    requires forall p :: p in ts[n].recipe.tracersIn ==> p in s.vars
    requires var r, s1 := ts[n].recipe, AddEqn(s, ts[n].recipe, outs);
             && StateGrows(s, s1)
             && forall i :: 0 <= i < |r.refs| && r.refs[i].Some? ==>
                  r.refs[i].value in s1.vars && s1.vars[r.refs[i].value] == outs[i]
    ensures var s1 := AddEqn(s, ts[n].recipe, outs);
            && u in ts && u in s1.vars && s1.vars[u].aval == ts[u].aval && s1.vars[u] in outs
            && Explained(ts, ins, inVars, s1, u)
  {
    var r := ts[n].recipe;
    var s1 := AddEqn(s, r, outs);
    var i :| 0 <= i < |r.refs| && r.refs[i] == Some(u);
    assert RefOk(ts, u, r, r.avalsOut[i]);
    var e := MakeEqn(r.op, Atoms(VarsOf(s.vars, r.tracersIn)), outs);
    assert VarsOf(s1.vars, r.tracersIn) == VarsOf(s.vars, r.tracersIn);
    assert s1.eqns[|s.eqns|] == e;
    assert EqnFor(s1.vars, r, u, s1.vars[u], e);
  }

  lemma EqnCovered(ts: TracerGraph, ins: seq<Node>, s: State, done: seq<Node>, n: Node, outs: seq<Var>)
    requires Placed(ts, ins, s, done) && Counted(ts, s, done) && n in ts && (forall u :: u in ts ==> TracerOk(ts, u))
    requires ts[n].recipe.EqnRecipe? && ts[n].recipe.rid !in s.processed && |outs| == |ts[n].recipe.refs|
    requires forall p :: p in ts[n].recipe.tracersIn ==> p in s.vars
    requires var r, s1 := ts[n].recipe, AddEqn(s, ts[n].recipe, outs);
             && StateGrows(s, s1) && s1.consts == s.consts && s1.constVars == s.constVars
             && (forall u :: u in s1.vars && u !in s.vars ==> Some(u) in r.refs)
             && (forall i :: 0 <= i < |r.refs| && r.refs[i].Some? ==> r.refs[i].value in s1.vars)
    ensures Placed(ts, ins, AddEqn(s, ts[n].recipe, outs), done + [n])
    ensures Counted(ts, AddEqn(s, ts[n].recipe, outs), done + [n])
  {
    hide RecipeIds, ConstKeys, Placed, TracerOk;
    DoneOne(ts, done, n);
    var r, s1 := ts[n].recipe, AddEqn(s, ts[n].recipe, outs);
    SameRecipe(ts, n);
    PlacedMore(ts, ins, s, s1, done, n);
  }

  /** The tracers that share a recipe are the live outputs of the recipe. */
  lemma SameRecipe(ts: TracerGraph, n: Node)
    requires n in ts && ts[n].recipe.EqnRecipe? && forall u :: u in ts ==> TracerOk(ts, u)
    ensures forall u :: Some(u) in ts[n].recipe.refs ==> u in ts && ts[u].recipe == ts[n].recipe
    ensures forall u :: u in ts && ts[u].recipe.EqnRecipe? && ts[u].recipe.rid == ts[n].recipe.rid ==>
              ts[u].recipe == ts[n].recipe && Some(u) in ts[n].recipe.refs
  {
    assert TracerOk(ts, n);
    var r := ts[n].recipe;
    forall u | Some(u) in r.refs ensures u in ts && ts[u].recipe == r {
      var i :| 0 <= i < |r.refs| && r.refs[i] == Some(u);
      assert RefOk(ts, u, r, r.avalsOut[i]);
    }
    forall u | u in ts && ts[u].recipe.EqnRecipe? && ts[u].recipe.rid == r.rid
      ensures ts[u].recipe == r && Some(u) in r.refs
    {
      assert TracerOk(ts, u);
    }
  }

  // ---------- the whole function ----------

  function SomeNodes(ns: seq<Node>): (r: seq<Option<Node>>)
    ensures |r| == |ns| && forall i :: 0 <= i < |ns| ==> r[i] == Some(ns[i])
  {
    seq(|ns|, i requires 0 <= i < |ns| => Some(ns[i]))
  }

  function StartState(ts: TracerGraph, ins: seq<Node>, next: nat): State
    requires forall n :: n in ins ==> n in ts
  {
    State(AssignRefs(map[], SomeNodes(ins), FreshVars(TracerAvals(ts, ins), next)), map[], [], {}, [], next + |ins|)
  }

  lemma StartOk(ts: TracerGraph, ins: seq<Node>, next: nat)
    requires Distinct(ins) && forall n :: n in ins ==> n in ts && ts[n].recipe.LambdaBinding?
    ensures Inv(ts, ins, FreshVars(TracerAvals(ts, ins), next), StartState(ts, ins, next), [])
  {
    hide Typed, BoundVars, Explained, StartState;
    var inVars := FreshVars(TracerAvals(ts, ins), next);
    var s := StartState(ts, ins, next);
    StartTyped(ts, ins, next);
    forall n | n in s.vars
      ensures n in ts && s.vars[n].aval == ts[n].aval && s.vars[n] in BoundVars(inVars, s)
              && Explained(ts, ins, inVars, s, n)
    {
      StartVar(ts, ins, next, n);
    }
    StartPlaced(ts, ins, next);
  }

  lemma StartTyped(ts: TracerGraph, ins: seq<Node>, next: nat)
    requires forall n :: n in ins ==> n in ts
    ensures var inVars, s := FreshVars(TracerAvals(ts, ins), next), StartState(ts, ins, next);
            Typed(inVars, s) && BoundVars(inVars, s) == ToSet(inVars)
  {
    var inVars, s := FreshVars(TracerAvals(ts, ins), next), StartState(ts, ins, next);
    FreshDistinct(TracerAvals(ts, ins), next);
    assert ConstBinders(s.consts) + inVars == inVars;
    assert TypecheckEqns(ToSet(inVars), s.eqns) == Some(ToSet(inVars));
  }

  lemma StartVar(ts: TracerGraph, ins: seq<Node>, next: nat, n: Node)
    requires Distinct(ins) && forall n :: n in ins ==> n in ts && ts[n].recipe.LambdaBinding?
    requires n in StartState(ts, ins, next).vars
    ensures var inVars, s := FreshVars(TracerAvals(ts, ins), next), StartState(ts, ins, next);
            n in ts && s.vars[n].aval == ts[n].aval && s.vars[n] in inVars && Explained(ts, ins, inVars, s, n)
  {
    var inVars := FreshVars(TracerAvals(ts, ins), next);
    var refs := SomeNodes(ins);
    AssignRefsSpec(map[], refs, inVars);
    var i :| 0 <= i < |ins| && refs[i] == Some(n);
    assert ins[i] in ins && refs[i].Some?;
  }

  lemma StartPlaced(ts: TracerGraph, ins: seq<Node>, next: nat)
    requires Distinct(ins) && forall n :: n in ins ==> n in ts && ts[n].recipe.LambdaBinding?
    ensures var s := StartState(ts, ins, next);
            && s.constVars == map[] && s.consts == [] && s.eqns == [] && s.processed == {}
            && Placed(ts, ins, s, []) && Counted(ts, s, [])
  {
    var inVars := FreshVars(TracerAvals(ts, ins), next);
    var refs := SomeNodes(ins);
    AssignRefsSpec(map[], refs, inVars);
    var s := StartState(ts, ins, next);
    forall n | n in ins ensures n in s.vars {
      var i :| 0 <= i < |ins| && ins[i] == n;
      assert refs[i].Some?;
    }
    forall n | n in s.vars ensures n in ins {
      var i :| 0 <= i < |ins| && refs[i] == Some(n);
    }
    assert s.constVars.Keys == {};
  }

  ghost predicate BindingsGiven(ts: TracerGraph, ins: seq<Node>, ns: seq<Node>) {
    forall n :: n in ns && n in ts && ts[n].recipe.LambdaBinding? ==> n in ins
  }

  /** The parents of a tracer come before it, so they have variables. */
  lemma ParentsPlaced(ts: TracerGraph, sorted: seq<Node>, i: nat, s: State)
    requires i < |sorted| && ParentsFirst(GraphOf(ts), sorted) && sorted[i] in ts && ToSet(sorted[..i]) <= s.vars.Keys
    ensures ts[sorted[i]].recipe.EqnRecipe? ==> forall p :: p in ts[sorted[i]].recipe.tracersIn ==> p in s.vars
  {
  }

  /** tracers_to_jaxpr. It returns exactly when every reachable lambda-bound tracer is one of the
      inputs, and then passes its final type check. The jaxpr has one equation for every reachable
      recipe and one constant for every reachable constant object, and means what the graph means. */
  method TracersToJaxpr(ts: TracerGraph, ins: seq<Node>, outs: seq<Node>, next: nat, ghost rank: Node -> nat)
    returns (r: Option<(Jaxpr, seq<Val>)>, ghost reached: seq<Node>)
    requires GraphOk(ts, rank) && Distinct(ins) && ToSet(outs) <= ts.Keys
    requires forall n :: n in ins ==> n in ts && ts[n].recipe.LambdaBinding?
    ensures Distinct(reached) && Reachable(GraphOf(ts), outs, ToSet(reached))
    ensures r.Some? <==> BindingsGiven(ts, ins, reached)
    ensures forall n :: n in outs ==> n in ts
    ensures r.Some? ==>
              var (j, consts) := r.value;
              && Typecheck(j) == Some(JaxprType(TypesOf(consts) + TracerAvals(ts, ins), TracerAvals(ts, outs)))
              && |j.eqns| == |RecipeIds(ts, reached)| && |consts| == |ConstKeys(ts, reached)|
              && SameMeaning(ts, rank, ins, outs, j, consts)
  {
    hide Inv, TracerOk, Built, SameMeaning, RecipeIds, ConstKeys, Typecheck;
    var topo := Toposort(GraphOf(ts), outs, rank);
    var sorted := topo.value;
    reached := sorted;
    var inVars := FreshVars(TracerAvals(ts, ins), next);
    var s := StartState(ts, ins, next);
    StartOk(ts, ins, next);
    for i := 0 to |sorted|
      invariant Inv(ts, ins, inVars, s, sorted[..i]) && BindingsGiven(ts, ins, sorted[..i])
    {
      var n := sorted[i];
      assert n in ToSet(sorted) && sorted[..i + 1] == sorted[..i] + [n] && n !in sorted[..i];
      assert TracerOk(ts, n);
      NextTracer(ts, ins, inVars, s, sorted, i);
      match ts[n].recipe {
        case LambdaBinding =>
          if n !in ins {
            assert !BindingsGiven(ts, ins, sorted);
            return None, sorted;
          }
          StepSeen(ts, ins, inVars, s, sorted[..i], n);
        case Const(val, key) =>
          if key in s.constVars {
            StepShared(ts, ins, inVars, s, sorted[..i], n);
            s := s.(vars := s.vars[n := s.constVars[key]]);
          } else {
            var v := Var(s.next, TypeOf(val));
            StepConst(ts, ins, inVars, s, sorted[..i], n, v);
            s := AddConst(s, n, key, v, val);
          }
        case EqnRecipe(rid, op, tracersIn, avalsOut, refs) =>
          if rid !in s.processed {
            var outVars := FreshVars(avalsOut, s.next);
            StepEqn(ts, ins, inVars, s, sorted[..i], n, outVars);
            s := AddEqn(s, ts[n].recipe, outVars);
          } else {
            StepSeen(ts, ins, inVars, s, sorted[..i], n);
          }
      }
    }
    assert sorted[..|sorted|] == sorted;
    OutsPlaced(ts, ins, inVars, outs, s, sorted);
    var jaxpr := Jaxpr(ConstBinders(s.consts) + inVars, s.eqns, Atoms(VarsOf(s.vars, outs)));
    BuiltOk(ts, ins, inVars, outs, s, sorted, jaxpr);
    BuiltSpec(ts, rank, ins, outs, sorted, s, jaxpr, ConstVals(s.consts));
    r := if Typecheck(jaxpr).Some? then Some((jaxpr, ConstVals(s.consts))) else None;
  }

  lemma BuiltSpec(ts: TracerGraph, rank: Node -> nat, ins: seq<Node>, outs: seq<Node>, reached: seq<Node>, s: State,
                  j: Jaxpr, consts: seq<Val>)
    requires GraphOk(ts, rank) && Distinct(ins) && Built(ts, ins, outs, reached, s, j, consts)
    ensures Typecheck(j) == Some(JaxprType(TypesOf(consts) + TracerAvals(ts, ins), TracerAvals(ts, outs)))
    ensures |j.eqns| == |RecipeIds(ts, reached)| && |consts| == |ConstKeys(ts, reached)|
    ensures SameMeaning(ts, rank, ins, outs, j, consts)
  {
    hide Inv, TracerOk, Typecheck, MeansAt, RecipeIds, ConstKeys, Ranked, Closed;
    forall m: Math, args: seq<Val> ensures MeansAt(m, ts, rank, ins, outs, j, consts, args) {
      BuiltMeans(m, ts, rank, ins, outs, reached, s, j, consts, args);
    }
  }

  /** What is known of the tracer that comes next. */
  lemma NextTracer(ts: TracerGraph, ins: seq<Node>, inVars: seq<Var>, s: State, sorted: seq<Node>, i: nat)
    requires i < |sorted| && ParentsFirst(GraphOf(ts), sorted) && sorted[i] in ts && sorted[i] !in sorted[..i]
    requires Inv(ts, ins, inVars, s, sorted[..i]) && TracerOk(ts, sorted[i])
    ensures var n := sorted[i];
            && (ts[n].recipe.Const? ==> n !in s.vars && ts[n].aval == TypeOf(ts[n].recipe.val))
            && (n in ins ==> n in s.vars)
            && (ts[n].recipe.EqnRecipe? ==>
                 && |ts[n].recipe.refs| == |ts[n].recipe.avalsOut|
                 && (ts[n].recipe.rid in s.processed ==> n in s.vars)
                 && forall p :: p in ts[n].recipe.tracersIn ==> p in s.vars)
  {
    hide Typed, VarsOk, ConstsKept, Counted;
    ParentsPlaced(ts, sorted, i, s);
    assert sorted[i] in ins ==> sorted[i] in ToSet(ins);
  }

  /** What tracers_to_jaxpr returns: a well-typed jaxpr with one equation for every recipe and one
      constant for every constant identity that can be reached. */
  ghost predicate Built(ts: TracerGraph, ins: seq<Node>, outs: seq<Node>, reached: seq<Node>, s: State, j: Jaxpr,
                        consts: seq<Val>)
  {
    && (forall n :: n in ins || n in outs ==> n in ts)
    && Typecheck(j) == Some(JaxprType(TypesOf(consts) + TracerAvals(ts, ins), TracerAvals(ts, outs)))
    && |j.eqns| == |RecipeIds(ts, reached)| && |consts| == |ConstKeys(ts, reached)|
    && |j.binders| == |consts| + |ins|
    && Inv(ts, ins, j.binders[|consts|..], s, reached)
    && j == Jaxpr(ConstBinders(s.consts) + j.binders[|consts|..], s.eqns, j.outs) && consts == ConstVals(s.consts)
    && (forall n :: n in outs ==> n in s.vars) && j.outs == Atoms(VarsOf(s.vars, outs))
  }

  lemma OutsPlaced(ts: TracerGraph, ins: seq<Node>, inVars: seq<Var>, outs: seq<Node>, s: State, reached: seq<Node>)
    requires Inv(ts, ins, inVars, s, reached) && Reachable(GraphOf(ts), outs, ToSet(reached))
    ensures forall n :: n in outs ==> n in s.vars && n in ts
  {
    hide Typed, VarsOk, ConstsKept, Counted;
    forall n | n in outs ensures n in s.vars {
      assert n in ToSet(outs);
    }
  }

  lemma BuiltOk(ts: TracerGraph, ins: seq<Node>, inVars: seq<Var>, outs: seq<Node>, s: State, reached: seq<Node>,
                j: Jaxpr)
    requires Inv(ts, ins, inVars, s, reached) && forall n :: n in outs ==> n in s.vars && n in ts
    requires (forall n :: n in ins ==> n in ts) && Avals(inVars) == TracerAvals(ts, ins)
    requires j == Jaxpr(ConstBinders(s.consts) + inVars, s.eqns, Atoms(VarsOf(s.vars, outs)))
    ensures Typecheck(j).Some? && Built(ts, ins, outs, reached, s, j, ConstVals(s.consts))
  {
    hide TypecheckEqns, Typecheck, Explained, ConstsKept, Placed, RecipeIds, ConstKeys, Typed, BoundVars, VarsOk;
    BuiltTyped(ts, ins, inVars, outs, s, j);
    assert j.binders[|s.consts|..] == inVars;
    assert |s.constVars| == |s.constVars.Keys|;
  }

  lemma BuiltTyped(ts: TracerGraph, ins: seq<Node>, inVars: seq<Var>, outs: seq<Node>, s: State, j: Jaxpr)
    requires |ins| == |inVars| && Typed(inVars, s) && VarsOk(ts, ins, inVars, s)
    requires (forall n :: n in outs ==> n in s.vars && n in ts) && (forall n :: n in ins ==> n in ts)
    requires Avals(inVars) == TracerAvals(ts, ins)
    requires j == Jaxpr(ConstBinders(s.consts) + inVars, s.eqns, Atoms(VarsOf(s.vars, outs)))
    ensures Typecheck(j) == Some(JaxprType(TypesOf(ConstVals(s.consts)) + TracerAvals(ts, ins), TracerAvals(ts, outs)))
  {
    hide TypecheckEqns, Typecheck, Explained;
    var cs, vs := ConstBinders(s.consts), VarsOf(s.vars, outs);
    var bound := BoundVars(inVars, s);
    forall v | v in vs ensures v in bound {
      var i :| 0 <= i < |vs| && vs[i] == v;
      assert outs[i] in outs;
    }
    BoundAtoms(bound, vs);
    AtomTysOfVars(vs);
    forall i | 0 <= i < |outs| ensures Avals(vs)[i] == TracerAvals(ts, outs)[i] {
      assert outs[i] in outs;
    }
    assert Avals(vs) == TracerAvals(ts, outs);
    assert Avals(cs + inVars) == TypesOf(ConstVals(s.consts)) + TracerAvals(ts, ins);
    TypecheckWhole(j, ToSet(j.binders), bound);
  }

  // ---------- meaning ----------

  function IndexOf<T(==)>(xs: seq<T>, x: T): (i: nat)
    ensures i <= |xs| && (x in xs <==> i < |xs|) && (i < |xs| ==> xs[i] == x)
  {
    if xs == [] || xs[0] == x then 0 else 1 + IndexOf(xs[1..], x)
  }

  /** The value of a tracer, by recursion through the recipes: the meaning of the graph. */
  ghost function ValueOf(m: Math, ts: TracerGraph, rank: Node -> nat, ins: seq<Node>, args: seq<Val>, n: Node): Val
    requires Closed(GraphOf(ts), ts.Keys) && Ranked(GraphOf(ts), rank) && n in ts && |ins| == |args|
    decreases rank(n)
  {
    match ts[n].recipe
    case LambdaBinding => if n in ins then args[IndexOf(ins, n)] else Zero(ts[n].aval)
    case Const(val, _) => val
    case EqnRecipe(_, op, tracersIn, _, refs) =>
      assert GraphOf(ts)[n] == tracersIn;
      var vals := seq(|tracersIn|, i requires 0 <= i < |tracersIn| => ValueOf(m, ts, rank, ins, args, tracersIn[i]));
      var outs := Bind(m, MakeEqn(op, [], []), vals);
      var i := IndexOf(refs, Some(n));
      if outs.Some? && i < |outs.value| then outs.value[i] else Zero(ts[n].aval)
  }

  ghost function ValuesOf(m: Math, ts: TracerGraph, rank: Node -> nat, ins: seq<Node>, args: seq<Val>, ns: seq<Node>)
    : (r: seq<Val>)
    requires Closed(GraphOf(ts), ts.Keys) && Ranked(GraphOf(ts), rank) && |ins| == |args|
    requires forall n :: n in ns ==> n in ts
    ensures |r| == |ns| && forall i :: 0 <= i < |ns| ==> r[i] == ValueOf(m, ts, rank, ins, args, ns[i])
  {
    seq(|ns|, i requires 0 <= i < |ns| => ValueOf(m, ts, rank, ins, args, ns[i]))
  }

  lemma {:induction false} IndexDistinct<T(!new)>(xs: seq<T>, i: nat)
    requires i < |xs| && forall k :: 0 <= k < i ==> xs[k] != xs[i]
    ensures IndexOf(xs, xs[i]) == i
  {
    if i > 0 {
      IndexDistinct(xs[1..], i - 1);
    }
  }

  /** In an environment that solves the equations, the variable of a tracer has the tracer's value. */
  lemma {:induction false} VarValue(m: Math, ts: TracerGraph, rank: Node -> nat, ins: seq<Node>, inVars: seq<Var>,
                                    s: State, args: seq<Val>, env: Env, n: Node)
    requires GraphOk(ts, rank) && Distinct(ins) && |ins| == |inVars| == |args| && Typed(inVars, s)
             && VarsOk(ts, ins, inVars, s)
    requires n in s.vars && SatAll(m, s.eqns, env)
    requires forall i :: 0 <= i < |ins| ==> inVars[i] in env && env[inVars[i]] == args[i]
    requires forall i :: 0 <= i < |s.consts| ==> s.consts[i].0 in env && env[s.consts[i].0] == s.consts[i].1
    ensures n in ts && s.vars[n] in env && env[s.vars[n]] == ValueOf(m, ts, rank, ins, args, n)
    decreases rank(n)
  {
    hide Typed, BoundVars, Bind, TracerOk;
    assert Explained(ts, ins, inVars, s, n);
    match ts[n].recipe
    case LambdaBinding =>
      var i :| 0 <= i < |ins| && ins[i] == n && inVars[i] == s.vars[n];
      IndexDistinct(ins, i);
    case Const(val, key) =>
    case EqnRecipe(rid, op, tracersIn, avalsOut, refs) =>
      var e :| e in s.eqns && EqnFor(s.vars, ts[n].recipe, n, s.vars[n], e);
      assert GraphOf(ts)[n] == tracersIn;
      forall k | 0 <= k < |tracersIn|
        ensures tracersIn[k] in ts && s.vars[tracersIn[k]] in env
        ensures env[s.vars[tracersIn[k]]] == ValueOf(m, ts, rank, ins, args, tracersIn[k])
      {
        assert tracersIn[k] in GraphOf(ts)[n];
        VarValue(m, ts, rank, ins, inVars, s, args, env, tracersIn[k]);
      }
      var i :| 0 <= i < |refs| && refs[i] == Some(n) && e.outs[i] == s.vars[n];
      FirstRef(ts, n, i);
      EqnValue(m, op, e, VarsOf(s.vars, tracersIn), env, i);
      assert Gets(env, e.inputs) == ValuesOf(m, ts, rank, ins, args, tracersIn);
  }

  lemma FirstRef(ts: TracerGraph, n: Node, i: nat)
    requires n in ts && TracerOk(ts, n) && ts[n].recipe.EqnRecipe? && i < |ts[n].recipe.refs|
             && ts[n].recipe.refs[i] == Some(n)
    ensures IndexOf(ts[n].recipe.refs, Some(n)) == i
  {
    IndexDistinct(ts[n].recipe.refs, i);
  }

  lemma EqnValue(m: Math, op: Op, e: Eqn, vs: seq<Var>, env: Env, i: nat)
    requires Sat(m, e, env) && e == MakeEqn(op, Atoms(vs), e.outs) && i < |e.outs|
    ensures AllBound(env.Keys, e.inputs) && |Gets(env, e.inputs)| == |vs|
    ensures forall k :: 0 <= k < |vs| ==> vs[k] in env && Gets(env, e.inputs)[k] == env[vs[k]]
    ensures Bind(m, MakeEqn(op, [], []), Gets(env, e.inputs)).Some?
    ensures |Bind(m, MakeEqn(op, [], []), Gets(env, e.inputs)).value| == |e.outs|
    ensures e.outs[i] in env && Bind(m, MakeEqn(op, [], []), Gets(env, e.inputs)).value[i] == env[e.outs[i]]
  {
    assert e.inputs == Atoms(vs);
    forall k | 0 <= k < |vs| ensures vs[k] in env && Gets(env, e.inputs)[k] == env[vs[k]] {
      GetsAtomsAt(env, vs, k);
    }
    GetsAtomsAt(env, e.outs, i);
  }

  /** The jaxpr computes what the graph means. */
  ghost predicate MeansAt(m: Math, ts: TracerGraph, rank: Node -> nat, ins: seq<Node>, outs: seq<Node>, j: Jaxpr,
                          consts: seq<Val>, args: seq<Val>)
    requires Closed(GraphOf(ts), ts.Keys) && Ranked(GraphOf(ts), rank) && forall n :: n in ins || n in outs ==> n in ts
  {
    TypesOf(args) == TracerAvals(ts, ins) ==>
      |args| == |ins| && Eval(m, j, consts + args) == Some(ValuesOf(m, ts, rank, ins, args, outs))
  }

  ghost predicate SameMeaning(ts: TracerGraph, rank: Node -> nat, ins: seq<Node>, outs: seq<Node>, j: Jaxpr,
                              consts: seq<Val>)
    requires Closed(GraphOf(ts), ts.Keys) && Ranked(GraphOf(ts), rank) && forall n :: n in ins || n in outs ==> n in ts
  {
    forall m: Math, args: seq<Val> :: MeansAt(m, ts, rank, ins, outs, j, consts, args)
  }

  lemma BuiltMeans(m: Math, ts: TracerGraph, rank: Node -> nat, ins: seq<Node>, outs: seq<Node>, reached: seq<Node>,
                   s: State, j: Jaxpr, consts: seq<Val>, args: seq<Val>)
    requires GraphOk(ts, rank) && Distinct(ins) && Built(ts, ins, outs, reached, s, j, consts)
    ensures MeansAt(m, ts, rank, ins, outs, j, consts, args)
  {
    hide Eval, FinalEnv, Typecheck, Typed, VarsOk, ConstsKept, Placed, Counted, ValueOf, TracerOk, Closed, Ranked;
    if TypesOf(args) == TracerAvals(ts, ins) {
      assert |args| == |TypesOf(args)| == |ins|;
      assert TypesOf(consts + args) == TypesOf(consts) + TypesOf(args);
      EvalSound(m, j, consts + args);
      var env := FinalEnv(m, j, consts + args).value;
      var inVars := j.binders[|consts|..];
      BindersEnv(ts, inVars, s, j, consts, args, env);
      forall i | 0 <= i < |outs| ensures Gets(env, j.outs)[i] == ValueOf(m, ts, rank, ins, args, outs[i]) {
        assert outs[i] in outs;
        VarValue(m, ts, rank, ins, inVars, s, args, env, outs[i]);
      }
      assert Gets(env, j.outs) == ValuesOf(m, ts, rank, ins, args, outs);
    }
  }

  lemma BindersEnv(ts: TracerGraph, inVars: seq<Var>, s: State, j: Jaxpr, consts: seq<Val>, args: seq<Val>, env: Env)
    requires j.binders == ConstBinders(s.consts) + inVars && consts == ConstVals(s.consts) && |args| == |inVars|
    requires AllBound(env.Keys, Atoms(j.binders)) && Gets(env, Atoms(j.binders)) == consts + args
    ensures forall i :: 0 <= i < |inVars| ==> inVars[i] in env && env[inVars[i]] == args[i]
    ensures forall i :: 0 <= i < |s.consts| ==> s.consts[i].0 in env && env[s.consts[i].0] == s.consts[i].1
  {
    forall i | 0 <= i < |j.binders| ensures j.binders[i] in env && env[j.binders[i]] == (consts + args)[i] {
      GetsAtomsAt(env, j.binders, i);
    }
    forall i | 0 <= i < |inVars| ensures inVars[i] in env && env[inVars[i]] == args[i] {
      assert inVars[i] == j.binders[|consts| + i];
    }
    forall i | 0 <= i < |s.consts| ensures s.consts[i].0 in env && env[s.consts[i].0] == s.consts[i].1 {
      assert s.consts[i].0 == j.binders[i];
    }
  }
}
