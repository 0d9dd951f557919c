/** What partial_eval_jaxpr does to the variables of a jaxpr, without doing it: which values are
    unknown, which variables become residuals, and when the residuals of conditionals clash. */
module Residuals {
  import opened Wrappers
  import opened Lists
  import opened Jaxprs
  import opened PartialEvaluation
  import opened PartialEvalProof
  import opened JvpTyping

  // ---------- which values are unknown ----------

  predicate Flag(env: Unknowns, x: Atom) {
    x.V? && x.v in env && env[x.v]
  }

  function Flags(env: Unknowns, xs: seq<Atom>): (r: seq<bool>)
    ensures |r| == |xs| && forall i :: 0 <= i < |xs| ==> r[i] == Flag(env, xs[i])
  {
    seq(|xs|, i requires 0 <= i < |xs| => Flag(env, xs[i]))
  }

  /** The outputs that depend on unknown operands. */
  function FlowEqn(e: Eqn, flags: seq<bool>): seq<bool>
    decreases e, 0
  {
    match e
    case PrimEqn(_, _, outs) => Repeat(true in flags, |outs|)
    case CallEqn(body, _, _) => Flow(body, flags)
    case CondEqn(onTrue, onFalse, _, _) =>
      if |flags| == 0 then [] else Or(Flow(onTrue, flags[1..]), Flow(onFalse, flags[1..]))
  }

  function FlowEqns(eqns: seq<Eqn>, env: Unknowns): Unknowns
    decreases eqns, 0
  {
    if eqns == [] then env
    else FlowEqns(eqns[1..], WriteUnks(env, FlowEqn(eqns[0], Flags(env, eqns[0].inputs)), eqns[0].outs))
  }

  function Flow(j: Jaxpr, unks: seq<bool>): seq<bool>
    decreases j, 1
  {
    Flags(FlowEqns(j.eqns, WriteUnks(map[], unks, j.binders)), j.outs)
  }

  predicate KnownPredsEqn(e: Eqn, flags: seq<bool>)
    decreases e, 0
  {
    match e
    case PrimEqn(_, _, _) => true
    case CallEqn(body, _, _) => KnownPreds(body, flags)
    case CondEqn(onTrue, onFalse, _, _) =>
      |flags| > 0 && !flags[0] && KnownPreds(onTrue, flags[1..]) && KnownPreds(onFalse, flags[1..])
  }

  predicate KnownPredsEqns(eqns: seq<Eqn>, env: Unknowns)
    decreases eqns, 0
  {
    if eqns == [] then true
    else
      var flags := Flags(env, eqns[0].inputs);
      KnownPredsEqn(eqns[0], flags) && KnownPredsEqns(eqns[1..], WriteUnks(env, FlowEqn(eqns[0], flags), eqns[0].outs))
  }

  /** No conditional, at any depth, has a predicate that depends on an unknown input. */
  predicate KnownPreds(j: Jaxpr, unks: seq<bool>)
    decreases j, 1
  {
    KnownPredsEqns(j.eqns, WriteUnks(map[], unks, j.binders))
  }

  // ---------- which variables occur where ----------

  function OutVars(eqns: seq<Eqn>): set<Var> {
    if eqns == [] then {} else ToSet(eqns[0].outs) + OutVars(eqns[1..])
  }

  /** The variables that a jaxpr binds itself. */
  function Level(j: Jaxpr): set<Var> {
    ToSet(j.binders) + OutVars(j.eqns)
  }

  /** The variables that may surface as residuals of a conditional. */
  function CondScope(e: Eqn): set<Var>
    decreases e, 0
  {
    if e.CondEqn? then Scope(e.onTrue) + Scope(e.onFalse) else {}
  }

  function CondScopes(eqns: seq<Eqn>): set<Var>
    decreases eqns, 0
  {
    if eqns == [] then {} else CondScope(eqns[0]) + CondScopes(eqns[1..])
  }

  function Scope(j: Jaxpr): set<Var>
    decreases j, 1
  {
    Level(j) + CondScopes(j.eqns)
  }

  predicate ApartEqn(e: Eqn)
    decreases e, 0
  {
    match e
    case PrimEqn(_, _, _) => true
    case CallEqn(body, _, _) => Apart(body)
    case CondEqn(onTrue, onFalse, _, _) =>
      Apart(onTrue) && Apart(onFalse) && Scope(onTrue) !! Scope(onFalse)
  }

  predicate ApartEqns(level: set<Var>, eqns: seq<Eqn>)
    decreases eqns, 0
  {
    if eqns == [] then true
    else
      && ApartEqn(eqns[0])
      && CondScope(eqns[0]) !! level
      && CondScope(eqns[0]) !! CondScopes(eqns[1..])
      && ApartEqns(level, eqns[1..])
  }

  /** Branches of conditionals share no variable with each other, with other conditionals, or
      with the jaxpr around them. A jaxpr without conditionals is trivially apart. */
  predicate Apart(j: Jaxpr)
    decreases j, 1
  {
    ApartEqns(Level(j), j.eqns)
  }

  predicate NamesBelowEqn(e: Eqn, n: nat)
    decreases e, 0
  {
    && (forall v :: v in e.outs ==> v.id < n)
    && (match e
        case PrimEqn(_, _, _) => true
        case CallEqn(body, _, _) => NamesBelow(body, n)
        case CondEqn(onTrue, onFalse, _, _) => NamesBelow(onTrue, n) && NamesBelow(onFalse, n))
  }

  predicate NamesBelowEqns(eqns: seq<Eqn>, n: nat)
    decreases eqns, 0
  {
    if eqns == [] then true else NamesBelowEqn(eqns[0], n) && NamesBelowEqns(eqns[1..], n)
  }

  /** Every variable bound at any depth is older than the next fresh one. */
  predicate NamesBelow(j: Jaxpr, n: nat)
    decreases j, 1
  {
    (forall v :: v in j.binders ==> v.id < n) && NamesBelowEqns(j.eqns, n)
  }

  lemma {:induction false} NamesBelowMore(j: Jaxpr, n: nat, n': nat)
    requires NamesBelow(j, n) && n <= n'
    ensures NamesBelow(j, n')
    decreases j, 1
  {
    NamesBelowEqnsMore(j.eqns, n, n');
  }

  lemma {:induction false} NamesBelowEqnsMore(eqns: seq<Eqn>, n: nat, n': nat)
    requires NamesBelowEqns(eqns, n) && n <= n'
    ensures NamesBelowEqns(eqns, n')
    decreases eqns, 0
  {
    if eqns != [] {
      NamesBelowEqnMore(eqns[0], n, n');
      NamesBelowEqnsMore(eqns[1..], n, n');
    }
  }

  lemma {:induction false} NamesBelowEqnMore(e: Eqn, n: nat, n': nat)
    requires NamesBelowEqn(e, n) && n <= n'
    ensures NamesBelowEqn(e, n')
    decreases e, 0
  {
    match e
    case PrimEqn(_, _, _) =>
    case CallEqn(body, _, _) => NamesBelowMore(body, n, n');
    case CondEqn(onTrue, onFalse, _, _) =>
      NamesBelowMore(onTrue, n, n');
      NamesBelowMore(onFalse, n, n');
  }

  lemma {:induction false} ScopeBelow(j: Jaxpr, n: nat)
    requires NamesBelow(j, n)
    ensures Below(Scope(j), n)
    decreases j, 1
  {
    ScopesBelow(j.eqns, n);
  }

  lemma {:induction false} ScopesBelow(eqns: seq<Eqn>, n: nat)
    requires NamesBelowEqns(eqns, n)
    ensures Below(OutVars(eqns) + CondScopes(eqns), n)
    decreases eqns, 0
  {
    if eqns != [] {
      ScopesBelow(eqns[1..], n);
      if eqns[0].CondEqn? {
        ScopeBelow(eqns[0].onTrue, n);
        ScopeBelow(eqns[0].onFalse, n);
      }
    }
  }

  function Known(env: Unknowns): set<Var> {
    set v | v in env && !env[v]
  }

  function Unknown(env: Unknowns): set<Var> {
    set v | v in env && env[v]
  }

  // ---------- residuals ----------

  /** The known variables among the outputs that are asked for as unknown ones. */
  function Asked(outs: seq<Atom>, flags: seq<bool>, inst: seq<bool>): set<Var> {
    set i | 0 <= i < |outs| && i < |flags| && i < |inst| && inst[i] && !flags[i] && outs[i].V? :: outs[i].v
  }

  function PredVar(inputs: seq<Atom>): set<Var> {
    if inputs != [] && inputs[0].V? then {inputs[0].v} else {}
  }

  /** The variables of the branches that a conditional hands from its first to its second half. */
  function CondRes(e: Eqn, flags: seq<bool>): set<Var>
    decreases e, 0
  {
    if !e.CondEqn? || |flags| == 0 then {}
    else
      var unks := flags[1..];
      var inst := Or(Flow(e.onTrue, unks), Flow(e.onFalse, unks));
      Res(e.onTrue, unks, inst) + Res(e.onFalse, unks, inst)
  }

  /** The residuals of an equation, apart from those that a call makes up. */
  function OwnRes(e: Eqn, flags: seq<bool>): set<Var>
    requires |flags| == |e.inputs|
    decreases e, 1
  {
    match e
    case PrimEqn(_, inputs, _) => if true in flags then KnownVars(flags, inputs) else {}
    case CallEqn(_, _, _) => {}
    case CondEqn(_, _, inputs, _) => PredVar(inputs) + CondRes(e, flags)
  }

  function OwnResEqns(eqns: seq<Eqn>, env: Unknowns): set<Var>
    decreases eqns, 0
  {
    if eqns == [] then {}
    else
      var flags := Flags(env, eqns[0].inputs);
      OwnRes(eqns[0], flags) + OwnResEqns(eqns[1..], WriteUnks(env, FlowEqn(eqns[0], flags), eqns[0].outs))
  }

  function CondResEqns(eqns: seq<Eqn>, env: Unknowns): set<Var>
    decreases eqns, 0
  {
    if eqns == [] then {}
    else
      var flags := Flags(env, eqns[0].inputs);
      CondRes(eqns[0], flags) + CondResEqns(eqns[1..], WriteUnks(env, FlowEqn(eqns[0], flags), eqns[0].outs))
  }

  /** The residuals of a jaxpr when the outputs `inst` are to be unknown. */
  function Res(j: Jaxpr, unks: seq<bool>, inst: seq<bool>): set<Var>
    decreases j, 1
  {
    OwnResEqns(j.eqns, WriteUnks(map[], unks, j.binders)) + Asked(j.outs, Flow(j, unks), inst)
  }

  /** The variables that the second stage binds itself. */
  function UnknownVars(j: Jaxpr, unks: seq<bool>): set<Var> {
    Unknown(FlowEqns(j.eqns, WriteUnks(map[], unks, j.binders)))
  }

  // ---------- clashes ----------

  /** The residuals of each branch can be bound in the second stage of the other. */
  predicate Joinable(t: Jaxpr, f: Jaxpr, unks: seq<bool>) {
    var inst := Or(Flow(t, unks), Flow(f, unks));
    && Res(t, unks, inst) !! Res(f, unks, inst)
    && Res(t, unks, inst) !! UnknownVars(f, unks) && Res(f, unks, inst) !! UnknownVars(t, unks)
  }

  predicate NoClashEqn(e: Eqn, flags: seq<bool>)
    decreases e, 0
  {
    match e
    case PrimEqn(_, _, _) => true
    case CallEqn(body, _, _) => NoClash(body, flags)
    case CondEqn(onTrue, onFalse, _, _) =>
      |flags| > 0 && NoClash(onTrue, flags[1..]) && NoClash(onFalse, flags[1..])
          && Joinable(onTrue, onFalse, flags[1..])
  }

  predicate NoClashInside(eqns: seq<Eqn>, env: Unknowns)
    decreases eqns, 0
  {
    if eqns == [] then true
    else
      var flags := Flags(env, eqns[0].inputs);
      NoClashEqn(eqns[0], flags) && NoClashInside(eqns[1..], WriteUnks(env, FlowEqn(eqns[0], flags), eqns[0].outs))
  }

  /** The residuals of a conditional are bound nowhere else. */
  predicate ResApart(level: set<Var>, eqns: seq<Eqn>, env: Unknowns)
    decreases eqns, 0
  {
    if eqns == [] then true
    else
      var flags := Flags(env, eqns[0].inputs);
      var env1 := WriteUnks(env, FlowEqn(eqns[0], flags), eqns[0].outs);
      && CondRes(eqns[0], flags) !! level && CondRes(eqns[0], flags) !! CondResEqns(eqns[1..], env1)
      && ResApart(level, eqns[1..], env1)
  }

  /** No variable would be bound twice in the stages of the jaxpr or of a jaxpr in it. */
  predicate NoClash(j: Jaxpr, unks: seq<bool>)
    decreases j, 1
  {
    var env := WriteUnks(map[], unks, j.binders);
    NoClashInside(j.eqns, env) && ResApart(Level(j), j.eqns, env)
  }

  // ---------- small facts ----------

  lemma {:induction false} WriteUnksExact(env: Unknowns, unks: seq<bool>, vs: seq<Var>)
    requires |unks| == |vs| && Distinct(vs) && forall v :: v in vs ==> v !in env
    ensures var r := WriteUnks(env, unks, vs);
            && r.Keys == env.Keys + ToSet(vs)
            && (forall v :: v in env ==> r[v] == env[v])
            && (forall i :: 0 <= i < |vs| ==> r[vs[i]] == unks[i])
    decreases vs
  {
    if vs != [] {
      assert vs == [vs[0]] + vs[1..];
      WriteUnksExact(env[vs[0] := unks[0]], unks[1..], vs[1..]);
      var r := WriteUnks(env, unks, vs);
      forall i | 0 <= i < |vs| ensures r[vs[i]] == unks[i] {
        if i > 0 {
          assert vs[i] == vs[1..][i - 1] && unks[i] == unks[1..][i - 1];
        }
      }
    }
  }

  lemma SplitEnv(env: Unknowns, unks: seq<bool>, vs: seq<Var>)
    requires |unks| == |vs| && Distinct(vs) && forall v :: v in vs ==> v !in env
    ensures Known(WriteUnks(env, unks, vs)) == Known(env) + ToSet(Select(unks, false, vs))
    ensures Unknown(WriteUnks(env, unks, vs)) == Unknown(env) + ToSet(Select(unks, true, vs))
  {
    WriteUnksExact(env, unks, vs);
    var r := WriteUnks(env, unks, vs);
    forall b: bool, v | v in r && v !in env && r[v] == b ensures v in Select(unks, b, vs) {
      var i :| 0 <= i < |vs| && vs[i] == v;
      SelectMember(unks, b, vs, i);
    }
    forall b: bool, v | v in Select(unks, b, vs) ensures v in r && r[v] == b && v !in env {
      var i := SelectIndex(unks, b, vs, v);
    }
  }

  lemma UnksFlags(env: Unknowns, xs: seq<Atom>)
    requires AllBound(env.Keys, xs)
    ensures Unks(env, xs) == Some(Flags(env, xs))
  {
    forall i | 0 <= i < |xs| ensures Unk(env, xs[i]) == Flag(env, xs[i]) {
      assert Bound(env.Keys, xs[i]);
    }
    assert Unks(env, xs).value == Flags(env, xs);
  }

  lemma DistinctOuts(bound: set<Var>, e: Eqn)
    requires TypecheckEqn(bound, e).Some?
    ensures Distinct(e.outs) && ToSet(e.outs) !! bound && TypecheckEqn(bound, e).value == bound + ToSet(e.outs)
    ensures AllBound(bound, e.inputs) && AbstractEval(e, AtomTys(e.inputs)) == Some(Avals(e.outs))
  {
  }

  lemma BindOne(s: set<Var>, vs: seq<Var>)
    requires Distinct(vs) && ToSet(vs) !! s
    ensures BindVars(s, vs) == Some(s + ToSet(vs))
  {
  }

  lemma DistinctAppend(vs: seq<Var>, ws: seq<Var>)
    requires Distinct(vs) && Distinct(ws) && ToSet(vs) !! ToSet(ws)
    ensures Distinct(vs + ws) && ToSet(vs + ws) == ToSet(vs) + ToSet(ws)
  {
    forall i, j | 0 <= i < j < |vs + ws| ensures (vs + ws)[i] != (vs + ws)[j] {
      assert i < |vs| ==> (vs + ws)[i] in ToSet(vs);
      assert j >= |vs| ==> (vs + ws)[j] in ToSet(ws);
    }
  }

  lemma SingleEqn(s: set<Var>, e: Eqn)
    requires AllBound(s, e.inputs) && AbstractEval(e, AtomTys(e.inputs)) == Some(Avals(e.outs))
    requires Distinct(e.outs) && ToSet(e.outs) !! s
    ensures TypecheckEqns(s, [e]) == Some(s + ToSet(e.outs))
  {
    hide AbstractEval, BindVars;
    BindOne(s, e.outs);
    assert TypecheckEqn(s, e) == Some(s + ToSet(e.outs));
    assert [e][1..] == [];
  }

  lemma FreshDistinct(tys: seq<Ty>, n: nat)
    ensures Distinct(FreshVars(tys, n)) && Avals(FreshVars(tys, n)) == tys
    ensures forall v :: v in FreshVars(tys, n) ==> n <= v.id < n + |tys|
  {
  }

  lemma FreshTwice(tys: seq<Ty>, n: nat)
    ensures FreshVars(tys, n) + FreshVars(tys, n + |tys|) == FreshVars(tys + tys, n)
  {
  }

  lemma HalvesFlags(u: seq<bool>, ps: seq<Var>, ts: seq<Var>)
    requires Distinct(ps + ts) && |ps| == |ts| == |u|
    ensures var env := WriteUnks(map[], Repeat(false, |u|) + u, ps + ts);
            forall i :: 0 <= i < |u| ==> ps[i] in env && !env[ps[i]] && ts[i] in env && env[ts[i]] == u[i]
  {
    hide WriteUnks, Distinct;
    var k, flags, both := |u|, Repeat(false, |u|) + u, ps + ts;
    WriteUnksExact(map[], flags, both);
    var env := WriteUnks(map[], flags, both);
    forall i | 0 <= i < k ensures ps[i] in env && !env[ps[i]] && ts[i] in env && env[ts[i]] == u[i] {
      assert both[i] == ps[i] && both[k + i] == ts[i];
      assert env[both[i]] == flags[i] && env[both[k + i]] == flags[k + i];
    }
  }

  /** The inputs of a JVP: known primals, and tangents with the given flags. */
  lemma StartFlags(tys: seq<Ty>, next: nat, u: seq<bool>, ps: seq<Var>, ts: seq<Var>)
    requires ps == FreshVars(tys, next) && ts == FreshVars(tys, next + |tys|) && |u| == |tys|
    ensures var env := WriteUnks(map[], Repeat(false, |tys|) + u, ps + ts);
            forall i :: 0 <= i < |tys| ==> ps[i] in env && !env[ps[i]] && ts[i] in env && env[ts[i]] == u[i]
  {
    hide WriteUnks, Distinct, FreshVars;
    FreshTwice(tys, next);
    FreshDistinct(tys + tys, next);
    assert |ps| == |Avals(ps)| && |ts| == |Avals(ts)| by {
      FreshDistinct(tys, next);
      FreshDistinct(tys, next + |tys|);
    }
    HalvesFlags(u, ps, ts);
  }

  lemma DistinctParts(vs: seq<Var>, ws: seq<Var>)
    requires Distinct(vs + ws)
    ensures Distinct(vs) && Distinct(ws) && ToSet(vs) !! ToSet(ws)
  {
    var all := vs + ws;
    assert forall i :: 0 <= i < |vs| ==> vs[i] == all[i];
    forall i, k | 0 <= i < k < |ws| ensures ws[i] != ws[k] {
      assert all[|vs| + i] == ws[i] && all[|vs| + k] == ws[k];
    }
    forall i, k | 0 <= i < |vs| && 0 <= k < |ws| ensures vs[i] != ws[k] {
      assert all[|vs| + k] == ws[k];
    }
  }

  lemma AvalsSelect(bs: seq<bool>, b: bool, vs: seq<Var>)
    requires |bs| == |vs|
    ensures Avals(Select(bs, b, vs)) == Select(bs, b, Avals(vs))
  {
    SelectPointwise(bs, b, vs, Avals(vs), (v: Var) => v.aval);
  }

  lemma AtomTysAppend(xs: seq<Atom>, ys: seq<Atom>)
    ensures AtomTys(xs + ys) == AtomTys(xs) + AtomTys(ys)
  {
  }

  lemma AtomTysOfVars(vs: seq<Var>)
    ensures AtomTys(Atoms(vs)) == Avals(vs)
  {
  }

  lemma BoundAppend(s: set<Var>, xs: seq<Atom>, ys: seq<Atom>)
    requires AllBound(s, xs) && AllBound(s, ys)
    ensures AllBound(s, xs + ys)
  {
  }

  lemma BoundAtoms(s: set<Var>, vs: seq<Var>)
    requires ToSet(vs) <= s
    ensures AllBound(s, Atoms(vs))
  {
  }

  lemma {:induction false} FlowLength(e: Eqn, flags: seq<bool>)
    requires AbstractEval(e, AtomTys(e.inputs)) == Some(Avals(e.outs)) && |flags| == |e.inputs|
    ensures |FlowEqn(e, flags)| == |e.outs|
  {
    hide Flow;
    match e
    case PrimEqn(_, _, _) =>
    case CallEqn(body, _, _) =>
      TypecheckTypes(body);
      FlowOuts(body, flags);
    case CondEqn(onTrue, onFalse, _, _) =>
      TypecheckTypes(onTrue);
      TypecheckTypes(onFalse);
      FlowOuts(onTrue, flags[1..]);
      FlowOuts(onFalse, flags[1..]);
  }

  lemma FlowOuts(j: Jaxpr, unks: seq<bool>)
    ensures |Flow(j, unks)| == |j.outs|
  {
  }

  lemma OutsBoundSet(j: Jaxpr) returns (bound: set<Var>)
    requires Typecheck(j).Some?
    ensures BindVars({}, j.binders) == Some(bound) && TypecheckEqns(bound, j.eqns).Some?
    ensures bound == ToSet(j.binders) && Distinct(j.binders) && TypecheckEqns(bound, j.eqns).value == Level(j)
    ensures AllBound(Level(j), j.outs)
  {
    bound := TypecheckStart(j);
    EqnVars(bound, j.eqns);
    assert {} + ToSet(j.binders) == ToSet(j.binders);
  }

  lemma {:induction false} EqnVars(bound: set<Var>, eqns: seq<Eqn>)
    requires TypecheckEqns(bound, eqns).Some?
    ensures TypecheckEqns(bound, eqns).value == bound + OutVars(eqns)
    decreases eqns
  {
    if eqns != [] {
      DistinctOuts(bound, eqns[0]);
      EqnVars(TypecheckEqn(bound, eqns[0]).value, eqns[1..]);
    }
  }

  // ---------- where residuals come from ----------

  lemma AskedVars(outs: seq<Atom>, flags: seq<bool>, inst: seq<bool>, s: set<Var>)
    requires AllBound(s, outs)
    ensures Asked(outs, flags, inst) <= s
  {
    forall v | v in Asked(outs, flags, inst) ensures v in s {
      var i :| 0 <= i < |outs| && i < |flags| && i < |inst| && inst[i] && !flags[i] && outs[i].V? && outs[i].v == v;
      assert Bound(s, outs[i]);
    }
  }

  lemma KnownOperands(env: Unknowns, xs: seq<Atom>)
    requires AllBound(env.Keys, xs)
    ensures KnownVars(Flags(env, xs), xs) <= Known(env)
  {
    var flags := Flags(env, xs);
    forall v | v in KnownVars(flags, xs) ensures v in Known(env) {
      var i :| 0 <= i < |xs| && !flags[i] && xs[i].V? && xs[i].v == v;
      assert Bound(env.Keys, xs[i]);
    }
  }

  /** An equation's own residuals are known operands or variables of the branches of a conditional. */
  lemma OwnResParts(e: Eqn, env: Unknowns)
    requires AllBound(env.Keys, e.inputs) && KnownPredsEqn(e, Flags(env, e.inputs))
    ensures OwnRes(e, Flags(env, e.inputs)) <= Known(env) + CondRes(e, Flags(env, e.inputs))
    ensures CondRes(e, Flags(env, e.inputs)) <= OwnRes(e, Flags(env, e.inputs))
  {
    hide Res, Flow, KnownPreds;
    KnownOperands(env, e.inputs);
    if e.CondEqn? && e.inputs != [] {
      assert Bound(env.Keys, e.inputs[0]);
    }
  }

  /** The residuals of a jaxpr are variables of its own or of its conditionals. */
  lemma {:induction false} ResScope(j: Jaxpr, unks: seq<bool>, inst: seq<bool>)
    requires Typecheck(j).Some? && |unks| == |j.binders|
    ensures Res(j, unks, inst) <= Scope(j) && UnknownVars(j, unks) <= Level(j)
    decreases j, 1
  {
    hide OwnResEqns, CondScopes, Level, TypecheckEqns, Flow;
    var bound := OutsBoundSet(j);
    var env := WriteUnks(map[], unks, j.binders);
    WriteUnksExact(map[], unks, j.binders);
    assert env.Keys == bound;
    ResScopes(j.eqns, env);
    AskedVars(j.outs, Flow(j, unks), inst, Level(j));
  }

  lemma {:induction false} ResScopes(eqns: seq<Eqn>, env: Unknowns)
    requires TypecheckEqns(env.Keys, eqns).Some?
    ensures OwnResEqns(eqns, env) <= TypecheckEqns(env.Keys, eqns).value + CondScopes(eqns)
    ensures CondResEqns(eqns, env) <= CondScopes(eqns)
    ensures FlowEqns(eqns, env).Keys == TypecheckEqns(env.Keys, eqns).value
    decreases eqns, 0
  {
    hide TypecheckEqn, OwnRes, CondRes, CondScope, FlowEqn;
    if eqns != [] {
      var e := eqns[0];
      var flags := Flags(env, e.inputs);
      DistinctOuts(env.Keys, e);
      FlowLength(e, flags);
      var env1 := WriteUnks(env, FlowEqn(e, flags), e.outs);
      WriteUnksExact(env, FlowEqn(e, flags), e.outs);
      ResScopes(eqns[1..], env1);
      TypecheckGrows(env1.Keys, eqns[1..]);
      OwnResScope(e, env);
    }
  }

  lemma {:induction false} OwnResScope(e: Eqn, env: Unknowns)
    requires AllBound(env.Keys, e.inputs) && AbstractEval(e, AtomTys(e.inputs)) == Some(Avals(e.outs))
    ensures OwnRes(e, Flags(env, e.inputs)) <= env.Keys + CondScope(e)
            && CondRes(e, Flags(env, e.inputs)) <= CondScope(e)
    decreases e, 1
  {
    hide Res, Scope, Typecheck, Flow;
    var flags := Flags(env, e.inputs);
    KnownOperands(env, e.inputs);
    if e.CondEqn? {
      assert e.inputs != [] && Bound(env.Keys, e.inputs[0]);
      CondResScope(e, flags);
    }
  }

  lemma {:induction false} CondResScope(e: Eqn, flags: seq<bool>)
    requires e.CondEqn? && |flags| == |e.inputs| && AbstractEval(e, AtomTys(e.inputs)).Some?
    ensures CondRes(e, flags) <= CondScope(e)
    decreases e, 0
  {
    hide Res, Scope, Flow;
    TypecheckTypes(e.onTrue);
    TypecheckTypes(e.onFalse);
    hide Typecheck;
    var inst := Or(Flow(e.onTrue, flags[1..]), Flow(e.onFalse, flags[1..]));
    ResScope(e.onTrue, flags[1..], inst);
    ResScope(e.onFalse, flags[1..], inst);
  }

  /** Conditionals that share no variables do not clash. */
  lemma {:induction false} ApartNoClash(j: Jaxpr, unks: seq<bool>)
    requires Typecheck(j).Some? && |unks| == |j.binders| && Apart(j)
    ensures NoClash(j, unks)
    decreases j, 1
  {
    hide NoClashInside, ResApart, ApartEqns, Level, TypecheckEqns;
    var bound := OutsBoundSet(j);
    var env := WriteUnks(map[], unks, j.binders);
    WriteUnksExact(map[], unks, j.binders);
    assert env.Keys == bound;
    ApartNoClashes(Level(j), j.eqns, env);
  }

  lemma {:induction false} ApartNoClashes(level: set<Var>, eqns: seq<Eqn>, env: Unknowns)
    requires TypecheckEqns(env.Keys, eqns).Some? && ApartEqns(level, eqns)
    ensures NoClashInside(eqns, env) && ResApart(level, eqns, env)
    decreases eqns, 0
  {
    hide TypecheckEqn, CondRes, CondScope, FlowEqn, NoClashEqn, ApartEqn;
    if eqns != [] {
      var e := eqns[0];
      var flags := Flags(env, e.inputs);
      DistinctOuts(env.Keys, e);
      FlowLength(e, flags);
      var env1 := WriteUnks(env, FlowEqn(e, flags), e.outs);
      WriteUnksExact(env, FlowEqn(e, flags), e.outs);
      ApartNoClashes(level, eqns[1..], env1);
      ResScopes(eqns[1..], env1);
      OwnResScope(e, env);
      ApartNoClashEqn(e, flags);
    }
  }

  lemma {:induction false} ApartNoClashEqn(e: Eqn, flags: seq<bool>)
    requires ApartEqn(e) && |flags| == |e.inputs| && AbstractEval(e, AtomTys(e.inputs)).Some?
    ensures NoClashEqn(e, flags)
    decreases e, 0
  {
    hide NoClash, Apart, Res, Scope, UnknownVars, Flow;
    match e
    case PrimEqn(_, _, _) =>
    case CallEqn(body, _, _) =>
      TypecheckTypes(body);
      ApartNoClash(body, flags);
    case CondEqn(onTrue, onFalse, _, _) =>
      TypecheckTypes(onTrue);
      TypecheckTypes(onFalse);
      hide Typecheck;
      ApartNoClash(onTrue, flags[1..]);
      ApartNoClash(onFalse, flags[1..]);
      var inst := Or(Flow(onTrue, flags[1..]), Flow(onFalse, flags[1..]));
      ResScope(onTrue, flags[1..], inst);
      ResScope(onFalse, flags[1..], inst);
      LevelInScope(onTrue);
      LevelInScope(onFalse);
  }

  lemma LevelInScope(j: Jaxpr)
    ensures Level(j) <= Scope(j)
  {
  }
}
