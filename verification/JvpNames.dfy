/** Which variables a staged JVP has. It makes new ones for every Jaxpr object that it stages, once for
    each object because of the cache; conditionals in it clash only through objects that occur twice. */
module JvpNames {
  import opened Wrappers
  import opened Lists
  import opened Jaxprs
  import opened PartialEvaluation
  import opened PartialEvalProof
  import opened Residuals
  import opened Jvp
  import opened JvpTyping

  // ---------- the objects in a jaxpr ----------

  function ObjectsEqn(e: Eqn): set<Jaxpr>
    decreases e, 0
  {
    match e
    case PrimEqn(_, _, _) => {}
    case CallEqn(body, _, _) => Objects(body)
    case CondEqn(onTrue, onFalse, _, _) => Objects(onTrue) + Objects(onFalse)
  }

  function ObjectsEqns(eqns: seq<Eqn>): set<Jaxpr>
    decreases eqns, 0
  {
    if eqns == [] then {} else ObjectsEqn(eqns[0]) + ObjectsEqns(eqns[1..])
  }

  /** The Jaxpr objects in a jaxpr, including itself. */
  function Objects(j: Jaxpr): set<Jaxpr>
    decreases j, 1
  {
    {j} + ObjectsEqns(j.eqns)
  }

  function SizeEqn(e: Eqn): nat
    decreases e, 0
  {
    match e
    case PrimEqn(_, _, _) => 1
    case CallEqn(body, _, _) => Size(body)
    case CondEqn(onTrue, onFalse, _, _) => Size(onTrue) + Size(onFalse)
  }

  function SizeEqns(eqns: seq<Eqn>): nat
    decreases eqns, 0
  {
    if eqns == [] then 0 else SizeEqn(eqns[0]) + SizeEqns(eqns[1..])
  }

  /** The number of jaxprs and operations, whatever their identities. */
  function Size(j: Jaxpr): nat
    decreases j, 1
  {
    1 + SizeEqns(j.eqns)
  }

  /** A jaxpr does not occur inside itself. */
  lemma {:induction false} ObjectsSmaller(eqns: seq<Eqn>, k: Jaxpr)
    requires k in ObjectsEqns(eqns)
    ensures Size(k) <= SizeEqns(eqns)
    decreases eqns, 0
  {
    if k in ObjectsEqn(eqns[0]) {
      match eqns[0] {
        case PrimEqn(_, _, _) =>
        case CallEqn(body, _, _) => ObjectSmaller(body, k);
        case CondEqn(onTrue, onFalse, _, _) =>
          if k in Objects(onTrue) {
            ObjectSmaller(onTrue, k);
          } else {
            ObjectSmaller(onFalse, k);
          }
      }
    } else {
      ObjectsSmaller(eqns[1..], k);
    }
  }

  lemma {:induction false} ObjectSmaller(j: Jaxpr, k: Jaxpr)
    requires k in Objects(j)
    ensures Size(k) <= Size(j)
    decreases j, 1
  {
    if k in ObjectsEqns(j.eqns) {
      ObjectsSmaller(j.eqns, k);
    }
  }

  // ---------- the variables that are made ----------

  function End(names: Naming, j: Jaxpr): nat {
    if JvpJaxpr(names, j).Some? then JvpJaxpr(names, j).value.next else names.first(j)
  }

  /** A variable that jvp_jaxpr makes when it stages the object `k` itself. */
  predicate MadeFor(names: Naming, v: Var, k: Jaxpr) {
    names.first(k) <= v.id < End(names, k)
  }

  /** Each object has its own new variables. */
  ghost predicate Allocated(names: Naming, objs: set<Jaxpr>) {
    && (forall k :: k in objs ==> names.below <= names.first(k) && End(names, k) <= names.next)
    && (forall k, k', v: Var :: k in objs && k' in objs && MadeFor(names, v, k) && MadeFor(names, v, k') ==> k == k')
  }

  /** The names are those of a run in which `j` is staged: its variables are old, and what is made for its
      objects is new. */
  ghost predicate Allocation(names: Naming, j: Jaxpr) {
    NamesBelow(j, names.below) && names.below <= names.next && Allocated(names, Objects(j))
  }

  // ---------- which jaxprs keep their conditionals apart ----------

  /** Some operand is not in `plain`, the variables that depend on no input. */
  predicate Meets(e: Eqn, plain: set<Var>) {
    exists i :: 0 <= i < |e.inputs| && e.inputs[i].V? && e.inputs[i].v !in plain
  }

  function PlainAfter(e: Eqn, plain: set<Var>): set<Var> {
    if Meets(e, plain) then plain else plain + ToSet(e.outs)
  }

  /** The objects that are staged as branches of a conditional, at any depth. */
  function BranchesEqn(e: Eqn, plain: set<Var>): set<Jaxpr>
    decreases e, 0
  {
    if e.CondEqn? && Meets(e, plain) then
      {e.onTrue} + InnerBranches(e.onTrue) + {e.onFalse} + InnerBranches(e.onFalse)
    else {}
  }

  function BranchesEqns(eqns: seq<Eqn>, plain: set<Var>): set<Jaxpr>
    decreases eqns, 0
  {
    if eqns == [] then {}
    else BranchesEqn(eqns[0], plain) + BranchesEqns(eqns[1..], PlainAfter(eqns[0], plain))
  }

  function InnerBranches(j: Jaxpr): set<Jaxpr>
    decreases j, 1
  {
    BranchesEqns(j.eqns, {})
  }

  /** The variables of conditionals that depend on no input, and are therefore taken over as they are. */
  function HeldEqn(e: Eqn, plain: set<Var>): set<Var>
    decreases e, 0
  {
    if !e.CondEqn? then {}
    else if Meets(e, plain) then Held(e.onTrue) + Held(e.onFalse)
    else CondScope(e)
  }

  function HeldEqns(eqns: seq<Eqn>, plain: set<Var>): set<Var>
    decreases eqns, 0
  {
    if eqns == [] then {} else HeldEqn(eqns[0], plain) + HeldEqns(eqns[1..], PlainAfter(eqns[0], plain))
  }

  function Held(j: Jaxpr): set<Var>
    decreases j, 1
  {
    HeldEqns(j.eqns, {})
  }

  predicate SeparateEqn(e: Eqn, plain: set<Var>)
    decreases e, 0
  {
    if !Meets(e, plain) then ApartEqn(e)
    else
      match e
      case PrimEqn(_, _, _) => true
      case CallEqn(body, _, _) => Separate(body)
      case CondEqn(onTrue, onFalse, _, _) =>
        && Separate(onTrue) && Separate(onFalse)
        && {onTrue} + InnerBranches(onTrue) !! {onFalse} + InnerBranches(onFalse)
        && Held(onTrue) !! Held(onFalse)
  }

  predicate SeparateEqns(eqns: seq<Eqn>, plain: set<Var>)
    decreases eqns, 0
  {
    if eqns == [] then true
    else
      var plain1 := PlainAfter(eqns[0], plain);
      && SeparateEqn(eqns[0], plain)
      && BranchesEqn(eqns[0], plain) !! BranchesEqns(eqns[1..], plain1)
      && HeldEqn(eqns[0], plain) !! HeldEqns(eqns[1..], plain1)
      && SeparateEqns(eqns[1..], plain1)
  }

  /** No Jaxpr object occurs twice as a branch that will be staged, and conditionals that are taken over
      share no variables. Different objects may share all their variables. */
  predicate Separate(j: Jaxpr)
    decreases j, 1
  {
    SeparateEqns(j.eqns, {})
  }

  lemma {:induction false} BranchesObjects(eqns: seq<Eqn>, plain: set<Var>)
    ensures BranchesEqns(eqns, plain) <= ObjectsEqns(eqns)
    decreases eqns, 0
  {
    hide Meets;
    if eqns != [] {
      BranchesObjects(eqns[1..], PlainAfter(eqns[0], plain));
      if eqns[0].CondEqn? {
        InnerObjects(eqns[0].onTrue);
        InnerObjects(eqns[0].onFalse);
      }
    }
  }

  lemma {:induction false} InnerObjects(j: Jaxpr)
    ensures InnerBranches(j) <= Objects(j) && j !in InnerBranches(j)
    decreases j, 1
  {
    BranchesObjects(j.eqns, {});
    if j in ObjectsEqns(j.eqns) {
      ObjectsSmaller(j.eqns, j);
    }
  }

  /** What is taken over is old. */
  lemma {:induction false} HeldScopes(eqns: seq<Eqn>, plain: set<Var>)
    ensures HeldEqns(eqns, plain) <= CondScopes(eqns)
    decreases eqns, 0
  {
    hide Meets, Level;
    if eqns != [] {
      HeldScopes(eqns[1..], PlainAfter(eqns[0], plain));
      if eqns[0].CondEqn? {
        HeldScopes(eqns[0].onTrue.eqns, {});
        HeldScopes(eqns[0].onFalse.eqns, {});
        assert Held(eqns[0].onTrue) <= Scope(eqns[0].onTrue) && Held(eqns[0].onFalse) <= Scope(eqns[0].onFalse);
        assert HeldEqn(eqns[0], plain) <= CondScope(eqns[0]);
      }
    }
  }

  lemma HeldBelow(eqns: seq<Eqn>, plain: set<Var>, n: nat)
    requires NamesBelowEqns(eqns, n)
    ensures Below(HeldEqns(eqns, plain), n)
  {
    HeldScopes(eqns, plain);
    ScopesBelow(eqns, n);
  }

  // ---------- tracers ----------

  /** Exactly the variables outside `plain` are tracers. */
  ghost predicate Traces(trs: TrEnv, plain: set<Var>) {
    plain <= trs.Keys && forall v :: v in trs ==> (trs[v].Plain? <==> v in plain)
  }

  lemma WriteTraces(trs: TrEnv, vs: seq<Var>, ts: seq<Tr>, plain: set<Var>)
    requires Traces(trs, plain) && |vs| == |ts| && Distinct(vs) && forall v :: v in vs ==> v !in trs
    ensures WriteTrs(trs, vs, ts).Some?
    ensures (forall t :: t in ts ==> t.Dual?) ==> Traces(WriteTrs(trs, vs, ts).value, plain)
    ensures (forall t :: t in ts ==> t.Plain?) ==> Traces(WriteTrs(trs, vs, ts).value, plain + ToSet(vs))
  {
    hide WriteTrs;
    WriteTrsSpec(trs, vs, ts);
    var r := WriteTrs(trs, vs, ts).value;
    forall v | v in r && v !in trs ensures r[v] in ts && v in ToSet(vs) {
      var i :| 0 <= i < |vs| && vs[i] == v;
      assert r[vs[i]] == ts[i];
    }
  }

  /** An equation that meets a tracer returns tracers, and otherwise it returns plain values. */
  lemma MetTracers(names: Naming, e: Eqn, trs: TrEnv, plain: set<Var>, next: nat)
    requires AllBound(trs.Keys, e.inputs) && Traces(trs, plain) && JvpEqn(names, e, ReadTrs(trs, e.inputs), next).Some?
    ensures Meets(e, plain) <==> exists t :: t in ReadTrs(trs, e.inputs) && t.Dual?
    ensures var r := JvpEqn(names, e, ReadTrs(trs, e.inputs), next).value;
            if Meets(e, plain) then forall t :: t in r.outs ==> t.Dual? else forall t :: t in r.outs ==> t.Plain?
  {
    hide JvpJaxpr, Typecheck, AbstractEval;
    var ins := ReadTrs(trs, e.inputs);
    if Meets(e, plain) {
      var i :| 0 <= i < |e.inputs| && e.inputs[i].V? && e.inputs[i].v !in plain;
      assert Bound(trs.Keys, e.inputs[i]);
      assert ins[i].Dual?;
    } else {
      forall i | 0 <= i < |ins| ensures ins[i].Plain? {
        assert Bound(trs.Keys, e.inputs[i]);
      }
    }
  }

  // ---------- where the variables of a staged JVP come from ----------

  ghost predicate From(names: Naming, v: Var, held: set<Var>, objs: set<Jaxpr>) {
    v in held || exists k :: k in objs && MadeFor(names, v, k)
  }

  ghost predicate AllFrom(names: Naming, s: set<Var>, held: set<Var>, objs: set<Jaxpr>) {
    forall v :: v in s ==> From(names, v, held, objs)
  }

  lemma FromMore(names: Naming, s: set<Var>, s': set<Var>, held: set<Var>, held': set<Var>, objs: set<Jaxpr>,
                 objs': set<Jaxpr>)
    requires AllFrom(names, s, held, objs) && AllFrom(names, s', held', objs')
    ensures AllFrom(names, s + s', held + held', objs + objs')
  {
    hide MadeFor;
    forall v | v in s + s' ensures From(names, v, held + held', objs + objs') {
      if v in s {
        assert From(names, v, held, objs);
      } else {
        assert From(names, v, held', objs');
      }
    }
  }

  lemma FromApart(names: Naming, s: set<Var>, s': set<Var>, held: set<Var>, held': set<Var>, objs: set<Jaxpr>,
                  objs': set<Jaxpr>)
    requires AllFrom(names, s, held, objs) && AllFrom(names, s', held', objs')
    requires Allocated(names, objs + objs') && Below(held, names.below) && Below(held', names.below)
    requires held !! held' && objs !! objs'
    ensures s !! s'
  {
    forall v | v in s ensures v !in s' {
      assert From(names, v, held, objs);
      assert v in s' ==> From(names, v, held', objs');
    }
  }

  lemma AllocatedLess(names: Naming, objs: set<Jaxpr>, objs': set<Jaxpr>)
    requires Allocated(names, objs) && objs' <= objs
    ensures Allocated(names, objs')
  {
    hide MadeFor, End;
  }

  /** The conditionals of a list share no variable with each other. */
  predicate ApartList(eqns: seq<Eqn>) {
    if eqns == [] then true
    else ApartEqn(eqns[0]) && CondScope(eqns[0]) !! CondScopes(eqns[1..]) && ApartList(eqns[1..])
  }

  lemma {:induction false} ApartFromLevel(level: set<Var>, eqns: seq<Eqn>)
    ensures ApartEqns(level, eqns) <==> ApartList(eqns) && CondScopes(eqns) !! level
    decreases eqns
  {
    hide ApartEqn, CondScope;
    if eqns != [] {
      ApartFromLevel(level, eqns[1..]);
    }
  }

  lemma {:induction false} AppendNames(xs: seq<Eqn>, ys: seq<Eqn>)
    ensures OutVars(xs + ys) == OutVars(xs) + OutVars(ys)
    ensures CondScopes(xs + ys) == CondScopes(xs) + CondScopes(ys)
    ensures ApartList(xs + ys) <==> ApartList(xs) && ApartList(ys) && CondScopes(xs) !! CondScopes(ys)
    decreases xs
  {
    hide ApartEqn, CondScope;
    if xs == [] {
      assert xs + ys == ys;
    } else {
      assert (xs + ys)[1..] == xs[1..] + ys;
      AppendNames(xs[1..], ys);
    }
  }

  lemma OneName(e: Eqn)
    ensures OutVars([e]) == ToSet(e.outs) && CondScopes([e]) == CondScope(e) && (ApartList([e]) <==> ApartEqn(e))
  {
    hide ApartEqn, CondScope;
    assert [e][1..] == [];
    assert OutVars([]) == {} && CondScopes([]) == {} && ApartList([]);
  }

  /** What is known of recorded equations: their own variables are numbered from `n`, and those of their
      conditionals are taken over or made for objects. */
  ghost predicate Recorded(names: Naming, eqns: seq<Eqn>, held: set<Var>, objs: set<Jaxpr>, n: nat, n': nat) {
    && n <= n' && (forall v :: v in OutVars(eqns) ==> n <= v.id < n')
    && AllFrom(names, CondScopes(eqns), held, objs)
  }

  lemma RecordedAppend(names: Naming, xs: seq<Eqn>, ys: seq<Eqn>, held: set<Var>, held': set<Var>,
                       objs: set<Jaxpr>, objs': set<Jaxpr>, n: nat, n1: nat, n2: nat)
    requires Recorded(names, xs, held, objs, n, n1) && Recorded(names, ys, held', objs', n1, n2)
    ensures Recorded(names, xs + ys, held + held', objs + objs', n, n2)
  {
    hide OutVars, CondScopes, ApartList, MadeFor;
    AppendNames(xs, ys);
    FromMore(names, CondScopes(xs), CondScopes(ys), held, held', objs, objs');
  }

  lemma {:induction false} RecordedOps(names: Naming, eqns: seq<Eqn>, n: nat, n': nat)
    requires n <= n' && forall e :: e in eqns ==> e.PrimEqn? && forall v :: v in e.outs ==> n <= v.id < n'
    ensures CondScopes(eqns) == {} && Recorded(names, eqns, {}, {}, n, n') && ApartList(eqns)
    decreases eqns
  {
    hide MadeFor;
    if eqns != [] {
      assert eqns[0] in eqns && forall e :: e in eqns[1..] ==> e in eqns;
      RecordedOps(names, eqns[1..], n, n');
    }
  }

  lemma JvpPrimNames(names: Naming, p: Prim, ins: seq<Tr>, next: nat)
    requires JvpPrim(p, ins, next).Some?
    ensures Recorded(names, JvpPrim(p, ins, next).value.eqns, {}, {}, next, JvpPrim(p, ins, next).value.next)
    ensures ApartList(JvpPrim(p, ins, next).value.eqns)
  {
    hide Recorded, ApartList;
    RecordedOps(names, JvpPrim(p, ins, next).value.eqns, next, JvpPrim(p, ins, next).value.next);
  }

  lemma {:induction false} JvpEqnNames(names: Naming, e: Eqn, ins: seq<Tr>, plain: set<Var>, next: nat)
    requires JvpEqn(names, e, ins, next).Some? && (Meets(e, plain) <==> exists t :: t in ins && t.Dual?)
    requires AbstractEval(e, AtomTys(e.inputs)).Some?
    ensures var r := JvpEqn(names, e, ins, next).value;
            && Recorded(names, r.eqns, HeldEqn(e, plain), BranchesEqn(e, plain), next, r.next)
            && (SeparateEqn(e, plain) && NamesBelowEqn(e, names.below) && Allocated(names, ObjectsEqn(e)) ==>
                ApartList(r.eqns))
    decreases e, 0
  {
    hide JvpJaxpr, JvpPrim, Typecheck, Recorded, Separate, Apart, ApartList, Allocated, Objects, Scope, InnerBranches,
      Held, Meets, NamesBelow, Level;
    var r := JvpEqn(names, e, ins, next).value;
    if !Meets(e, plain) {
      OneName(r.eqns[0]);
      PlainNames(names, e, r.eqns[0], plain, next, r.next);
    } else {
      match e {
        case PrimEqn(p, _, _) => JvpPrimNames(names, p, ins, next);
        case CallEqn(body, _, _) =>
          JvpScope(names, body);
          OneName(r.eqns[0]);
          CallNames(names, r.eqns[0], next, r.next);
        case CondEqn(onTrue, onFalse, _, _) =>
          JvpScope(names, onTrue);
          JvpScope(names, onFalse);
          OneName(r.eqns[0]);
          CondNames(names, e, r.eqns[0], plain, next, r.next);
      }
    }
  }

  lemma PlainNames(names: Naming, e: Eqn, q: Eqn, plain: set<Var>, n: nat, n': nat)
    requires match e
             case PrimEqn(p, _, _) => q.PrimEqn? && q.prim == p
             case CallEqn(body, _, _) => q.CallEqn? && q.body == body
             case CondEqn(t, f, _, _) => q.CondEqn? && q.onTrue == t && q.onFalse == f
    requires n <= n' && !Meets(e, plain) && forall v :: v in q.outs ==> n <= v.id < n'
    ensures Recorded(names, [q], HeldEqn(e, plain), BranchesEqn(e, plain), n, n') && ApartEqn(q) == ApartEqn(e)
  {
    hide Meets, Scope, Apart;
    OneName(q);
  }

  lemma CallNames(names: Naming, q: Eqn, n: nat, n': nat)
    requires q.CallEqn? && n <= n' && forall v :: v in q.outs ==> n <= v.id < n'
    ensures Recorded(names, [q], {}, {}, n, n') && ApartEqn(q) == Apart(q.body)
  {
    hide Apart;
    OneName(q);
  }

  lemma CondNames(names: Naming, e: Eqn, q: Eqn, plain: set<Var>, n: nat, n': nat)
    requires e.CondEqn? && q.CondEqn? && Meets(e, plain) && n <= n' && forall v :: v in q.outs ==> n <= v.id < n'
    requires AllFrom(names, Scope(q.onTrue), Held(e.onTrue), {e.onTrue} + InnerBranches(e.onTrue))
    requires AllFrom(names, Scope(q.onFalse), Held(e.onFalse), {e.onFalse} + InnerBranches(e.onFalse))
    requires Separate(e.onTrue) && NamesBelow(e.onTrue, names.below) && Allocated(names, Objects(e.onTrue)) ==>
               Apart(q.onTrue)
    requires Separate(e.onFalse) && NamesBelow(e.onFalse, names.below) && Allocated(names, Objects(e.onFalse)) ==>
               Apart(q.onFalse)
    ensures Recorded(names, [q], HeldEqn(e, plain), BranchesEqn(e, plain), n, n')
    ensures SeparateEqn(e, plain) && NamesBelowEqn(e, names.below) && Allocated(names, ObjectsEqn(e)) ==> ApartEqn(q)
  {
    hide Meets, Scope, Apart, InnerBranches, Held, Separate, Objects, Allocated, AllFrom, NamesBelow, MadeFor;
    OneName(q);
    var ot, of' := {e.onTrue} + InnerBranches(e.onTrue), {e.onFalse} + InnerBranches(e.onFalse);
    FromMore(names, Scope(q.onTrue), Scope(q.onFalse), Held(e.onTrue), Held(e.onFalse), ot, of');
    assert BranchesEqn(e, plain) == ot + of';
    if SeparateEqn(e, plain) && NamesBelowEqn(e, names.below) && Allocated(names, ObjectsEqn(e)) {
      AllocatedLess(names, ObjectsEqn(e), Objects(e.onTrue));
      AllocatedLess(names, ObjectsEqn(e), Objects(e.onFalse));
      InnerObjects(e.onTrue);
      InnerObjects(e.onFalse);
      ItselfObject(e.onTrue);
      ItselfObject(e.onFalse);
      AllocatedLess(names, ObjectsEqn(e), ot + of');
      HeldOld(e.onTrue, names.below);
      HeldOld(e.onFalse, names.below);
      FromApart(names, Scope(q.onTrue), Scope(q.onFalse), Held(e.onTrue), Held(e.onFalse), ot, of');
    }
  }

  lemma ItselfObject(j: Jaxpr)
    ensures j in Objects(j)
  {
  }

  lemma HeldOld(j: Jaxpr, n: nat)
    requires NamesBelow(j, n)
    ensures Below(Held(j), n)
  {
    HeldBelow(j.eqns, {}, n);
  }

  lemma {:induction false} JvpEqnsNames(names: Naming, eqns: seq<Eqn>, trs: TrEnv, plain: set<Var>, s: set<Var>,
                                        next: nat)
    requires TrEnvOk(s, trs) && Below(s, next) && TypecheckEqns(trs.Keys, eqns).Some? && Traces(trs, plain)
    ensures JvpEqns(names, eqns, trs, next).Some?
    ensures var r := JvpEqns(names, eqns, trs, next).value;
            && Recorded(names, r.eqns, HeldEqns(eqns, plain), BranchesEqns(eqns, plain), next, r.next)
            && (SeparateEqns(eqns, plain) && NamesBelowEqns(eqns, names.below)
                && Allocated(names, ObjectsEqns(eqns)) ==>
                  ApartList(r.eqns))
    decreases eqns, 1
  {
    hide JvpEqn, WriteTrs, AbstractEval, Meets, Traces, TrEnvOk, HeldEqn, BranchesEqn, SeparateEqn, NamesBelowEqn,
      Allocated, ObjectsEqn, Recorded, ApartList;
    if eqns == [] {
      NothingRecorded(names, next);
    } else {
      var e := eqns[0];
      var ins := ReadTrs(trs, e.inputs);
      ReadTrsOk(s, trs, e.inputs);
      JvpEqnTotal(names, e, ins, AtomTys(e.inputs), s, next);
      var r := JvpEqn(names, e, ins, next).value;
      var s1 := TypecheckEqns(s, r.eqns).value;
      DistinctOuts(trs.Keys, e);
      TrEnvOkLarger(s, s1, trs);
      WriteTrsOk(s1, trs, e.outs, r.outs);
      WriteTraces(trs, e.outs, r.outs, plain);
      MetTracers(names, e, trs, plain, next);
      JvpEqnNames(names, e, ins, plain, next);
      var trs1, plain1 := WriteTrs(trs, e.outs, r.outs).value, PlainAfter(e, plain);
      JvpEqnsNames(names, eqns[1..], trs1, plain1, s1, r.next);
      var rest := JvpEqns(names, eqns[1..], trs1, r.next).value;
      RecordedAppend(names, r.eqns, rest.eqns, HeldEqn(e, plain), HeldEqns(eqns[1..], plain1),
                     BranchesEqn(e, plain), BranchesEqns(eqns[1..], plain1), next, r.next, rest.next);
      if SeparateEqns(eqns, plain) && NamesBelowEqns(eqns, names.below) && Allocated(names, ObjectsEqns(eqns)) {
        HeadApart(names, eqns, plain, r.eqns, rest.eqns, next, r.next, rest.next);
      }
    }
  }

  lemma NothingRecorded(names: Naming, next: nat)
    ensures Recorded(names, [], {}, {}, next, next) && ApartList([])
  {
    hide MadeFor;
  }

  lemma HeadApart(names: Naming, eqns: seq<Eqn>, plain: set<Var>, xs: seq<Eqn>, ys: seq<Eqn>, n: nat, n1: nat, n2: nat)
    requires eqns != [] && SeparateEqns(eqns, plain) && NamesBelowEqns(eqns, names.below)
             && Allocated(names, ObjectsEqns(eqns))
    requires Recorded(names, xs, HeldEqn(eqns[0], plain), BranchesEqn(eqns[0], plain), n, n1)
    requires var plain1 := PlainAfter(eqns[0], plain);
             Recorded(names, ys, HeldEqns(eqns[1..], plain1), BranchesEqns(eqns[1..], plain1), n1, n2)
    requires SeparateEqn(eqns[0], plain) && NamesBelowEqn(eqns[0], names.below) && Allocated(names, ObjectsEqn(eqns[0]))
             ==> ApartList(xs)
    requires (SeparateEqns(eqns[1..], PlainAfter(eqns[0], plain)) && NamesBelowEqns(eqns[1..], names.below)
              && Allocated(names, ObjectsEqns(eqns[1..]))) ==> ApartList(ys)
    ensures ApartList(xs + ys)
  {
    hide Meets, HeldEqn, BranchesEqn, SeparateEqn, NamesBelowEqn, Allocated, ObjectsEqn, ApartList, MadeFor, OutVars,
      CondScopes, AllFrom;
    var e, plain1 := eqns[0], PlainAfter(eqns[0], plain);
    AllocatedLess(names, ObjectsEqns(eqns), ObjectsEqn(e));
    AllocatedLess(names, ObjectsEqns(eqns), ObjectsEqns(eqns[1..]));
    BranchesObjects(eqns, plain);
    AllocatedLess(names, ObjectsEqns(eqns), BranchesEqn(e, plain) + BranchesEqns(eqns[1..], plain1));
    HeldBelow(eqns, plain, names.below);
    FromApart(names, CondScopes(xs), CondScopes(ys), HeldEqn(e, plain), HeldEqns(eqns[1..], plain1),
              BranchesEqn(e, plain), BranchesEqns(eqns[1..], plain1));
    AppendNames(xs, ys);
  }

  /** Where the variables of a staged JVP come from. If no object is staged twice as a branch, its
      conditionals share no variables, even if those of the original do. */
  lemma {:induction false} JvpScope(names: Naming, j: Jaxpr)
    requires Typecheck(j).Some?
    ensures JvpJaxpr(names, j).Some?
    ensures var d := JvpJaxpr(names, j).value.jaxpr;
            && (forall v :: v in Level(d) ==> MadeFor(names, v, j))
            && AllFrom(names, CondScopes(d.eqns), Held(j), InnerBranches(j))
            && AllFrom(names, Scope(d), Held(j), {j} + InnerBranches(j))
            && (Separate(j) && NamesBelow(j, names.below) && Allocated(names, Objects(j)) ==> Apart(d))
    decreases j, 2
  {
    hide JvpEqns, WriteTrs, TypecheckEqns, BindVars, ApartEqns, NamesBelowEqns, CondScopes, OutVars, SeparateEqns,
      Traces, TrEnvOk, HeldEqns, BranchesEqns, ObjectsEqns, Allocated, ApartList, MadeFor;
    var s, start := StartOk(names, j);
    var ps, ts, trs, r := JvpShape(names, j);
    JvpEqnsNames(names, j.eqns, trs, {}, s, names.first(j) + 2 * |j.binders|);
    JvpWhole(names, j, ps, ts, r);
  }

  /** The start of a staging. */
  lemma StartOk(names: Naming, j: Jaxpr) returns (s: set<Var>, trs: TrEnv)
    requires Typecheck(j).Some?
    ensures JvpJaxpr(names, j).Some?
    ensures WriteTrs(map[], j.binders, Duals(FreshVars(Avals(j.binders), names.first(j)),
                                             FreshVars(Avals(j.binders), names.first(j) + |j.binders|))) == Some(trs)
    ensures TrEnvOk(s, trs) && Below(s, names.first(j) + 2 * |j.binders|)
    ensures TypecheckEqns(trs.Keys, j.eqns).Some? && Traces(trs, {})
  {
    hide JvpEqns, WriteTrs, TypecheckEqns, BindVars, JvpJaxpr, TrEnvOk, Traces, TrsOk, Below;
    JvpTotal(names, j);
    var n, next, tys := |j.binders|, names.first(j), Avals(j.binders);
    var ps, ts := FreshVars(tys, next), FreshVars(tys, next + n);
    s := ToSet(FreshVars(tys + tys, next));
    StartDuals(tys, next);
    var bound := TypecheckStart(j);
    BindersBound(j, bound);
    WriteStart(s, j.binders, Duals(ps, ts));
    assert {} + ToSet(j.binders) == bound;
    trs := WriteTrs(map[], j.binders, Duals(ps, ts)).value;
  }

  lemma StartDuals(tys: seq<Ty>, next: nat)
    ensures TrsOk(ToSet(FreshVars(tys + tys, next)), Duals(FreshVars(tys, next), FreshVars(tys, next + |tys|)), tys)
    ensures Below(ToSet(FreshVars(tys + tys, next)), next + 2 * |tys|)
  {
    var both := FreshVars(tys + tys, next);
    assert both[..|tys|] == FreshVars(tys, next) && both[|tys|..] == FreshVars(tys, next + |tys|);
    DualsOk(ToSet(both), tys, both, next);
  }

  lemma WriteStart(s: set<Var>, vs: seq<Var>, ts: seq<Tr>)
    requires Distinct(vs) && TrsOk(s, ts, Avals(vs)) && forall t :: t in ts ==> t.Dual?
    ensures var trs := WriteTrs(map[], vs, ts);
            trs.Some? && TrEnvOk(s, trs.value) && trs.value.Keys == {} + ToSet(vs) && Traces(trs.value, {})
  {
    hide WriteTrs, TrsOk, TrEnvOk;
    assert |ts| == |vs| by {
      SameLength(s, ts, Avals(vs));
    }
    NoTracers(s);
    WriteTrsOk(s, map[], vs, ts);
    WriteTraces(map[], vs, ts, {});
  }

  lemma SameLength(s: set<Var>, ts: seq<Tr>, tys: seq<Ty>)
    requires TrsOk(s, ts, tys)
    ensures |ts| == |tys|
  {
  }

  lemma NoTracers(s: set<Var>)
    ensures Traces(map[], {}) && TrEnvOk(s, map[])
  {
  }

  lemma JvpWhole(names: Naming, j: Jaxpr, ps: seq<Var>, ts: seq<Var>, r: Traced)
    requires JvpJaxpr(names, j).Some? && JvpJaxpr(names, j).value.next == r.next
    requires var d := JvpJaxpr(names, j).value.jaxpr; d.binders == ps + ts && d.eqns == r.eqns
    requires ps == FreshVars(Avals(j.binders), names.first(j))
    requires ts == FreshVars(Avals(j.binders), names.first(j) + |j.binders|)
    requires Recorded(names, r.eqns, Held(j), InnerBranches(j), names.first(j) + 2 * |j.binders|, r.next)
    requires Separate(j) && NamesBelow(j, names.below) && Allocated(names, ObjectsEqns(j.eqns)) ==> ApartList(r.eqns)
    ensures var d := JvpJaxpr(names, j).value.jaxpr;
            && (forall v :: v in Level(d) ==> MadeFor(names, v, j))
            && AllFrom(names, CondScopes(d.eqns), Held(j), InnerBranches(j))
            && AllFrom(names, Scope(d), Held(j), {j} + InnerBranches(j))
            && (Separate(j) && NamesBelow(j, names.below) && Allocated(names, Objects(j)) ==> Apart(d))
  {
    hide JvpJaxpr, ApartEqns, NamesBelow, CondScopes, OutVars, Separate, Held, InnerBranches, ApartList;
    var d := JvpJaxpr(names, j).value.jaxpr;
    forall v | v in Level(d) ensures MadeFor(names, v, j) {
      if v in d.binders {
        assert v in ps || v in ts;
      }
    }
    hide MadeFor, Allocated;
    LevelFrom(names, Level(d), j);
    FromMore(names, Level(d), CondScopes(d.eqns), {}, Held(j), {j}, InnerBranches(j));
    assert {} + Held(j) == Held(j) && Scope(d) == Level(d) + CondScopes(d.eqns);
    if Separate(j) && NamesBelow(j, names.below) && Allocated(names, Objects(j)) {
      InnerObjects(j);
      ItselfObject(j);
      AllocatedLess(names, Objects(j), ObjectsEqns(j.eqns));
      AllocatedLess(names, Objects(j), {j} + InnerBranches(j));
      HeldOld(j, names.below);
      FromApart(names, Level(d), CondScopes(d.eqns), {}, Held(j), {j}, InnerBranches(j));
      ApartFromLevel(Level(d), d.eqns);
    }
  }

  lemma LevelFrom(names: Naming, s: set<Var>, j: Jaxpr)
    requires forall v :: v in s ==> MadeFor(names, v, j)
    ensures AllFrom(names, s, {}, {j})
  {
    hide MadeFor;
  }

  // ---------- all names are below the counter ----------

  lemma {:induction false} BelowAppend(xs: seq<Eqn>, ys: seq<Eqn>, n: nat)
    requires NamesBelowEqns(xs, n) && NamesBelowEqns(ys, n)
    ensures NamesBelowEqns(xs + ys, n)
    decreases xs
  {
    hide NamesBelowEqn;
    if xs == [] {
      assert xs + ys == ys;
    } else {
      assert (xs + ys)[1..] == xs[1..] + ys;
      BelowAppend(xs[1..], ys, n);
    }
  }

  lemma {:induction false} OpsBelow(eqns: seq<Eqn>, n: nat)
    requires forall e :: e in eqns ==> NamesBelowEqn(e, n)
    ensures NamesBelowEqns(eqns, n)
    decreases eqns
  {
    hide NamesBelowEqn;
    if eqns != [] {
      assert eqns[0] in eqns && forall e :: e in eqns[1..] ==> e in eqns;
      OpsBelow(eqns[1..], n);
    }
  }

  lemma JvpPrimBelow(p: Prim, ins: seq<Tr>, next: nat)
    requires JvpPrim(p, ins, next).Some?
    ensures NamesBelowEqns(JvpPrim(p, ins, next).value.eqns, JvpPrim(p, ins, next).value.next)
  {
    var r := JvpPrim(p, ins, next).value;
    assert forall e :: e in r.eqns ==> NamesBelowEqn(e, r.next);
    OpsBelow(r.eqns, r.next);
  }

  /** The objects of an equation end below `n`. */
  ghost predicate EndBelow(names: Naming, objs: set<Jaxpr>, n: nat) {
    forall k :: k in objs ==> End(names, k) <= n
  }

  lemma {:induction false} JvpEqnBelow(names: Naming, e: Eqn, ins: seq<Tr>, next: nat, n: nat)
    requires JvpEqn(names, e, ins, next).Some? && NamesBelowEqn(e, n) && EndBelow(names, ObjectsEqn(e), n)
    requires JvpEqn(names, e, ins, next).value.next <= n
    ensures NamesBelowEqns(JvpEqn(names, e, ins, next).value.eqns, n)
    decreases e, 0
  {
    hide JvpJaxpr, JvpPrim, Typecheck, AbstractEval, NamesBelow, Objects, End;
    var r := JvpEqn(names, e, ins, next).value;
    if forall t :: t in ins ==> t.Plain? {
      OneBelow(r.eqns[0], n);
    } else {
      match e {
        case PrimEqn(p, _, _) =>
          JvpPrimBelow(p, ins, next);
          NamesBelowEqnsMore(r.eqns, r.next, n);
        case CallEqn(body, _, _) =>
          JvpBelow(names, body, n);
          OneBelow(r.eqns[0], n);
        case CondEqn(onTrue, onFalse, _, _) =>
          JvpBelow(names, onTrue, n);
          JvpBelow(names, onFalse, n);
          OneBelow(r.eqns[0], n);
      }
    }
  }

  lemma OneBelow(e: Eqn, n: nat)
    requires NamesBelowEqn(e, n)
    ensures NamesBelowEqns([e], n)
  {
  }

  lemma {:induction false} JvpEqnsBelow(names: Naming, eqns: seq<Eqn>, trs: TrEnv, next: nat, n: nat)
    requires JvpEqns(names, eqns, trs, next).Some? && NamesBelowEqns(eqns, n) && EndBelow(names, ObjectsEqns(eqns), n)
    requires JvpEqns(names, eqns, trs, next).value.next <= n
    ensures NamesBelowEqns(JvpEqns(names, eqns, trs, next).value.eqns, n)
    decreases eqns, 0
  {
    hide JvpEqn, WriteTrs, NamesBelowEqn, ObjectsEqn, End;
    if eqns != [] {
      var e := eqns[0];
      var ins := ReadTrs(trs, e.inputs);
      var r := JvpEqn(names, e, ins, next).value;
      var trs1 := WriteTrs(trs, e.outs, r.outs).value;
      NextGrows(names, eqns[1..], trs1, r.next);
      JvpEqnBelow(names, e, ins, next, n);
      JvpEqnsBelow(names, eqns[1..], trs1, r.next, n);
      BelowAppend(r.eqns, JvpEqns(names, eqns[1..], trs1, r.next).value.eqns, n);
    }
  }

  /** All variables of a staged JVP are below a counter that is above what is made for its objects. */
  lemma {:induction false} JvpBelow(names: Naming, j: Jaxpr, n: nat)
    requires JvpJaxpr(names, j).Some? && NamesBelow(j, n) && EndBelow(names, Objects(j), n)
    ensures NamesBelow(JvpJaxpr(names, j).value.jaxpr, n)
    decreases j, 1
  {
    hide JvpEqns, WriteTrs, Typecheck, NamesBelowEqns, ObjectsEqns;
    var ps, ts, trs, r := JvpShape(names, j);
    assert End(names, j) == r.next <= n;
    NextGrows(names, j.eqns, trs, names.first(j) + 2 * |j.binders|);
    JvpEqnsBelow(names, j.eqns, trs, names.first(j) + 2 * |j.binders|, n);
    forall v: Var | v in ps + ts ensures v.id < n {
      assert v in ps || v in ts;
    }
  }

  /** In particular, below the counter of an allocation. */
  lemma StagedBelow(names: Naming, j: Jaxpr)
    requires JvpJaxpr(names, j).Some? && Allocation(names, j)
    ensures NamesBelow(JvpJaxpr(names, j).value.jaxpr, names.next)
  {
    hide JvpJaxpr, NamesBelow, Objects;
    NamesBelowMore(j, names.below, names.next);
    JvpBelow(names, j, names.next);
  }

  // ---------- there are enough names ----------

  /** An upper bound for the number of variables that an equation makes. */
  function WidthEqn(e: Eqn): nat {
    match e
    case PrimEqn(_, _, _) => 4
    case CallEqn(body, _, _) => 2 * |body.outs|
    case CondEqn(onTrue, _, _, _) => 2 * |onTrue.outs|
  }

  function WidthEqns(eqns: seq<Eqn>): nat {
    if eqns == [] then 0 else WidthEqn(eqns[0]) + WidthEqns(eqns[1..])
  }

  function Width(j: Jaxpr): nat {
    2 * |j.binders| + WidthEqns(j.eqns)
  }

  lemma EqnWidth(names: Naming, e: Eqn, ins: seq<Tr>, next: nat)
    requires JvpEqn(names, e, ins, next).Some?
    ensures JvpEqn(names, e, ins, next).value.next <= next + WidthEqn(e)
  {
    hide JvpJaxpr, Typecheck;
    match e
    case PrimEqn(_, _, _) =>
    case CallEqn(body, _, _) =>
      OutTypes(body);
      StagedOuts(names, body);
    case CondEqn(onTrue, onFalse, _, _) =>
      OutTypes(onTrue);
      StagedOuts(names, onTrue);
  }

  lemma OutTypes(j: Jaxpr)
    ensures Typecheck(j).Some? ==> |Typecheck(j).value.outTypes| == |j.outs|
  {
    if Typecheck(j).Some? {
      TypecheckTypes(j);
    }
  }

  lemma StagedOuts(names: Naming, j: Jaxpr)
    ensures JvpJaxpr(names, j).Some? ==>
              var d := JvpJaxpr(names, j).value.jaxpr;
              Typecheck(d).Some? && |Typecheck(d).value.outTypes| == 2 * |j.outs|
  {
    hide JvpEqns, WriteTrs, Typecheck;
    if JvpJaxpr(names, j).Some? {
      var ps, ts, trs, r := JvpShape(names, j);
      OutTypes(JvpJaxpr(names, j).value.jaxpr);
    }
  }

  lemma {:induction false} EqnsWidth(names: Naming, eqns: seq<Eqn>, trs: TrEnv, next: nat)
    requires JvpEqns(names, eqns, trs, next).Some?
    ensures JvpEqns(names, eqns, trs, next).value.next <= next + WidthEqns(eqns)
    decreases eqns
  {
    hide JvpEqn, WriteTrs, WidthEqn;
    if eqns != [] {
      var ins := ReadTrs(trs, eqns[0].inputs);
      EqnWidth(names, eqns[0], ins, next);
      var r := JvpEqn(names, eqns[0], ins, next).value;
      EqnsWidth(names, eqns[1..], WriteTrs(trs, eqns[0].outs, r.outs).value, r.next);
    }
  }

  lemma EndWidth(names: Naming, j: Jaxpr)
    ensures End(names, j) <= names.first(j) + Width(j)
  {
    hide JvpEqns, WriteTrs, Typecheck;
    if JvpJaxpr(names, j).Some? {
      var ps, ts, trs, r := JvpShape(names, j);
      EqnsWidth(names, j.eqns, trs, names.first(j) + 2 * |j.binders|);
    }
  }

  /** Numbers objects one after the other, from `n` on. */
  lemma {:induction false} Place(objs: set<Jaxpr>, n: nat) returns (places: map<Jaxpr, nat>, next: nat)
    ensures places.Keys == objs && n <= next
    ensures forall k :: k in objs ==> n <= places[k] && places[k] + Width(k) <= next
    ensures forall k, k' :: k in objs && k' in objs && k != k' ==>
              places[k] + Width(k) <= places[k'] || places[k'] + Width(k') <= places[k]
    decreases |objs|
  {
    hide Width;
    if objs == {} {
      places, next := map[], n;
    } else {
      var k := Pick(objs);
      var rest;
      rest, next := Place(objs - {k}, n + Width(k));
      places := rest[k := n];
      forall i | i in objs && i != k ensures places[i] == rest[i] && n + Width(k) <= places[i] {
        assert i in objs - {k};
      }
    }
  }

  /** Every program has an allocation. */
  lemma AllocationExists(j: Jaxpr, n: nat) returns (names: Naming)
    requires NamesBelow(j, n)
    ensures Allocation(names, j) && names.below == n
  {
    hide NamesBelow, Objects, Width, End;
    var places, next := Place(Objects(j), n);
    names := Naming(k => if k in places then places[k] else 0, n, next);
    forall k | k in Objects(j) ensures names.first(k) == places[k] && End(names, k) <= places[k] + Width(k) {
      EndWidth(names, k);
    }
  }
}
