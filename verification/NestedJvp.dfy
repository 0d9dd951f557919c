/** The nested interpreters of docs/autodidax2_part1.py: an evaluating or a staging interpreter and any number of
    JVP interpreters on top of it, whose dual numbers carry the identity of their interpreter. */
module NestedJvp {
  import opened Wrappers
  import opened Products

  /** A user program with lambdas in the argument of `derivative` only. Variables are numbered from
      the outermost binder inwards; Deriv(body, at) is derivative(lambda y: body, at), where y is the
      variable with the next number. */
  datatype Expr =
    | Var(i: nat)
    | Const(c: real)
    | Add(a: Expr, b: Expr)
    | Mul(a: Expr, b: Expr)
    | Deriv(body: Expr, at: Expr)

  datatype Op = AddOp | MulOp

  /** An interpreter and the one below it; `id` is the identity of a JVPInterpreter object. */
  datatype Interpreter = EvalInterpreter | StagingInterpreter | JVPInterpreter(id: nat, prev: Interpreter)

  /** A float, the name of a staged variable, or a TaggedDualNumber. */
  datatype Value = Num(r: real) | Name(i: nat) | Dual(tag: nat, primal: Value, tangent: Value)

  /** A staged operation; the binder is the number of its variable. */
  datatype Equation = Equation(binder: nat, op: Op, x: Value, y: Value)

  /** What running a program changes: the identity of the next interpreter, and the name counter and
      the equations of the StagingInterpreter at the bottom of the chain. */
  datatype World = World(next: nat, names: nat, equations: seq<Equation>)

  predicate Scoped(e: Expr, n: nat) {
    match e
    case Var(i) => i < n
    case Const(_) => true
    case Add(a, b) => Scoped(a, n) && Scoped(b, n)
    case Mul(a, b) => Scoped(a, n) && Scoped(b, n)
    case Deriv(body, at) => Scoped(at, n) && Scoped(body, n + 1)
  }

  /** JVPInterpreter.lift */
  function Lift(id: nat, v: Value): Value {
    if v.Dual? && v.tag == id then v else Dual(id, v, Num(0.0))
  }

  function Arithmetic(op: Op, x: real, y: real): real {
    if op.AddOp? then x + y else RealProduct(x, y)
  }

  /** interpret_op; None where the evaluating interpreter's assertion fails. */
  function InterpretOp(cur: Interpreter, op: Op, x: Value, y: Value, w: World): Option<(Value, World)>
    decreases cur
  {
    match cur
    case EvalInterpreter =>
      if x.Num? && y.Num? then Some((Num(Arithmetic(op, x.r, y.r)), w)) else None
    case StagingInterpreter =>
      var binder := w.names + 1;
      Some((Name(binder), w.(names := binder, equations := w.equations + [Equation(binder, op, x, y)])))
    case JVPInterpreter(id, prev) =>
      var x1, y1 := Lift(id, x), Lift(id, y);
      if op.AddOp? then
        var p :- InterpretOp(prev, AddOp, x1.primal, y1.primal, w);
        var t :- InterpretOp(prev, AddOp, x1.tangent, y1.tangent, p.1);
        Some((Dual(id, p.0, t.0), t.1))
      else
        var p :- InterpretOp(prev, MulOp, x1.primal, y1.primal, w);
        var t1 :- InterpretOp(prev, MulOp, x1.primal, y1.tangent, p.1);
        var t2 :- InterpretOp(prev, MulOp, x1.tangent, y1.primal, t1.1);
        var t :- InterpretOp(prev, AddOp, t1.0, t2.0, t2.1);
        Some((Dual(id, p.0, t.0), t.1))
  }

  /** Running a program under an interpreter. */
  function Evaluate(cur: Interpreter, env: seq<Value>, e: Expr, w: World): Option<(Value, World)>
    requires Scoped(e, |env|)
    decreases e
  {
    match e
    case Var(i) => Some((env[i], w))
    case Const(c) => Some((Num(c), w))
    case Add(a, b) =>
      var x :- Evaluate(cur, env, a, w);
      var y :- Evaluate(cur, env, b, x.1);
      InterpretOp(cur, AddOp, x.0, y.0, y.1)
    case Mul(a, b) =>
      var x :- Evaluate(cur, env, a, w);
      var y :- Evaluate(cur, env, b, x.1);
      InterpretOp(cur, MulOp, x.0, y.0, y.1)
    case Deriv(body, at) =>
      var x :- Evaluate(cur, env, at, w);
      var id := x.1.next;
      var r :- Evaluate(JVPInterpreter(id, cur), env + [Dual(id, x.0, Num(1.0))], body, x.1.(next := id + 1));
      Some((Lift(id, r.0).tangent, r.1))
  }

  // ---------- staging ----------

  datatype Jaxpr = Jaxpr(parameters: seq<nat>, equations: seq<Equation>, returnVal: Value)

  function Parameters(n: nat): (r: seq<nat>)
    ensures |r| == n && forall i :: 0 <= i < n ==> r[i] == i + 1
  {
    seq(n, i => i + 1)
  }

  function NamesOf(parameters: seq<nat>): (r: seq<Value>)
    ensures |r| == |parameters| && forall i :: 0 <= i < |r| ==> r[i] == Name(parameters[i])
  {
    seq(|parameters|, i requires 0 <= i < |parameters| => Name(parameters[i]))
  }

  /** build_jaxpr for the function with `n` arguments whose body is `e`; also the identity of the next
      interpreter. */
  function BuildJaxpr(e: Expr, n: nat, next: nat): Option<(Jaxpr, nat)>
    requires Scoped(e, n)
  {
    var r :- Evaluate(StagingInterpreter, NamesOf(Parameters(n)), e, World(next, n, []));
    Some((Jaxpr(Parameters(n), r.1.equations, r.0), r.1.next))
  }

  /** dict(zip(names, values)) */
  function Zip(names: seq<nat>, values: seq<Value>): map<nat, Value> {
    if names == [] || values == [] then map[] else map[names[0] := values[0]] + Zip(names[1..], values[1..])
  }

  /** eval_atom; None is the KeyError. */
  function EvalAtom(env: map<nat, Value>, v: Value): Option<Value> {
    if !v.Name? then Some(v) else if v.i in env then Some(env[v.i]) else None
  }

  function EvalEquation(cur: Interpreter, env: map<nat, Value>, eqn: Equation,
                        w: World): Option<(map<nat, Value>, World)> {
    var x :- EvalAtom(env, eqn.x);
    var y :- EvalAtom(env, eqn.y);
    var r :- InterpretOp(cur, eqn.op, x, y, w);
    Some((env[eqn.binder := r.0], r.1))
  }

  function EvalEquations(cur: Interpreter, env: map<nat, Value>, eqns: seq<Equation>,
                         w: World): Option<(map<nat, Value>, World)>
    decreases |eqns|
  {
    if eqns == [] then Some((env, w))
    else
      var r :- EvalEquations(cur, env, eqns[..|eqns| - 1], w);
      EvalEquation(cur, r.0, eqns[|eqns| - 1], r.1)
  }

  /** eval_jaxpr */
  function EvalJaxpr(cur: Interpreter, jaxpr: Jaxpr, args: seq<Value>, w: World): Option<(Value, World)> {
    var r :- EvalEquations(cur, Zip(jaxpr.parameters, args), jaxpr.equations, w);
    var v :- EvalAtom(r.0, jaxpr.returnVal);
    Some((v, r.1))
  }

  /** An equation that fails fails the whole program. */
  lemma {:induction false} EquationFails(cur: Interpreter, env: map<nat, Value>, eqns: seq<Equation>, w: World, k: nat)
    requires k <= |eqns| && EvalEquations(cur, env, eqns[..k], w).None?
    ensures EvalEquations(cur, env, eqns, w).None?
    decreases |eqns|
  {
    if k < |eqns| {
      assert eqns[..|eqns| - 1][..k] == eqns[..k];
      EquationFails(cur, env, eqns[..|eqns| - 1], w, k);
    } else {
      assert eqns[..k] == eqns;
    }
  }

  // ---------- as the source runs it: one global current_interpreter ----------

  class Context {
    var current: Interpreter
    var next: nat
    /** The fields name_counter and equations of the StagingInterpreter in use. */
    var names: nat
    var equations: seq<Equation>

    constructor ()
      ensures current == EvalInterpreter && Now() == World(0, 0, [])
    {
      current, next, names, equations := EvalInterpreter, 0, 0, [];
    }

    function Now(): World
      reads this
    {
      World(next, names, equations)
    }

    /** `with set_interpreter(prev)` around the rules; the context manager restores the interpreter
        on every way out. */
    method Interpret(op: Op, x: Value, y: Value) returns (r: Option<Value>)
      modifies this
      ensures current == old(current)
      ensures r.Some? <==> InterpretOp(old(current), op, x, y, old(Now())).Some?
      ensures r.Some? ==> InterpretOp(old(current), op, x, y, old(Now())) == Some((r.value, Now()))
      decreases current
    {
      match current
      case EvalInterpreter =>
        r := if x.Num? && y.Num? then Some(Num(Arithmetic(op, x.r, y.r))) else None;
      case StagingInterpreter =>
        names := names + 1;
        equations := equations + [Equation(names, op, x, y)];
        r := Some(Name(names));
      case JVPInterpreter(id, prev) =>
        var self := current;
        current := prev;
        r := Differentiate(id, op, Lift(id, x), Lift(id, y));
        current := self;
    }

    /** The rules of JVPInterpreter, run under the previous interpreter. */
    method Differentiate(id: nat, op: Op, x: Value, y: Value) returns (r: Option<Value>)
      requires x.Dual? && x.tag == id && y.Dual? && y.tag == id
      modifies this
      ensures current == old(current)
      ensures r.Some? <==> InterpretOp(JVPInterpreter(id, old(current)), op, x, y, old(Now())).Some?
      ensures r.Some? ==> InterpretOp(JVPInterpreter(id, old(current)), op, x, y, old(Now())) == Some((r.value, Now()))
      decreases JVPInterpreter(id, current), 0
    {
      var p := Interpret(op, x.primal, y.primal);
      if p.None? {
        return None;
      }
      var t;
      if op.AddOp? {
        t := Interpret(AddOp, x.tangent, y.tangent);
      } else {
        var t1 := Interpret(MulOp, x.primal, y.tangent);
        if t1.None? {
          return None;
        }
        var t2 := Interpret(MulOp, x.tangent, y.primal);
        if t2.None? {
          return None;
        }
        t := Interpret(AddOp, t1.value, t2.value);
      }
      r := if t.Some? then Some(Dual(id, p.value, t.value)) else None;
    }

    /** Running a program; Deriv is derivative() and jvp(). */
    method Run(env: seq<Value>, e: Expr) returns (r: Option<Value>)
      requires Scoped(e, |env|)
      modifies this
      ensures current == old(current)
      ensures r.Some? <==> Evaluate(old(current), env, e, old(Now())).Some?
      ensures r.Some? ==> Evaluate(old(current), env, e, old(Now())) == Some((r.value, Now()))
      decreases e
    {
      match e
      case Var(i) => return Some(env[i]);
      case Const(c) => return Some(Num(c));
      case Add(a, b) =>
        var x := Run(env, a);
        if x.None? { return None; }
        var y := Run(env, b);
        if y.None? { return None; }
        r := Interpret(AddOp, x.value, y.value);
      case Mul(a, b) =>
        var x := Run(env, a);
        if x.None? { return None; }
        var y := Run(env, b);
        if y.None? { return None; }
        r := Interpret(MulOp, x.value, y.value);
      case Deriv(body, at) =>
        var x := Run(env, at);
        if x.None? { return None; }
        var previous, id := current, next;
        next := next + 1;
        current := JVPInterpreter(id, previous);
        var out := Run(env + [Dual(id, x.value, Num(1.0))], body);
        current := previous;
        r := if out.Some? then Some(Lift(id, out.value).tangent) else None;
    }

    /** build_jaxpr: a new StagingInterpreter is used, and then the earlier state is back. */
    method Build(e: Expr, n: nat) returns (r: Option<Jaxpr>)
      requires Scoped(e, n)
      modifies this
      ensures current == old(current) && names == old(names) && equations == old(equations)
      ensures r.Some? <==> BuildJaxpr(e, n, old(next)).Some?
      ensures r.Some? ==> BuildJaxpr(e, n, old(next)) == Some((r.value, next))
    {
      var previous, names0, equations0 := current, names, equations;
      names, equations := 0, [];
      var parameters := [];
      for i := 0 to n
        invariant names == i && equations == [] && next == old(next) && current == previous
        invariant parameters == Parameters(i)
      {
        names := names + 1;
        parameters := parameters + [names];
      }
      current := StagingInterpreter;
      var result := Run(NamesOf(parameters), e);
      r := if result.Some? then Some(Jaxpr(parameters, equations, result.value)) else None;
      current, names, equations := previous, names0, equations0;
    }

    /** eval_jaxpr */
    method Eval(jaxpr: Jaxpr, args: seq<Value>) returns (r: Option<Value>)
      modifies this
      ensures current == old(current)
      ensures r.Some? <==> EvalJaxpr(old(current), jaxpr, args, old(Now())).Some?
      ensures r.Some? ==> EvalJaxpr(old(current), jaxpr, args, old(Now())) == Some((r.value, Now()))
    {
      ghost var cur, w, eqns := current, Now(), jaxpr.equations;
      ghost var env0 := Zip(jaxpr.parameters, args);
      var env := Zip(jaxpr.parameters, args);
      for k := 0 to |jaxpr.equations|
        invariant current == cur
        invariant EvalEquations(cur, env0, eqns[..k], w) == Some((env, Now()))
      {
        assert eqns[..k + 1][..k] == eqns[..k] && eqns[..k + 1][k] == eqns[k];
        if EvalEquation(cur, env, eqns[k], Now()).None? {
          EquationFails(cur, env0, eqns, w, k + 1);
        }
        var eqn := jaxpr.equations[k];
        var x, y := EvalAtom(env, eqn.x), EvalAtom(env, eqn.y);
        if x.None? || y.None? {
          return None;
        }
        var v := Interpret(eqn.op, x.value, y.value);
        if v.None? {
          return None;
        }
        env := env[eqn.binder := v.value];
      }
      assert eqns[..|eqns|] == eqns;
      r := EvalAtom(env, jaxpr.returnVal);
    }
  }

  // ---------- the meaning: towers of dual numbers ----------

  /** An element of the ring that n nested JVP interpreters compute in. */
  datatype Tower = Real(r: real) | Pair(p: Tower, t: Tower)

  /** The number of levels of a chain; a staged program is read in the ring with `d` levels. */
  function Depth(cur: Interpreter, d: nat): nat {
    match cur
    case EvalInterpreter => 0
    case StagingInterpreter => d
    case JVPInterpreter(_, prev) => 1 + Depth(prev, d)
  }

  predicate HasDepth(t: Tower, n: nat) {
    if n == 0 then t.Real? else t.Pair? && HasDepth(t.p, n - 1) && HasDepth(t.t, n - 1)
  }

  ghost predicate TowersOk(n: nat, ts: seq<Tower>) {
    forall i :: 0 <= i < |ts| ==> HasDepth(ts[i], n)
  }

  function Constant(n: nat, c: real): (t: Tower)
    ensures HasDepth(t, n)
  {
    if n == 0 then Real(c) else Pair(Constant(n - 1, c), Constant(n - 1, 0.0))
  }

  function Plus(n: nat, x: Tower, y: Tower): (t: Tower)
    requires HasDepth(x, n) && HasDepth(y, n)
    ensures HasDepth(t, n)
  {
    if n == 0 then Real(x.r + y.r) else Pair(Plus(n - 1, x.p, y.p), Plus(n - 1, x.t, y.t))
  }

  /** The product of dual numbers over the ring below. */
  function Times(n: nat, x: Tower, y: Tower): (t: Tower)
    requires HasDepth(x, n) && HasDepth(y, n)
    ensures HasDepth(t, n)
  {
    if n == 0 then Real(RealProduct(x.r, y.r))
    else Pair(Times(n - 1, x.p, y.p), Plus(n - 1, Times(n - 1, x.p, y.t), Times(n - 1, x.t, y.p)))
  }

  function Combine(n: nat, op: Op, x: Tower, y: Tower): (t: Tower)
    requires HasDepth(x, n) && HasDepth(y, n)
    ensures HasDepth(t, n)
  {
    if op.AddOp? then Plus(n, x, y) else Times(n, x, y)
  }

  /** A number, or one of the first `n` names. */
  predicate Atom(v: Value, n: nat) {
    v.Num? || (v.Name? && 1 <= v.i <= n)
  }

  function AtomMeaning(d: nat, ts: seq<Tower>, v: Value): (t: Tower)
    requires Atom(v, |ts|) && TowersOk(d, ts)
    ensures HasDepth(t, d)
  {
    if v.Num? then Constant(d, v.r) else ts[v.i - 1]
  }

  /** A value that an interpreter can meet: tags in the order of the chain of interpreters, and below
      them a number, or, when staging, an atom. In particular nothing but numbers gets to the
      evaluating interpreter. */
  predicate Fits(cur: Interpreter, n: nat, v: Value)
    decreases cur
  {
    match cur
    case EvalInterpreter => v.Num?
    case StagingInterpreter => Atom(v, n)
    case JVPInterpreter(id, prev) =>
      if v.Dual? && v.tag == id then Fits(prev, n, v.primal) && Fits(prev, n, v.tangent) else Fits(prev, n, v)
  }

  /** What a value stands for under an interpreter, when the staged variables stand for `ts`: a dual
      number of another interpreter is a constant. */
  function Meaning(cur: Interpreter, d: nat, ts: seq<Tower>, v: Value): (t: Tower)
    requires TowersOk(d, ts) && Fits(cur, |ts|, v)
    ensures HasDepth(t, Depth(cur, d))
    decreases cur
  {
    match cur
    case EvalInterpreter => Real(v.r)
    case StagingInterpreter => AtomMeaning(d, ts, v)
    case JVPInterpreter(id, prev) =>
      if v.Dual? && v.tag == id then Pair(Meaning(prev, d, ts, v.primal), Meaning(prev, d, ts, v.tangent))
      else Pair(Meaning(prev, d, ts, v), Constant(Depth(prev, d), 0.0))
  }

  lemma {:induction false} NumFits(cur: Interpreter, d: nat, ts: seq<Tower>, c: real)
    requires TowersOk(d, ts)
    ensures Fits(cur, |ts|, Num(c)) && Meaning(cur, d, ts, Num(c)) == Constant(Depth(cur, d), c)
  {
    if cur.JVPInterpreter? {
      NumFits(cur.prev, d, ts, c);
    }
  }

  /** Later names do not change what earlier values stand for. */
  lemma {:induction false} MeaningMore(cur: Interpreter, d: nat, ts: seq<Tower>, us: seq<Tower>, v: Value)
    requires TowersOk(d, ts) && TowersOk(d, us) && ts <= us && Fits(cur, |ts|, v)
    ensures Fits(cur, |us|, v) && Meaning(cur, d, us, v) == Meaning(cur, d, ts, v)
    decreases cur
  {
    if cur.JVPInterpreter? {
      if v.Dual? && v.tag == cur.id {
        MeaningMore(cur.prev, d, ts, us, v.primal);
        MeaningMore(cur.prev, d, ts, us, v.tangent);
      } else {
        MeaningMore(cur.prev, d, ts, us, v);
      }
    }
  }

  // ---------- what has been staged ----------

  /** Each equation binds the next name and uses earlier ones only. */
  ghost predicate WellFormed(n: nat, eqns: seq<Equation>) {
    forall k :: 0 <= k < |eqns| ==>
      eqns[k].binder == n + k + 1 && Atom(eqns[k].x, n + k) && Atom(eqns[k].y, n + k)
  }

  /** The state of a StagingInterpreter with `n` parameters. */
  ghost predicate Staged(n: nat, w: World) {
    w.names == n + |w.equations| && WellFormed(n, w.equations)
  }

  /** What the names stand for: the parameters for `ts`, and the variable of each equation for the
      value of its operation. */
  function NameMeanings(d: nat, ts: seq<Tower>, eqns: seq<Equation>): (r: seq<Tower>)
    requires TowersOk(d, ts) && WellFormed(|ts|, eqns)
    ensures |r| == |ts| + |eqns| && TowersOk(d, r)
    decreases |eqns|
  {
    if eqns == [] then ts
    else
      var k := |eqns| - 1;
      var before := NameMeanings(d, ts, eqns[..k]);
      assert Atom(eqns[k].x, |before|) && Atom(eqns[k].y, |before|);
      before + [Combine(d, eqns[k].op, AtomMeaning(d, before, eqns[k].x), AtomMeaning(d, before, eqns[k].y))]
  }

  lemma NameMeaningsNext(d: nat, ts: seq<Tower>, eqns: seq<Equation>, eqn: Equation)
    requires TowersOk(d, ts) && WellFormed(|ts|, eqns)
    requires eqn.binder == |ts| + |eqns| + 1 && Atom(eqn.x, |ts| + |eqns|) && Atom(eqn.y, |ts| + |eqns|)
    ensures WellFormed(|ts|, eqns + [eqn])
    ensures var before := NameMeanings(d, ts, eqns);
            NameMeanings(d, ts, eqns + [eqn])
            == before + [Combine(d, eqn.op, AtomMeaning(d, before, eqn.x), AtomMeaning(d, before, eqn.y))]
  {
  }

  /** `w'` is a later state of the world `w`. */
  ghost predicate Later(d: nat, ts: seq<Tower>, w: World, w': World)
    requires TowersOk(d, ts) && Staged(|ts|, w)
  {
    && w.next <= w'.next && Staged(|ts|, w')
    && NameMeanings(d, ts, w.equations) <= NameMeanings(d, ts, w'.equations)
  }

  lemma LaterTransitive(d: nat, ts: seq<Tower>, u: World, v: World, w: World)
    requires TowersOk(d, ts) && Staged(|ts|, u) && Later(d, ts, u, v) && Later(d, ts, v, w)
    ensures Later(d, ts, u, w)
  {
  }

  /** What a value stands for in a world. */
  ghost predicate FitsIn(cur: Interpreter, w: World, v: Value) {
    Fits(cur, w.names, v)
  }

  ghost function MeaningIn(cur: Interpreter, d: nat, ts: seq<Tower>, w: World, v: Value): (t: Tower)
    requires TowersOk(d, ts) && Staged(|ts|, w) && FitsIn(cur, w, v)
    ensures HasDepth(t, Depth(cur, d))
  {
    Meaning(cur, d, NameMeanings(d, ts, w.equations), v)
  }

  lemma MeaningLater(cur: Interpreter, d: nat, ts: seq<Tower>, w: World, w': World, v: Value)
    requires TowersOk(d, ts) && Staged(|ts|, w) && Later(d, ts, w, w') && FitsIn(cur, w, v)
    ensures FitsIn(cur, w', v) && MeaningIn(cur, d, ts, w', v) == MeaningIn(cur, d, ts, w, v)
  {
    MeaningMore(cur, d, NameMeanings(d, ts, w.equations), NameMeanings(d, ts, w'.equations), v);
  }

  lemma NumIn(cur: Interpreter, d: nat, ts: seq<Tower>, w: World, c: real)
    requires TowersOk(d, ts) && Staged(|ts|, w)
    ensures FitsIn(cur, w, Num(c)) && MeaningIn(cur, d, ts, w, Num(c)) == Constant(Depth(cur, d), c)
  {
    NumFits(cur, d, NameMeanings(d, ts, w.equations), c);
  }

  /** The result of an operation, or of a program, under `cur`: it stands for `t`. */
  ghost predicate Yields(cur: Interpreter, d: nat, ts: seq<Tower>, w: World, r: Option<(Value, World)>, t: Tower)
    requires TowersOk(d, ts) && Staged(|ts|, w)
  {
    && r.Some? && Later(d, ts, w, r.value.1) && FitsIn(cur, r.value.1, r.value.0)
    && MeaningIn(cur, d, ts, r.value.1, r.value.0) == t
  }

  lemma StagingMeaning(op: Op, d: nat, ts: seq<Tower>, w: World, x: Value, y: Value)
    requires TowersOk(d, ts) && Staged(|ts|, w) && FitsIn(StagingInterpreter, w, x) && FitsIn(StagingInterpreter, w, y)
    ensures Yields(StagingInterpreter, d, ts, w, InterpretOp(StagingInterpreter, op, x, y, w),
                   Combine(d, op, MeaningIn(StagingInterpreter, d, ts, w, x),
                           MeaningIn(StagingInterpreter, d, ts, w, y)))
  {
    var before, eqn := NameMeanings(d, ts, w.equations), Equation(w.names + 1, op, x, y);
    NameMeaningsNext(d, ts, w.equations, eqn);
    var w' := World(w.next, w.names + 1, w.equations + [eqn]);
    NamedMeaning(d, NameMeanings(d, ts, w'.equations), w'.names);
    hide NameMeanings, Combine, AtomMeaning, TowersOk, WellFormed;
    assert Later(d, ts, w, w');
    assert InterpretOp(StagingInterpreter, op, x, y, w) == Some((Name(w'.names), w'));
  }

  lemma NamedMeaning(d: nat, ts: seq<Tower>, i: nat)
    requires TowersOk(d, ts) && 1 <= i <= |ts|
    ensures Fits(StagingInterpreter, |ts|, Name(i)) && Meaning(StagingInterpreter, d, ts, Name(i)) == ts[i - 1]
  {
  }

  /** The two components of a lifted value. */
  lemma LiftMeaning(id: nat, prev: Interpreter, d: nat, ts: seq<Tower>, w: World, v: Value)
    requires TowersOk(d, ts) && Staged(|ts|, w) && FitsIn(JVPInterpreter(id, prev), w, v)
    ensures var l := Lift(id, v);
            && FitsIn(prev, w, l.primal) && FitsIn(prev, w, l.tangent)
            && MeaningIn(JVPInterpreter(id, prev), d, ts, w, v)
               == Pair(MeaningIn(prev, d, ts, w, l.primal), MeaningIn(prev, d, ts, w, l.tangent))
  {
    NumIn(prev, d, ts, w, 0.0);
  }

  lemma PairYields(id: nat, prev: Interpreter, d: nat, ts: seq<Tower>, w: World, w1: World, p: Value, w2: World,
                   t: Value, pt: Tower, tt: Tower)
    requires TowersOk(d, ts) && Staged(|ts|, w) && Later(d, ts, w, w1)
    requires Yields(prev, d, ts, w, Some((p, w1)), pt) && Yields(prev, d, ts, w1, Some((t, w2)), tt)
    ensures Yields(JVPInterpreter(id, prev), d, ts, w, Some((Dual(id, p, t), w2)), Pair(pt, tt))
  {
    LaterTransitive(d, ts, w, w1, w2);
    MeaningLater(prev, d, ts, w1, w2, p);
  }

  /** Every interpreter computes in its ring, and no assertion fails. */
  lemma {:induction false} OpMeaning(cur: Interpreter, op: Op, d: nat, ts: seq<Tower>, w: World, x: Value, y: Value)
    requires TowersOk(d, ts) && Staged(|ts|, w) && FitsIn(cur, w, x) && FitsIn(cur, w, y)
    ensures Yields(cur, d, ts, w, InterpretOp(cur, op, x, y, w),
                   Combine(Depth(cur, d), op, MeaningIn(cur, d, ts, w, x), MeaningIn(cur, d, ts, w, y)))
    decreases cur, 0
  {
    hide RealProduct;
    match cur
    case EvalInterpreter =>
    case StagingInterpreter => StagingMeaning(op, d, ts, w, x, y);
    case JVPInterpreter(id, prev) => RuleMeaning(id, prev, op, d, ts, w, x, y);
  }

  lemma CombinePairs(n: nat, op: Op, xp: Tower, xt: Tower, yp: Tower, yt: Tower)
    requires HasDepth(xp, n) && HasDepth(xt, n) && HasDepth(yp, n) && HasDepth(yt, n)
    ensures HasDepth(Pair(xp, xt), n + 1) && HasDepth(Pair(yp, yt), n + 1)
    ensures Combine(n + 1, op, Pair(xp, xt), Pair(yp, yt))
         == Pair(Combine(n, op, xp, yp),
                 if op.AddOp? then Plus(n, xt, yt) else Plus(n, Times(n, xp, yt), Times(n, xt, yp)))
  {
  }

  /** The rules of a JVPInterpreter are those of dual numbers over the ring below. */
  lemma {:induction false} RuleMeaning(id: nat, prev: Interpreter, op: Op, d: nat, ts: seq<Tower>, w: World, x: Value,
                                       y: Value)
    requires TowersOk(d, ts) && Staged(|ts|, w) && FitsIn(JVPInterpreter(id, prev), w, x)
             && FitsIn(JVPInterpreter(id, prev), w, y)
    ensures var cur := JVPInterpreter(id, prev);
            Yields(cur, d, ts, w, InterpretOp(cur, op, x, y, w),
                   Combine(Depth(cur, d), op, MeaningIn(cur, d, ts, w, x), MeaningIn(cur, d, ts, w, y)))
    decreases prev, 2
  {
    hide Meaning, Fits, MeaningIn, FitsIn, Later, Staged, TowersOk, Combine, Plus, Times, HasDepth;
    LiftMeaning(id, prev, d, ts, w, x);
    LiftMeaning(id, prev, d, ts, w, y);
    var x1, y1 := Lift(id, x), Lift(id, y);
    var xp, xt := MeaningIn(prev, d, ts, w, x1.primal), MeaningIn(prev, d, ts, w, x1.tangent);
    var yp, yt := MeaningIn(prev, d, ts, w, y1.primal), MeaningIn(prev, d, ts, w, y1.tangent);
    CombinePairs(Depth(prev, d), op, xp, xt, yp, yt);
    OpMeaning(prev, op, d, ts, w, x1.primal, y1.primal);
    var (p, w1) := InterpretOp(prev, op, x1.primal, y1.primal, w).value;
    LaterStaged(d, ts, w, w1);
    MeaningLater(prev, d, ts, w, w1, x1.tangent);
    MeaningLater(prev, d, ts, w, w1, y1.tangent);
    if op.AddOp? {
      OpMeaning(prev, AddOp, d, ts, w1, x1.tangent, y1.tangent);
      var (t, w2) := InterpretOp(prev, AddOp, x1.tangent, y1.tangent, w1).value;
      LaterStaged(d, ts, w1, w2);
      AddPairs(Depth(prev, d), xt, yt);
      PairYields(id, prev, d, ts, w, w1, p, w2, t, Combine(Depth(prev, d), op, xp, yp), Plus(Depth(prev, d), xt, yt));
    } else {
      MeaningLater(prev, d, ts, w, w1, x1.primal);
      MeaningLater(prev, d, ts, w, w1, y1.primal);
      ProductTangent(prev, d, ts, w1, x1.primal, x1.tangent, y1.primal, y1.tangent);
      var (t1, u1) := InterpretOp(prev, MulOp, x1.primal, y1.tangent, w1).value;
      var (t2, u2) := InterpretOp(prev, MulOp, x1.tangent, y1.primal, u1).value;
      var (t, w2) := InterpretOp(prev, AddOp, t1, t2, u2).value;
      LaterStaged(d, ts, w1, w2);
      PairYields(id, prev, d, ts, w, w1, p, w2, t, Combine(Depth(prev, d), op, xp, yp), MeaningIn(prev, d, ts, w2, t));
    }
  }

  lemma AddPairs(n: nat, x: Tower, y: Tower)
    requires HasDepth(x, n) && HasDepth(y, n)
    ensures Combine(n, AddOp, x, y) == Plus(n, x, y)
  {
  }

  /** The tangent of a product, with one operation after the other. */
  lemma {:induction false} ProductTangent(prev: Interpreter, d: nat, ts: seq<Tower>, w: World, xp: Value, xt: Value,
                                          yp: Value, yt: Value)
    requires TowersOk(d, ts) && Staged(|ts|, w)
    requires FitsIn(prev, w, xp) && FitsIn(prev, w, xt) && FitsIn(prev, w, yp) && FitsIn(prev, w, yt)
    ensures var n, t1 := Depth(prev, d), InterpretOp(prev, MulOp, xp, yt, w);
            t1.Some? &&
            var t2 := InterpretOp(prev, MulOp, xt, yp, t1.value.1);
            t2.Some? && Yields(prev, d, ts, w, InterpretOp(prev, AddOp, t1.value.0, t2.value.0, t2.value.1),
                               Plus(n, Times(n, MeaningIn(prev, d, ts, w, xp), MeaningIn(prev, d, ts, w, yt)),
                                    Times(n, MeaningIn(prev, d, ts, w, xt), MeaningIn(prev, d, ts, w, yp))))
    decreases prev, 1
  {
    hide Meaning, Fits, MeaningIn, FitsIn, Later, Staged, TowersOk, InterpretOp;
    OpMeaning(prev, MulOp, d, ts, w, xp, yt);
    var (v1, w1) := InterpretOp(prev, MulOp, xp, yt, w).value;
    MeaningLater(prev, d, ts, w, w1, xt);
    MeaningLater(prev, d, ts, w, w1, yp);
    LaterStaged(d, ts, w, w1);
    OpMeaning(prev, MulOp, d, ts, w1, xt, yp);
    var (v2, w2) := InterpretOp(prev, MulOp, xt, yp, w1).value;
    LaterStaged(d, ts, w1, w2);
    MeaningLater(prev, d, ts, w1, w2, v1);
    OpMeaning(prev, AddOp, d, ts, w2, v1, v2);
    LaterTransitive(d, ts, w, w1, w2);
    LaterTransitive(d, ts, w, w2, InterpretOp(prev, AddOp, v1, v2, w2).value.1);
  }

  lemma LaterStaged(d: nat, ts: seq<Tower>, w: World, w': World)
    requires TowersOk(d, ts) && Staged(|ts|, w) && Later(d, ts, w, w')
    ensures Staged(|ts|, w')
  {
  }

  // ---------- identities ----------

  /** All tags in a value are older than `n`. */
  predicate Below(v: Value, n: nat) {
    v.Dual? ==> v.tag < n && Below(v.primal, n) && Below(v.tangent, n)
  }

  predicate ChainBelow(cur: Interpreter, n: nat) {
    cur.JVPInterpreter? ==> cur.id < n && ChainBelow(cur.prev, n)
  }

  lemma {:induction false} BelowMore(v: Value, n: nat, n': nat)
    requires Below(v, n) && n <= n'
    ensures Below(v, n')
  {
    if v.Dual? {
      BelowMore(v.primal, n, n');
      BelowMore(v.tangent, n, n');
    }
  }

  lemma {:induction false} ChainBelowMore(cur: Interpreter, n: nat, n': nat)
    requires ChainBelow(cur, n) && n <= n'
    ensures ChainBelow(cur, n')
  {
    if cur.JVPInterpreter? {
      ChainBelowMore(cur.prev, n, n');
    }
  }

  lemma {:induction false} OpBelow(cur: Interpreter, op: Op, x: Value, y: Value, w: World, n: nat)
    requires Below(x, n) && Below(y, n) && ChainBelow(cur, n) && InterpretOp(cur, op, x, y, w).Some?
    ensures Below(InterpretOp(cur, op, x, y, w).value.0, n)
    decreases cur
  {
    if cur.JVPInterpreter? {
      var x1, y1 := Lift(cur.id, x), Lift(cur.id, y);
      OpBelow(cur.prev, op, x1.primal, y1.primal, w, n);
      var w1 := InterpretOp(cur.prev, op, x1.primal, y1.primal, w).value.1;
      if op.AddOp? {
        OpBelow(cur.prev, AddOp, x1.tangent, y1.tangent, w1, n);
      } else {
        OpBelow(cur.prev, MulOp, x1.primal, y1.tangent, w1, n);
        var (t1, w2) := InterpretOp(cur.prev, MulOp, x1.primal, y1.tangent, w1).value;
        OpBelow(cur.prev, MulOp, x1.tangent, y1.primal, w2, n);
        var (t2, w3) := InterpretOp(cur.prev, MulOp, x1.tangent, y1.primal, w2).value;
        OpBelow(cur.prev, AddOp, t1, t2, w3, n);
      }
    }
  }

  /** The values in scope of a program under `cur`. */
  ghost predicate EnvOk(cur: Interpreter, w: World, env: seq<Value>) {
    ChainBelow(cur, w.next) && forall i :: 0 <= i < |env| ==> FitsIn(cur, w, env[i]) && Below(env[i], w.next)
  }

  ghost function Meanings(cur: Interpreter, d: nat, ts: seq<Tower>, w: World, env: seq<Value>): (r: seq<Tower>)
    requires TowersOk(d, ts) && Staged(|ts|, w) && forall i :: 0 <= i < |env| ==> FitsIn(cur, w, env[i])
    ensures |r| == |env| && TowersOk(Depth(cur, d), r)
    ensures forall i :: 0 <= i < |env| ==> r[i] == MeaningIn(cur, d, ts, w, env[i])
  {
    seq(|env|, i requires 0 <= i < |env| => MeaningIn(cur, d, ts, w, env[i]))
  }

  lemma EnvLater(cur: Interpreter, d: nat, ts: seq<Tower>, w: World, w': World, env: seq<Value>)
    requires TowersOk(d, ts) && Staged(|ts|, w) && EnvOk(cur, w, env) && Later(d, ts, w, w')
    ensures EnvOk(cur, w', env) && Meanings(cur, d, ts, w', env) == Meanings(cur, d, ts, w, env)
  {
    ChainBelowMore(cur, w.next, w'.next);
    forall i | 0 <= i < |env|
      ensures FitsIn(cur, w', env[i]) && Below(env[i], w'.next)
      ensures MeaningIn(cur, d, ts, w', env[i]) == MeaningIn(cur, d, ts, w, env[i])
    {
      MeaningLater(cur, d, ts, w, w', env[i]);
      BelowMore(env[i], w.next, w'.next);
    }
  }

  // ---------- programs in the ring ----------

  /** Elements of the ring below as constants. */
  function Constants(n: nat, ts: seq<Tower>): (r: seq<Tower>)
    ensures |r| == |ts| && forall i :: 0 <= i < |ts| ==> r[i] == Pair(ts[i], Constant(n, 0.0))
  {
    seq(|ts|, i requires 0 <= i < |ts| => Pair(ts[i], Constant(n, 0.0)))
  }

  /** The meaning of a program: `derivative` adds one level of dual numbers, in which the variables
      outside are constants and the new variable has derivative one, and reads off the tangent. */
  ghost function Denote(n: nat, ts: seq<Tower>, e: Expr): (t: Tower)
    requires Scoped(e, |ts|) && TowersOk(n, ts)
    ensures HasDepth(t, n)
    decreases e
  {
    match e
    case Var(i) => ts[i]
    case Const(c) => Constant(n, c)
    case Add(a, b) => Plus(n, Denote(n, ts, a), Denote(n, ts, b))
    case Mul(a, b) => Times(n, Denote(n, ts, a), Denote(n, ts, b))
    case Deriv(body, at) =>
      Denote(n + 1, Constants(n, ts) + [Pair(Denote(n, ts, at), Constant(n, 1.0))], body).t
  }

  /** No perturbation confusion: at every nesting depth, running a program under the interpreters
      succeeds and means what the program means, because the identity of a new interpreter occurs in
      no value in scope. */
  lemma {:induction false} EvaluateMeaning(cur: Interpreter, d: nat, ts: seq<Tower>, env: seq<Value>, e: Expr, w: World)
    requires TowersOk(d, ts) && Staged(|ts|, w) && EnvOk(cur, w, env) && Scoped(e, |env|)
    ensures Yields(cur, d, ts, w, Evaluate(cur, env, e, w), Denote(Depth(cur, d), Meanings(cur, d, ts, w, env), e))
    ensures Below(Evaluate(cur, env, e, w).value.0, Evaluate(cur, env, e, w).value.1.next)
    decreases e, 1
  {
    hide InterpretOp, MeaningIn, FitsIn;
    match e
    case Var(i) =>
    case Const(c) => NumIn(cur, d, ts, w, c);
    case Add(a, b) => OperandsMeaning(cur, d, ts, env, e, AddOp, a, b, w);
    case Mul(a, b) => OperandsMeaning(cur, d, ts, env, e, MulOp, a, b, w);
    case Deriv(body, at) => DerivativeMeaning(cur, d, ts, env, e, body, at, w);
  }

  lemma {:induction false} DerivativeMeaning(cur: Interpreter, d: nat, ts: seq<Tower>, env: seq<Value>, e: Expr,
                                             body: Expr, at: Expr, w: World)
    requires TowersOk(d, ts) && Staged(|ts|, w) && EnvOk(cur, w, env) && Scoped(e, |env|) && e == Deriv(body, at)
    ensures Yields(cur, d, ts, w, Evaluate(cur, env, e, w), Denote(Depth(cur, d), Meanings(cur, d, ts, w, env), e))
    ensures Below(Evaluate(cur, env, e, w).value.0, Evaluate(cur, env, e, w).value.1.next)
    decreases e, 0
  {
    hide InterpretOp, MeaningIn, FitsIn, Later, Staged, TowersOk, EnvOk, HasDepth, Plus, Times, Combine, Below;
    EvaluateMeaning(cur, d, ts, env, at, w);
    var (x, w1) := Evaluate(cur, env, at, w).value;
    LaterStaged(d, ts, w, w1);
    var id := w1.next;
    var inner, env1, w2 := JVPInterpreter(id, cur), env + [Dual(id, x, Num(1.0))], w1.(next := id + 1);
    EnvLater(cur, d, ts, w, w1, env);
    NewInterpreter(cur, d, ts, env, w1, x);
    EvaluateMeaning(inner, d, ts, env1, body, w2);
    var (v, w3) := Evaluate(inner, env1, body, w2).value;
    LaterStaged(d, ts, w2, w3);
    TangentMeaning(cur, d, ts, id, w3, v);
    LaterTransitive(d, ts, w, w1, w2);
    LaterTransitive(d, ts, w, w2, w3);
  }

  lemma {:induction false} OperandsMeaning(cur: Interpreter, d: nat, ts: seq<Tower>, env: seq<Value>, e: Expr, op: Op,
                                           a: Expr, b: Expr, w: World)
    requires TowersOk(d, ts) && Staged(|ts|, w) && EnvOk(cur, w, env) && Scoped(e, |env|)
    requires e == if op.AddOp? then Add(a, b) else Mul(a, b)
    ensures Yields(cur, d, ts, w, Evaluate(cur, env, e, w), Denote(Depth(cur, d), Meanings(cur, d, ts, w, env), e))
    ensures Below(Evaluate(cur, env, e, w).value.0, Evaluate(cur, env, e, w).value.1.next)
    decreases e, 0
  {
    hide InterpretOp, MeaningIn, FitsIn, Later, Staged;
    EvaluateMeaning(cur, d, ts, env, a, w);
    var (x, w1) := Evaluate(cur, env, a, w).value;
    LaterStaged(d, ts, w, w1);
    EnvLater(cur, d, ts, w, w1, env);
    EvaluateMeaning(cur, d, ts, env, b, w1);
    var (y, w2) := Evaluate(cur, env, b, w1).value;
    LaterStaged(d, ts, w1, w2);
    EnvLater(cur, d, ts, w1, w2, env);
    MeaningLater(cur, d, ts, w1, w2, x);
    OpMeaning(cur, op, d, ts, w2, x, y);
    var w3 := InterpretOp(cur, op, x, y, w2).value.1;
    LaterTransitive(d, ts, w, w1, w2);
    LaterTransitive(d, ts, w, w2, w3);
    LaterNext(d, ts, w1, w2);
    BelowMore(x, w1.next, w2.next);
    OpBelow(cur, op, x, y, w2, w2.next);
    LaterNext(d, ts, w2, w3);
    BelowMore(InterpretOp(cur, op, x, y, w2).value.0, w2.next, w3.next);
  }

  lemma LaterNext(d: nat, ts: seq<Tower>, w: World, w': World)
    requires TowersOk(d, ts) && Staged(|ts|, w) && Later(d, ts, w, w')
    ensures w.next <= w'.next
  {
  }

  /** A value that is older than a new interpreter is a constant for it. */
  lemma OlderValue(cur: Interpreter, d: nat, ts: seq<Tower>, id: nat, w: World, w': World, v: Value)
    requires TowersOk(d, ts) && Staged(|ts|, w) && FitsIn(cur, w, v) && Below(v, id) && w' == w.(next := id + 1)
    ensures FitsIn(JVPInterpreter(id, cur), w', v)
    ensures MeaningIn(JVPInterpreter(id, cur), d, ts, w', v)
            == Pair(MeaningIn(cur, d, ts, w, v), Constant(Depth(cur, d), 0.0))
  {
  }

  lemma NewInterpreter(cur: Interpreter, d: nat, ts: seq<Tower>, env: seq<Value>, w: World, x: Value)
    requires TowersOk(d, ts) && Staged(|ts|, w) && EnvOk(cur, w, env) && FitsIn(cur, w, x) && Below(x, w.next)
    ensures var inner, w' := JVPInterpreter(w.next, cur), w.(next := w.next + 1);
            var env1 := env + [Dual(w.next, x, Num(1.0))];
            && Staged(|ts|, w') && EnvOk(inner, w', env1) && Later(d, ts, w, w')
            && Meanings(inner, d, ts, w', env1)
               == Constants(Depth(cur, d), Meanings(cur, d, ts, w, env))
                  + [Pair(MeaningIn(cur, d, ts, w, x), Constant(Depth(cur, d), 1.0))]
  {
    var id, n := w.next, Depth(cur, d);
    var inner, one, w' := JVPInterpreter(id, cur), Dual(id, x, Num(1.0)), w.(next := id + 1);
    assert Staged(|ts|, w') && Later(d, ts, w, w');
    hide MeaningIn, FitsIn, Later;
    ChainBelowMore(cur, id, id + 1);
    forall i | 0 <= i < |env|
      ensures FitsIn(inner, w', env[i]) && Below(env[i], id + 1)
      ensures MeaningIn(inner, d, ts, w', env[i]) == Pair(MeaningIn(cur, d, ts, w, env[i]), Constant(n, 0.0))
    {
      BelowMore(env[i], id, id + 1);
      OlderValue(cur, d, ts, id, w, w', env[i]);
    }
    BelowMore(x, id, id + 1);
    NumIn(cur, d, ts, w, 1.0);
    OwnValue(cur, d, ts, id, w, w', x, Num(1.0));
    assert Below(Num(1.0), id + 1) && Below(one, id + 1);
    assert Meanings(inner, d, ts, w', env + [one])
        == Constants(n, Meanings(cur, d, ts, w, env)) + [Pair(MeaningIn(cur, d, ts, w, x), Constant(n, 1.0))];
  }

  lemma OwnValue(cur: Interpreter, d: nat, ts: seq<Tower>, id: nat, w: World, w': World, p: Value, t: Value)
    requires TowersOk(d, ts) && Staged(|ts|, w) && FitsIn(cur, w, p) && FitsIn(cur, w, t) && w' == w.(next := id + 1)
    ensures FitsIn(JVPInterpreter(id, cur), w', Dual(id, p, t))
    ensures MeaningIn(JVPInterpreter(id, cur), d, ts, w', Dual(id, p, t))
         == Pair(MeaningIn(cur, d, ts, w, p), MeaningIn(cur, d, ts, w, t))
  {
  }

  lemma TangentMeaning(cur: Interpreter, d: nat, ts: seq<Tower>, id: nat, w: World, v: Value)
    requires TowersOk(d, ts) && Staged(|ts|, w) && FitsIn(JVPInterpreter(id, cur), w, v) && Below(v, w.next)
    ensures FitsIn(cur, w, Lift(id, v).tangent) && Below(Lift(id, v).tangent, w.next)
    ensures MeaningIn(cur, d, ts, w, Lift(id, v).tangent) == MeaningIn(JVPInterpreter(id, cur), d, ts, w, v).t
  {
    LiftMeaning(id, cur, d, ts, w, v);
  }

  // ---------- formal derivatives ----------

  predicate Polynomial(e: Expr) {
    match e
    case Var(_) | Const(_) => true
    case Add(a, b) => Polynomial(a) && Polynomial(b)
    case Mul(a, b) => Polynomial(a) && Polynomial(b)
    case Deriv(_, _) => false
  }

  /** The formal partial derivative of a polynomial. */
  function Diff(e: Expr, i: nat): (r: Expr)
    requires Polynomial(e)
    ensures Polynomial(r)
  {
    match e
    case Var(k) => Const(if k == i then 1.0 else 0.0)
    case Const(_) => Const(0.0)
    case Add(a, b) => Add(Diff(a, i), Diff(b, i))
    case Mul(a, b) => Add(Mul(a, Diff(b, i)), Mul(Diff(a, i), b))
  }

  function Substitute(e: Expr, k: nat, s: Expr): (r: Expr)
    requires Polynomial(e) && Polynomial(s)
    ensures Polynomial(r)
  {
    match e
    case Var(i) => if i == k then s else e
    case Const(_) => e
    case Add(a, b) => Add(Substitute(a, k, s), Substitute(b, k, s))
    case Mul(a, b) => Mul(Substitute(a, k, s), Substitute(b, k, s))
  }

  lemma {:induction false} DiffScoped(e: Expr, i: nat, n: nat)
    requires Polynomial(e) && Scoped(e, n)
    ensures Scoped(Diff(e, i), n)
  {
    match e
    case Var(_) | Const(_) =>
    case Add(a, b) => DiffScoped(a, i, n); DiffScoped(b, i, n);
    case Mul(a, b) => DiffScoped(a, i, n); DiffScoped(b, i, n);
  }

  lemma {:induction false} SubstituteScoped(e: Expr, k: nat, s: Expr)
    requires Polynomial(e) && Polynomial(s) && Scoped(e, k + 1) && Scoped(s, k)
    ensures Scoped(Substitute(e, k, s), k)
  {
    match e
    case Var(_) | Const(_) =>
    case Add(a, b) => SubstituteScoped(a, k, s); SubstituteScoped(b, k, s);
    case Mul(a, b) => SubstituteScoped(a, k, s); SubstituteScoped(b, k, s);
  }

  /** A program with `n` variables in scope as a polynomial: every derivative is taken formally. */
  function Formal(e: Expr, n: nat): (r: Expr)
    requires Scoped(e, n)
    ensures Polynomial(r) && Scoped(r, n)
    decreases e
  {
    match e
    case Var(_) | Const(_) => e
    case Add(a, b) => Add(Formal(a, n), Formal(b, n))
    case Mul(a, b) => Mul(Formal(a, n), Formal(b, n))
    case Deriv(body, at) =>
      var d := Diff(Formal(body, n + 1), n);
      DiffScoped(Formal(body, n + 1), n, n + 1);
      SubstituteScoped(d, n, Formal(at, n));
      Substitute(d, n, Formal(at, n))
  }

  /** Dual numbers carry the formal derivative, over every ring of the tower. */
  lemma {:induction false} DualsDifferentiate(n: nat, ts: seq<Tower>, x: Tower, e: Expr)
    requires TowersOk(n, ts) && HasDepth(x, n) && Polynomial(e) && Scoped(e, |ts| + 1)
    ensures Scoped(Diff(e, |ts|), |ts| + 1)
    ensures Denote(n + 1, Constants(n, ts) + [Pair(x, Constant(n, 1.0))], e)
         == Pair(Denote(n, ts + [x], e), Denote(n, ts + [x], Diff(e, |ts|)))
    decreases e
  {
    DiffScoped(e, |ts|, |ts| + 1);
    match e
    case Var(i) =>
    case Const(_) =>
    case Add(a, b) =>
      DualsDifferentiate(n, ts, x, a);
      DualsDifferentiate(n, ts, x, b);
    case Mul(a, b) =>
      DualsDifferentiate(n, ts, x, a);
      DualsDifferentiate(n, ts, x, b);
  }

  lemma {:induction false} SubstituteMeaning(n: nat, ts: seq<Tower>, e: Expr, s: Expr)
    requires TowersOk(n, ts) && Polynomial(e) && Polynomial(s) && Scoped(e, |ts| + 1) && Scoped(s, |ts|)
    ensures Scoped(Substitute(e, |ts|, s), |ts|)
    ensures Denote(n, ts, Substitute(e, |ts|, s)) == Denote(n, ts + [Denote(n, ts, s)], e)
    decreases e
  {
    SubstituteScoped(e, |ts|, s);
    match e
    case Var(i) =>
    case Const(_) =>
    case Add(a, b) =>
      SubstituteMeaning(n, ts, a, s);
      SubstituteMeaning(n, ts, b, s);
    case Mul(a, b) =>
      SubstituteMeaning(n, ts, a, s);
      SubstituteMeaning(n, ts, b, s);
  }

  lemma {:induction false} FormalMeaning(n: nat, ts: seq<Tower>, e: Expr)
    requires TowersOk(n, ts) && Scoped(e, |ts|)
    ensures Denote(n, ts, e) == Denote(n, ts, Formal(e, |ts|))
    decreases e
  {
    match e
    case Var(_) | Const(_) =>
    case Add(a, b) =>
      FormalMeaning(n, ts, a);
      FormalMeaning(n, ts, b);
    case Mul(a, b) =>
      FormalMeaning(n, ts, a);
      FormalMeaning(n, ts, b);
    case Deriv(body, at) =>
      var k := |ts|;
      FormalMeaning(n, ts, at);
      var x := Denote(n, ts, at);
      var ts1 := Constants(n, ts) + [Pair(x, Constant(n, 1.0))];
      FormalMeaning(n + 1, ts1, body);
      assert |ts1| == k + 1;
      DualsDifferentiate(n, ts, x, Formal(body, k + 1));
      SubstituteMeaning(n, ts, Diff(Formal(body, k + 1), k), Formal(at, k));
  }

  // ---------- the top level ----------

  function RealValue(e: Expr, xs: seq<real>): real
    requires Polynomial(e) && Scoped(e, |xs|)
  {
    match e
    case Var(i) => xs[i]
    case Const(c) => c
    case Add(a, b) => RealValue(a, xs) + RealValue(b, xs)
    case Mul(a, b) => RealProduct(RealValue(a, xs), RealValue(b, xs))
  }

  function Nums(xs: seq<real>): (r: seq<Value>)
    ensures |r| == |xs| && forall i :: 0 <= i < |xs| ==> r[i] == Num(xs[i])
  {
    seq(|xs|, i requires 0 <= i < |xs| => Num(xs[i]))
  }

  lemma {:induction false} RealDenote(ts: seq<Tower>, xs: seq<real>, e: Expr)
    requires |ts| == |xs| && (forall i :: 0 <= i < |xs| ==> ts[i] == Real(xs[i])) && Polynomial(e) && Scoped(e, |xs|)
    ensures Denote(0, ts, e) == Real(RealValue(e, xs))
    decreases e
  {
    hide RealProduct;
    match e
    case Var(_) | Const(_) =>
    case Add(a, b) =>
      RealDenote(ts, xs, a);
      RealDenote(ts, xs, b);
    case Mul(a, b) =>
      RealDenote(ts, xs, a);
      RealDenote(ts, xs, b);
  }

  /** Every program, with derivatives nested in any way, runs at the top level without a failing
      assertion and returns the value of its formal derivative polynomial. */
  lemma ProgramCorrect(e: Expr, xs: seq<real>, next: nat)
    requires Scoped(e, |xs|)
    ensures Evaluate(EvalInterpreter, Nums(xs), e, World(next, 0, [])).Some?
    ensures Evaluate(EvalInterpreter, Nums(xs), e, World(next, 0, [])).value.0 == Num(RealValue(Formal(e, |xs|), xs))
  {
    var w := World(next, 0, []);
    assert Staged(0, w) && EnvOk(EvalInterpreter, w, Nums(xs));
    EvaluateMeaning(EvalInterpreter, 0, [], Nums(xs), e, w);
    var ts := Meanings(EvalInterpreter, 0, [], w, Nums(xs));
    FormalMeaning(0, ts, e);
    RealDenote(ts, xs, Formal(e, |xs|));
  }

  // ---------- the formal derivative is the derivative ----------

  function Remainder(e: Expr, xs: seq<real>, i: nat, h: real): real
    requires Polynomial(e) && Scoped(e, |xs|) && i < |xs|
  {
    match e
    case Var(_) | Const(_) => 0.0
    case Add(a, b) => Remainder(a, xs, i, h) + Remainder(b, xs, i, h)
    case Mul(a, b) =>
      DiffScoped(a, i, |xs|);
      DiffScoped(b, i, |xs|);
      ProductRemainder(RealValue(a, xs), RealValue(Diff(a, i), xs), Remainder(a, xs, i, h),
                       RealValue(b, xs), RealValue(Diff(b, i), xs), Remainder(b, xs, i, h), h)
  }

  function ProductRemainder(a: real, da: real, ra: real, b: real, db: real, rb: real, h: real): real {
    da * db + a * rb + ra * b + h * (da * rb + ra * db) + h * h * (ra * rb)
  }

  /** A value, the step times a slope, and the square of the step times a remainder. */
  function Taylor(v: real, d: real, r: real, h: real): real {
    v + h * d + h * h * r
  }

  lemma TaylorSum(a: real, da: real, ra: real, b: real, db: real, rb: real, h: real)
    ensures Taylor(a, da, ra, h) + Taylor(b, db, rb, h) == Taylor(a + b, da + db, ra + rb, h)
  {
  }

  lemma TaylorProduct(a: real, da: real, ra: real, b: real, db: real, rb: real, h: real)
    ensures RealProduct(Taylor(a, da, ra, h), Taylor(b, db, rb, h))
         == Taylor(RealProduct(a, b), RealProduct(a, db) + RealProduct(da, b),
                   ProductRemainder(a, da, ra, b, db, rb, h), h)
  {
    var u, v := h * da + h * h * ra, h * db + h * h * rb;
    assert (a + u) * (b + v) == a * b + a * v + u * b + u * v;
    assert a * v == h * (a * db) + h * h * (a * rb);
    assert u * b == h * (da * b) + h * h * (ra * b);
    Tangents(da, ra, db, rb, h);
    Collect(h, a * db, da * b, a * rb, ra * b, da * db + h * (da * rb + ra * db) + h * h * (ra * rb));
  }

  lemma Collect(h: real, x: real, y: real, p: real, q: real, t: real)
    ensures h * x + h * y == h * (x + y) && h * h * p + h * h * q + h * h * t == h * h * (p + q + t)
  {
  }

  lemma Tangents(da: real, ra: real, db: real, rb: real, h: real)
    ensures (h * da + h * h * ra) * (h * db + h * h * rb)
         == h * h * (da * db + h * (da * rb + ra * db) + h * h * (ra * rb))
  {
    var p, q := da + h * ra, db + h * rb;
    assert h * da + h * h * ra == h * p && h * db + h * h * rb == h * q;
    assert (h * p) * (h * q) == h * h * (p * q);
    assert p * q == da * db + h * (da * rb + ra * db) + h * h * (ra * rb);
  }

  lemma TaylorLeaf(v: real, h: real)
    ensures Taylor(v, 0.0, 0.0, h) == v && Taylor(v, 1.0, 0.0, h) == v + h
  {
  }

  /** The formal derivative is the derivative: around every point the polynomial is its value, plus the
      step times the formal derivative, plus the square of the step times a polynomial. */
  lemma {:induction false} DiffIsDerivative(e: Expr, xs: seq<real>, i: nat, h: real)
    requires Polynomial(e) && Scoped(e, |xs|) && i < |xs|
    ensures Scoped(Diff(e, i), |xs|)
    ensures RealValue(e, xs[i := xs[i] + h])
         == Taylor(RealValue(e, xs), RealValue(Diff(e, i), xs), Remainder(e, xs, i, h), h)
    decreases e
  {
    hide Taylor, RealProduct, ProductRemainder;
    DiffScoped(e, i, |xs|);
    match e
    case Var(_) | Const(_) => TaylorLeaf(RealValue(e, xs), h);
    case Add(a, b) =>
      DiffIsDerivative(a, xs, i, h);
      DiffIsDerivative(b, xs, i, h);
      TaylorSum(RealValue(a, xs), RealValue(Diff(a, i), xs), Remainder(a, xs, i, h),
                RealValue(b, xs), RealValue(Diff(b, i), xs), Remainder(b, xs, i, h), h);
    case Mul(a, b) =>
      DiffIsDerivative(a, xs, i, h);
      DiffIsDerivative(b, xs, i, h);
      TaylorProduct(RealValue(a, xs), RealValue(Diff(a, i), xs), Remainder(a, xs, i, h),
                    RealValue(b, xs), RealValue(Diff(b, i), xs), Remainder(b, xs, i, h), h);
  }

  // ---------- nth_order_derivative ----------

  /** A polynomial in one variable, applied to variable `i`. */
  function Apply(f: Expr, i: nat): (r: Expr)
    requires Polynomial(f)
    ensures Polynomial(r)
  {
    Substitute(f, 0, Var(i))
  }

  /** nth_order_derivative(n, f, x), where x is variable `i` and `m` variables are in scope: each level
      is derivative(lambda x: nth_order_derivative(n - 1, f, x), x). */
  function NthOrderDerivative(n: nat, f: Expr, i: nat, m: nat): Expr
    requires Polynomial(f)
  {
    if n == 0 then Apply(f, i) else Deriv(NthOrderDerivative(n - 1, f, m, m + 1), Var(i))
  }

  /** The formal derivative, n times. */
  function DiffN(n: nat, f: Expr): (r: Expr)
    requires Polynomial(f)
    ensures Polynomial(r)
  {
    if n == 0 then f else Diff(DiffN(n - 1, f), 0)
  }

  lemma {:induction false} ApplyScoped(f: Expr, i: nat, m: nat)
    requires Polynomial(f) && Scoped(f, 1) && i < m
    ensures Scoped(Apply(f, i), m)
  {
    match f
    case Var(_) | Const(_) =>
    case Add(a, b) => ApplyScoped(a, i, m); ApplyScoped(b, i, m);
    case Mul(a, b) => ApplyScoped(a, i, m); ApplyScoped(b, i, m);
  }

  lemma {:induction false} NthScoped(n: nat, f: Expr, i: nat, m: nat)
    requires Polynomial(f) && Scoped(f, 1) && i < m
    ensures Scoped(NthOrderDerivative(n, f, i, m), m)
    decreases n
  {
    if n == 0 {
      ApplyScoped(f, i, m);
    } else {
      NthScoped(n - 1, f, m, m + 1);
    }
  }

  lemma {:induction false} DiffNScoped(n: nat, f: Expr)
    requires Polynomial(f) && Scoped(f, 1)
    ensures Scoped(DiffN(n, f), 1)
  {
    if n > 0 {
      DiffNScoped(n - 1, f);
      DiffScoped(DiffN(n - 1, f), 0, 1);
    }
  }

  /** Differentiating and renaming the variable commute. */
  lemma {:induction false} DiffApply(f: Expr, i: nat)
    requires Polynomial(f) && Scoped(f, 1)
    ensures Diff(Apply(f, i), i) == Apply(Diff(f, 0), i)
  {
    match f
    case Var(_) | Const(_) =>
    case Add(a, b) => DiffApply(a, i); DiffApply(b, i);
    case Mul(a, b) =>
      DiffApply(a, i);
      DiffApply(b, i);
      assert Polynomial(Mul(a, Diff(b, 0))) && Polynomial(Mul(Diff(a, 0), b));
      assert Apply(Add(Mul(a, Diff(b, 0)), Mul(Diff(a, 0), b)), i)
          == Add(Apply(Mul(a, Diff(b, 0)), i), Apply(Mul(Diff(a, 0), b), i));
  }

  lemma {:induction false} SubstituteApply(f: Expr, m: nat, i: nat)
    requires Polynomial(f) && Scoped(f, 1)
    ensures Substitute(Apply(f, m), m, Var(i)) == Apply(f, i)
  {
    match f
    case Var(_) | Const(_) =>
    case Add(a, b) => SubstituteApply(a, m, i); SubstituteApply(b, m, i);
    case Mul(a, b) => SubstituteApply(a, m, i); SubstituteApply(b, m, i);
  }

  /** The program nth_order_derivative(n, f, x) is, formally, the n-th derivative of f at x. */
  lemma {:induction false} NthFormal(n: nat, f: Expr, i: nat, m: nat)
    requires Polynomial(f) && Scoped(f, 1) && i < m
    ensures Scoped(NthOrderDerivative(n, f, i, m), m)
    ensures Formal(NthOrderDerivative(n, f, i, m), m) == Apply(DiffN(n, f), i)
    decreases n
  {
    NthScoped(n, f, i, m);
    if n == 0 {
      ApplyScoped(f, i, m);
      PolynomialFormal(Apply(f, i), m);
    } else {
      NthFormal(n - 1, f, m, m + 1);
      DiffNScoped(n - 1, f);
      DiffNScoped(n, f);
      DiffApply(DiffN(n - 1, f), m);
      SubstituteApply(DiffN(n, f), m, i);
    }
  }

  lemma {:induction false} PolynomialFormal(e: Expr, n: nat)
    requires Polynomial(e) && Scoped(e, n)
    ensures Formal(e, n) == e
  {
    match e
    case Var(_) | Const(_) =>
    case Add(a, b) => PolynomialFormal(a, n); PolynomialFormal(b, n);
    case Mul(a, b) => PolynomialFormal(a, n); PolynomialFormal(b, n);
  }

  lemma {:induction false} ApplyValue(f: Expr, x: real)
    requires Polynomial(f) && Scoped(f, 1)
    ensures Scoped(Apply(f, 0), 1) && RealValue(Apply(f, 0), [x]) == RealValue(f, [x])
  {
    hide RealProduct;
    match f
    case Var(_) | Const(_) =>
    case Add(a, b) => ApplyValue(a, x); ApplyValue(b, x);
    case Mul(a, b) => ApplyValue(a, x); ApplyValue(b, x);
  }

  /** nth_order_derivative computes the n-th derivative of every polynomial at every point. */
  lemma NthOrderDerivativeCorrect(n: nat, f: Expr, x: real, next: nat)
    requires Polynomial(f) && Scoped(f, 1)
    ensures Scoped(NthOrderDerivative(n, f, 0, 1), 1) && Scoped(DiffN(n, f), 1)
    ensures Evaluate(EvalInterpreter, Nums([x]), NthOrderDerivative(n, f, 0, 1), World(next, 0, [])).Some?
    ensures Evaluate(EvalInterpreter, Nums([x]), NthOrderDerivative(n, f, 0, 1), World(next, 0, [])).value.0
         == Num(RealValue(DiffN(n, f), [x]))
  {
    NthFormal(n, f, 0, 1);
    DiffNScoped(n, f);
    ProgramCorrect(NthOrderDerivative(n, f, 0, 1), [x], next);
    ApplyValue(DiffN(n, f), x);
  }
}
