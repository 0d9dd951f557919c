/** Transposition computes the adjoint. The quantity kept by every step of the reversed loop is
    the sum, over the cotangent environment, of cotangent times tangent, where the tangent of a
    variable is its change between two evaluations that share the known inputs. */
module TransposeProof {
  import opened Wrappers
  import opened Lists
  import opened Jaxprs
  import opened Soundness
  import opened Transposition
  import opened PartialEvalProof
  import opened Products

  /** Only floats have tangents; a boolean counts as zero. */
  function Num(v: Val): real {
    if v.R? then v.r else 0.0
  }

  /** The inner product of two lists of values, up to the end of the shorter one. */
  function Dot(xs: seq<Val>, ys: seq<Val>): real {
    if xs == [] || ys == [] then 0.0 else RealProduct(Num(xs[0]), Num(ys[0])) + Dot(xs[1..], ys[1..])
  }

  /** Cotangents (where there is one) against the change from `ys` to `xs`. */
  ghost function Pair(cts: seq<Option<Val>>, xs: seq<Val>, ys: seq<Val>): real {
    if cts == [] || xs == [] || ys == [] then 0.0
    else
      (if cts[0].Some? then RealProduct(Num(cts[0].value), Num(xs[0]) - Num(ys[0])) else 0.0)
      + Pair(cts[1..], xs[1..], ys[1..])
  }

  ghost function Delta(ea: Env, eb: Env, v: Var): real {
    if v in ea && v in eb then Num(ea[v]) - Num(eb[v]) else 0.0
  }

  /** The conserved quantity. */
  ghost function Weigh(ct: CtEnv, ea: Env, eb: Env): real
    decreases |ct|
  {
    if ct == map[] then 0.0
    else
      assert ct.Keys != {};
      var v := Pick(ct.Keys);
      assert (ct - {v}).Keys == ct.Keys - {v};
      RealProduct(Num(ct[v]), Delta(ea, eb, v)) + Weigh(ct - {v}, ea, eb)
  }

  lemma {:induction false} WeighRemove(ct: CtEnv, v: Var, ea: Env, eb: Env)
    ensures Weigh(ct, ea, eb)
         == (if v in ct then RealProduct(Num(ct[v]), Delta(ea, eb, v)) else 0.0) + Weigh(ct - {v}, ea, eb)
    decreases |ct|
  {
    hide RealProduct, Delta;
    if v !in ct {
      assert ct - {v} == ct;
    } else {
      var u := Pick(ct.Keys);
      if u != v {
        assert (ct - {u}).Keys == ct.Keys - {u};
        assert (ct - {v}).Keys == ct.Keys - {v};
        WeighRemove(ct - {u}, v, ea, eb);
        WeighRemove(ct - {v}, u, ea, eb);
        assert ct - {u} - {v} == ct - {v} - {u};
      }
    }
  }

  lemma WeighPut(ct: CtEnv, v: Var, c: Val, ea: Env, eb: Env)
    ensures Weigh(ct[v := c], ea, eb) == RealProduct(Num(c), Delta(ea, eb, v)) + Weigh(ct - {v}, ea, eb)
  {
    hide RealProduct, Delta;
    WeighRemove(ct[v := c], v, ea, eb);
    assert ct[v := c] - {v} == ct - {v};
  }

  /** ct_env[x] = add(ct_env[x], val) if x in ct_env else val */
  lemma AccumulateWeigh(ct: CtEnv, v: Var, val: Val, sum: Val, ea: Env, eb: Env)
    requires (if v in ct then AddVals(ct[v], val) else Some(val)) == Some(sum)
    ensures Weigh(ct[v := sum], ea, eb) == Weigh(ct, ea, eb) + RealProduct(Num(val), Delta(ea, eb, v))
  {
    hide Weigh, RealProduct;
    WeighRemove(ct, v, ea, eb);
    WeighPut(ct, v, sum, ea, eb);
    if v in ct {
      TimesLinear(Num(ct[v]), Num(val), Delta(ea, eb, v));
    }
  }

  lemma PairStep(cts: seq<Option<Val>>, ea: Env, eb: Env, xs: seq<Atom>)
    requires AllBound(ea.Keys, xs) && AllBound(eb.Keys, xs) && cts != [] && xs != []
    ensures AllBound(ea.Keys, xs[1..]) && AllBound(eb.Keys, xs[1..])
    ensures Pair(cts, Gets(ea, xs), Gets(eb, xs))
         == (if cts[0].Some? && xs[0].V? then RealProduct(Num(cts[0].value), Delta(ea, eb, xs[0].v)) else 0.0)
            + Pair(cts[1..], Gets(ea, xs[1..]), Gets(eb, xs[1..]))
  {
    hide RealProduct;
    assert Bound(ea.Keys, xs[0]) && Bound(eb.Keys, xs[0]);
    if cts[0].Some? {
      TimesLinear(Num(cts[0].value), 0.0, 0.0);
    }
    assert Gets(ea, xs)[1..] == Gets(ea, xs[1..]);
    assert Gets(eb, xs)[1..] == Gets(eb, xs[1..]);
  }

  /** Reading cotangents moves their share of the sum out of the environment. */
  lemma {:induction false} ReadCtsWeigh(ct: CtEnv, vs: seq<Var>, ea: Env, eb: Env)
    requires AllBound(ea.Keys, Atoms(vs)) && AllBound(eb.Keys, Atoms(vs))
    ensures var r := ReadCts(ct, vs);
            && |r.0| == |vs| && r.1.Keys == ct.Keys - ToSet(vs)
            && Weigh(ct, ea, eb) == Weigh(r.1, ea, eb) + Pair(Somes(r.0), Gets(ea, Atoms(vs)), Gets(eb, Atoms(vs)))
    decreases vs
  {
    hide RealProduct, Weigh, Delta;
    if vs == [] {
      assert ct.Keys - ToSet(vs) == ct.Keys;
    } else {
      hide Pair;
      assert Atoms(vs)[1..] == Atoms(vs[1..]) && Atoms(vs)[0] == V(vs[0]);
      var r := ReadCts(ct, vs);
      PairStep(Somes(r.0), ea, eb, Atoms(vs));
      ReadCtsWeigh(ct - {vs[0]}, vs[1..], ea, eb);
      WeighRemove(ct, vs[0], ea, eb);
      TimesLinear(Delta(ea, eb, vs[0]), 0.0, 0.0);
      assert Somes(r.0)[1..] == Somes(r.0[1..]);
      assert vs == [vs[0]] + vs[1..];
    }
  }

  /** Writing cotangents adds their share to the sum; cotangents of literals have none. */
  lemma {:induction false} WriteCtsWeigh(ct: CtEnv, xs: seq<Atom>, vals: seq<Option<Val>>, ea: Env, eb: Env)
    requires AllBound(ea.Keys, xs) && AllBound(eb.Keys, xs) && WriteCts(ct, xs, vals).Some?
    ensures Weigh(WriteCts(ct, xs, vals).value, ea, eb)
         == Weigh(ct, ea, eb) + Pair(vals, Gets(ea, xs), Gets(eb, xs))
    ensures forall v :: v in WriteCts(ct, xs, vals).value ==> v in ct || V(v) in xs
    decreases xs
  {
    hide Weigh, RealProduct;
    if xs != [] && vals != [] {
      PairStep(vals, ea, eb, xs);
      assert xs == [xs[0]] + xs[1..];
      if xs[0].Lit? || vals[0].None? {
        WriteCtsWeigh(ct, xs[1..], vals[1..], ea, eb);
      } else {
        var v, val := xs[0].v, vals[0].value;
        var sum := (if v in ct then AddVals(ct[v], val) else Some(val)).value;
        AccumulateWeigh(ct, v, val, sum, ea, eb);
        WriteCtsWeigh(ct[v := sum], xs[1..], vals[1..], ea, eb);
      }
    }
  }

  lemma {:induction false} DotPair(cts: seq<Val>, xs: seq<Val>, ys: seq<Val>)
    requires |xs| == |ys|
    ensures Dot(cts, xs) - Dot(cts, ys) == Pair(Somes(cts), xs, ys)
  {
    hide RealProduct;
    if cts != [] && xs != [] {
      TimesLinear(Num(xs[0]), Num(ys[0]), Num(cts[0]));
      DotPair(cts[1..], xs[1..], ys[1..]);
      assert Somes(cts)[1..] == Somes(cts[1..]);
    }
  }

  /** The values that take the places of the undefined operands. */
  function UndefVals(ins: seq<Primal>, vals: seq<Val>): (r: seq<Val>)
    requires |ins| == |vals|
  {
    if ins == [] then []
    else (if ins[0].Undef? then [vals[0]] else []) + UndefVals(ins[1..], vals[1..])
  }

  /** `vals` gives every known operand its known value. */
  ghost predicate Fits(ins: seq<Primal>, vals: seq<Val>) {
    && |ins| == |vals|
    && forall i :: 0 <= i < |ins| && ins[i].Known? ==> ins[i].val == vals[i]
  }

  lemma {:induction false} ScatterPair(ins: seq<Primal>, outs: seq<Val>, xs: seq<Val>, ys: seq<Val>)
    requires |ins| == |xs| == |ys| && Scatter(ins, outs).Some?
    ensures Pair(Scatter(ins, outs).value, xs, ys) == Dot(outs, UndefVals(ins, xs)) - Dot(outs, UndefVals(ins, ys))
  {
    hide RealProduct;
    if ins != [] {
      var s := Scatter(ins, outs).value;
      if ins[0].Known? {
        assert s[0] == None;
        assert UndefVals(ins, xs) == UndefVals(ins[1..], xs[1..]);
        assert UndefVals(ins, ys) == UndefVals(ins[1..], ys[1..]);
        ScatterPair(ins[1..], outs, xs[1..], ys[1..]);
        assert s[1..] == Scatter(ins[1..], outs).value;
      } else {
        ScatterPair(ins[1..], outs[1..], xs[1..], ys[1..]);
        TimesLinear(Num(xs[0]), Num(ys[0]), Num(outs[0]));
        assert s[1..] == Scatter(ins[1..], outs[1..]).value;
        assert s[0] == Some(outs[0]);
        assert UndefVals(ins, xs)[1..] == UndefVals(ins[1..], xs[1..]);
        assert UndefVals(ins, ys)[1..] == UndefVals(ins[1..], ys[1..]);
      }
    }
  }

  lemma Pair1(c: Option<Val>, x: Val, y: Val)
    ensures Pair([c], [x], [y]) == if c.Some? then RealProduct(Num(c.value), Num(x) - Num(y)) else 0.0
  {
  }

  lemma Pair2(c0: Option<Val>, c1: Option<Val>, xs: seq<Val>, ys: seq<Val>)
    requires |xs| == |ys| == 2
    ensures Pair([c0, c1], xs, ys)
         == (if c0.Some? then RealProduct(Num(c0.value), Num(xs[0]) - Num(ys[0])) else 0.0)
            + (if c1.Some? then RealProduct(Num(c1.value), Num(xs[1]) - Num(ys[1])) else 0.0)
  {
    assert [c0, c1][1..] == [c1] && xs[1..] == [xs[1]] && ys[1..] == [ys[1]];
    Pair1(c1, xs[1], ys[1]);
  }

  lemma MulAdjoint(z: Val, k: Val, x: Val, y: Val)
    requires MulVals(z, k).Some? && MulVals(k, x).Some? && MulVals(k, y).Some?
    ensures RealProduct(Num(MulVals(z, k).value), Num(x) - Num(y))
         == RealProduct(Num(z), Num(MulVals(k, x).value) - Num(MulVals(k, y).value))
  {
    if z.R? {
      assert (z.r * k.r) * (x.r - y.r) == z.r * (k.r * x.r - k.r * y.r);
    }
  }

  lemma MulCommutes(x: Val, y: Val)
    ensures MulVals(x, y) == MulVals(y, x)
  {
  }

  /** The transpose rules of add, mul and neg. */
  lemma PrimAdjoint(m: Math, p: Prim, cts: seq<Val>, ins: seq<Primal>, xs: seq<Val>, ys: seq<Val>)
    requires Fits(ins, xs) && Fits(ins, ys) && TransposePrim(p, cts, ins).Some?
    requires ImplPrim(m, p, xs).Some? && ImplPrim(m, p, ys).Some?
    ensures Pair(TransposePrim(p, cts, ins).value, xs, ys)
         == Pair(Somes(cts), ImplPrim(m, p, xs).value, ImplPrim(m, p, ys).value)
  {
    hide Pair, RealProduct;
    var z := cts[0];
    assert Somes(cts) == [Some(z)];
    var zs, ws := ImplPrim(m, p, xs).value, ImplPrim(m, p, ys).value;
    Pair1(Some(z), zs[0], ws[0]);
    match p
    case Add =>
      Pair2(Some(z), Some(z), xs, ys);
      assert Num(zs[0]) - Num(ws[0]) == (Num(xs[0]) - Num(ys[0])) + (Num(xs[1]) - Num(ys[1]));
      TimesSum(Num(z), Num(xs[0]) - Num(ys[0]), Num(xs[1]) - Num(ys[1]));
    case Mul =>
      if ins[0].Undef? {
        var k := ins[1].val;
        Pair2(Some(MulVals(z, k).value), None, xs, ys);
        MulCommutes(k, xs[0]);
        MulCommutes(k, ys[0]);
        MulAdjoint(z, k, xs[0], ys[0]);
      } else {
        var k := ins[0].val;
        Pair2(None, Some(MulVals(k, z).value), xs, ys);
        MulCommutes(k, z);
        MulAdjoint(z, k, xs[1], ys[1]);
      }
    case Neg =>
      assert xs == [xs[0]] && ys == [ys[0]];
      Pair1(Some(R(-z.r)), xs[0], ys[0]);
      TimesSum(z.r, xs[0].r - ys[0].r, 0.0);
  }

  lemma {:induction false} FitsReads(primals: Env, xs: seq<Atom>, env: Env)
    requires Extends(primals, env) && AllBound(env.Keys, xs)
    ensures Fits(ReadPrimals(primals, xs), Gets(env, xs))
  {
  }

  /** One transpose rule: the cotangents that it returns for the operands weigh as much as those
      that it is given for the outputs. */
  lemma {:induction false} RuleAdjoint(m: Math, e: Eqn, cts: seq<Val>, ins: seq<Primal>, xs: seq<Val>, ys: seq<Val>)
    requires Fits(ins, xs) && Fits(ins, ys) && TransposeRule(e, cts, ins).Some?
    requires AbstractEval(e, TypesOf(xs)).Some? && TypesOf(ys) == TypesOf(xs)
    requires Bind(m, e, xs).Some? && Bind(m, e, ys).Some?
    ensures Pair(TransposeRule(e, cts, ins).value, xs, ys)
         == Pair(Somes(cts), Bind(m, e, xs).value, Bind(m, e, ys).value)
    decreases e, 0
  {
    hide Pair, Dot, Scatter, UndefVals, Typecheck, Transpose, Eval, TransposePrim;
    match e
    case PrimEqn(p, _, _) =>
      PrimAdjoint(m, p, cts, ins, xs, ys);
    case CallEqn(body, _, _) =>
      BodyAdjoint(m, body, cts, ins, xs, ys);
    case CondEqn(onTrue, onFalse, _, _) =>
      assert Fits(ins[1..], xs[1..]) && Fits(ins[1..], ys[1..]);
      assert TypesOf(xs)[1..] == TypesOf(xs[1..]) && TypesOf(ys)[1..] == TypesOf(ys[1..]);
      assert xs[0] == ys[0] == ins[0].val;
      var branch := if Truthy(xs[0]) then onTrue else onFalse;
      BodyAdjoint(m, branch, cts, ins[1..], xs[1..], ys[1..]);
      var outs := Transpose(branch, ins[1..], cts).value;
      PairSkip(Scatter(ins[1..], outs).value, xs, ys);
  }

  lemma PairSkip(cts: seq<Option<Val>>, xs: seq<Val>, ys: seq<Val>)
    requires |xs| == |ys| > 0
    ensures Pair([None] + cts, xs, ys) == Pair(cts, xs[1..], ys[1..])
  {
  }

  lemma {:induction false} BodyAdjoint(m: Math, j: Jaxpr, cts: seq<Val>, ins: seq<Primal>, xs: seq<Val>, ys: seq<Val>)
    requires Fits(ins, xs) && Fits(ins, ys) && Typecheck(j).Some?
    requires TypesOf(xs) == Typecheck(j).value.inTypes == TypesOf(ys)
    requires Transpose(j, ins, cts).Some? && Scatter(ins, Transpose(j, ins, cts).value).Some?
    ensures Eval(m, j, xs).Some? && Eval(m, j, ys).Some?
    ensures Pair(Scatter(ins, Transpose(j, ins, cts).value).value, xs, ys)
         == Pair(Somes(cts), Eval(m, j, xs).value, Eval(m, j, ys).value)
    decreases j, 2
  {
    hide Pair, Dot, Scatter, UndefVals, Typecheck, Transpose, Eval;
    TypecheckTypes(j);
    EvalSound(m, j, xs);
    EvalSound(m, j, ys);
    TransposeAdjoint(m, j, ins, cts, xs, ys);
    ScatterPair(ins, Transpose(j, ins, cts).value, xs, ys);
    var us, ws := Eval(m, j, xs).value, Eval(m, j, ys).value;
    assert |us| == |TypesOf(us)| == |TypesOf(ws)| == |ws|;
    DotPair(cts, us, ws);
  }

  lemma {:induction false} EqnAdjoint(m: Math, e: Eqn, bound: set<Var>, primals: Env, ct: CtEnv, ea: Env, eb: Env)
    requires TypecheckEqn(bound, e).Some? && TransposeEqn(e, primals, ct).Some?
    requires WellTyped(ea) && WellTyped(eb) && Extends(primals, ea) && Extends(primals, eb)
    requires Sat(m, e, ea) && Sat(m, e, eb)
    requires ct.Keys <= TypecheckEqn(bound, e).value
    ensures TransposeEqn(e, primals, ct).value.Keys <= bound
    ensures Weigh(TransposeEqn(e, primals, ct).value, ea, eb) == Weigh(ct, ea, eb)
    decreases e, 1
  {
    hide Pair, Weigh, TransposeRule, Bind, AbstractEval, ReadCts;
    var (cts, ct1) := ReadCts(ct, e.outs);
    var ins := ReadPrimals(primals, e.inputs);
    var xs, ys := Gets(ea, e.inputs), Gets(eb, e.inputs);
    ReadCtsWeigh(ct, e.outs, ea, eb);
    FitsReads(primals, e.inputs, ea);
    FitsReads(primals, e.inputs, eb);
    GetsTyped(ea, e.inputs);
    GetsTyped(eb, e.inputs);
    RuleAdjoint(m, e, cts, ins, xs, ys);
    WriteCtsWeigh(ct1, e.inputs, TransposeRule(e, cts, ins).value, ea, eb);
    forall v | V(v) in e.inputs ensures v in bound {
      assert Bound(bound, V(v));
    }
  }

  /** The loop invariant of eval_jaxpr_transposed: going back over the equations keeps the weight
      of the cotangent environment, and leaves cotangents only of variables bound before them. */
  lemma {:induction false} EqnsAdjoint(m: Math, eqns: seq<Eqn>, bound: set<Var>, primals: Env, ct: CtEnv, ea: Env,
                                       eb: Env)
    requires TypecheckEqns(bound, eqns).Some? && TransposeEqns(eqns, primals, ct).Some?
    requires WellTyped(ea) && WellTyped(eb) && Extends(primals, ea) && Extends(primals, eb)
    requires SatAll(m, eqns, ea) && SatAll(m, eqns, eb)
    requires ct.Keys <= TypecheckEqns(bound, eqns).value
    ensures TransposeEqns(eqns, primals, ct).value.Keys <= bound
    ensures Weigh(TransposeEqns(eqns, primals, ct).value, ea, eb) == Weigh(ct, ea, eb)
    decreases eqns, 0
  {
    hide Weigh, TransposeEqn, TypecheckEqn;
    if eqns != [] {
      EqnsAdjoint(m, eqns[1..], TypecheckEqn(bound, eqns[0]).value, primals, ct, ea, eb);
      assert Sat(m, eqns[0], ea) && Sat(m, eqns[0], eb);
      EqnAdjoint(m, eqns[0], bound, primals, TransposeEqns(eqns[1..], primals, ct).value, ea, eb);
    }
  }

  lemma {:induction false} WritePrimalsSpec(primals: Env, vs: seq<Var>, args: seq<Primal>, xs: seq<Val>, env: Env)
    requires Fits(args, xs) && |vs| == |args| && Extends(primals, env)
    requires AllBound(env.Keys, Atoms(vs)) && Gets(env, Atoms(vs)) == xs
    ensures Extends(WritePrimals(primals, vs, args), env)
    decreases vs
  {
    if vs != [] {
      GetsAtomsAt(env, vs, 0);
      assert Atoms(vs)[1..] == Atoms(vs[1..]);
      assert AllBound(env.Keys, Atoms(vs)[1..]);
      assert Gets(env, Atoms(vs))[1..] == Gets(env, Atoms(vs[1..]));
      var primals1 := if args[0].Known? then primals[vs[0] := args[0].val] else primals;
      WritePrimalsSpec(primals1, vs[1..], args[1..], xs[1..], env);
    }
  }

  lemma DotCons(c: Val, cts: seq<Val>, x: Val, xs: seq<Val>, y: Val, ys: seq<Val>)
    ensures Dot([c] + cts, [x] + xs) - Dot([c] + cts, [y] + ys)
         == RealProduct(Num(c), Num(x) - Num(y)) + (Dot(cts, xs) - Dot(cts, ys))
  {
    DotHead(c, cts, x, xs);
    DotHead(c, cts, y, ys);
    hide Dot, RealProduct;
    assert RealProduct(Num(c), Num(x) - Num(y)) == RealProduct(Num(c), Num(x)) - RealProduct(Num(c), Num(y)) by {
      TimesLinear(Num(x), Num(y), Num(c));
    }
  }

  lemma DotHead(c: Val, cts: seq<Val>, x: Val, xs: seq<Val>)
    ensures Dot([c] + cts, [x] + xs) == RealProduct(Num(c), Num(x)) + Dot(cts, xs)
  {
    hide RealProduct;
    assert ([c] + cts)[1..] == cts && ([x] + xs)[1..] == xs;
  }

  lemma UndefValsStep(args: seq<Primal>, xs: seq<Val>)
    requires |args| == |xs| > 0
    ensures UndefVals(args, xs) ==
            if args[0].Undef? then [xs[0]] + UndefVals(args[1..], xs[1..]) else UndefVals(args[1..], xs[1..])
  {
  }

  /** `env` gives the variables `vs` the values `xs`. */
  ghost predicate Holds(env: Env, vs: seq<Var>, xs: seq<Val>) {
    && |vs| == |xs|
    && forall i :: 0 <= i < |vs| ==> vs[i] in env && env[vs[i]] == xs[i]
  }

  lemma BindersHold(env: Env, vs: seq<Var>, xs: seq<Val>)
    requires AllBound(env.Keys, Atoms(vs)) && Gets(env, Atoms(vs)) == xs
    ensures Holds(env, vs, xs)
  {
    forall i | 0 <= i < |vs| ensures vs[i] in env && env[vs[i]] == xs[i] {
      GetsAtomsAt(env, vs, i);
    }
  }

  lemma RestHolds(env: Env, vs: seq<Var>, args: seq<Primal>, xs: seq<Val>)
    requires |vs| == |args| > 0 && Fits(args, xs) && Holds(env, vs, xs)
    ensures xs != [] && vs[0] in env && env[vs[0]] == xs[0] && (args[0].Known? ==> args[0].val == xs[0])
    ensures Fits(args[1..], xs[1..]) && Holds(env, vs[1..], xs[1..])
  {
  }

  lemma UndefBindersStep(vs: seq<Var>, args: seq<Primal>)
    requires |vs| == |args| > 0
    ensures UndefBinders(vs, args)
         == if args[0].Undef? then [vs[0]] + UndefBinders(vs[1..], args[1..]) else UndefBinders(vs[1..], args[1..])
  {
  }

  /** What is left of the weight at the end are the cotangents of the undefined inputs, because
      the known ones do not change. */
  lemma {:induction false} UndefWeigh(ct: CtEnv, vs: seq<Var>, args: seq<Primal>, xs: seq<Val>, ys: seq<Val>, ea: Env,
                                      eb: Env)
    requires Fits(args, xs) && Fits(args, ys) && |vs| == |args| && Distinct(vs)
    requires Holds(ea, vs, xs) && Holds(eb, vs, ys)
    requires ct.Keys <= ToSet(vs)
    ensures Weigh(ct, ea, eb)
         == Dot(ReadCts(ct, UndefBinders(vs, args)).0, UndefVals(args, xs))
            - Dot(ReadCts(ct, UndefBinders(vs, args)).0, UndefVals(args, ys))
    decreases vs
  {
    hide RealProduct, UndefVals, Weigh, Dot, ReadCts;
    if vs == [] {
      assert ct.Keys == {};
      assert ct == map[];
      EmptyWeigh(ea, eb);
      NoUndef(ReadCts(ct, UndefBinders(vs, args)).0);
    } else {
      RestKeys(ct, vs);
      RestHolds(ea, vs, args, xs);
      RestHolds(eb, vs, args, ys);
      UndefBindersStep(vs, args);
      hide Fits, Holds, UndefBinders, Distinct;
      UndefWeigh(ct - {vs[0]}, vs[1..], args[1..], xs[1..], ys[1..], ea, eb);
      WeighRemove(ct, vs[0], ea, eb);
      var tail := UndefBinders(vs[1..], args[1..]);
      UndefValsStep(args, xs);
      UndefValsStep(args, ys);
      if args[0].Undef? {
        UndefStep(ct, vs[0], tail, xs[0], UndefVals(args[1..], xs[1..]), ys[0], UndefVals(args[1..], ys[1..]));
      } else {
        UnreadCts(ct, vs[0], tail);
        TimesLinear(if vs[0] in ct then Num(ct[vs[0]]) else 0.0, 0.0, 0.0);
      }
    }
  }

  lemma RestKeys(ct: CtEnv, vs: seq<Var>)
    requires |vs| > 0 && Distinct(vs) && ct.Keys <= ToSet(vs)
    ensures (ct - {vs[0]}).Keys <= ToSet(vs[1..]) && vs[0] !in vs[1..] && Distinct(vs[1..])
  {
  }

  lemma UndefStep(ct: CtEnv, v: Var, tail: seq<Var>, x: Val, xs: seq<Val>, y: Val, ys: seq<Val>)
    ensures Dot(ReadCts(ct, [v] + tail).0, [x] + xs) - Dot(ReadCts(ct, [v] + tail).0, [y] + ys)
         == (if v in ct then RealProduct(Num(ct[v]), Num(x) - Num(y)) else 0.0)
            + (Dot(ReadCts(ct - {v}, tail).0, xs) - Dot(ReadCts(ct - {v}, tail).0, ys))
  {
    hide RealProduct, Dot, ReadCts;
    var c := if v in ct then ct[v] else Zero(v.aval);
    ReadCtsCons(ct, v, tail);
    DotCons(c, ReadCts(ct - {v}, tail).0, x, xs, y, ys);
    TimesLinear(Num(x) - Num(y), 0.0, 0.0);
  }

  lemma NoUndef(res: seq<Val>)
    ensures Dot(res, UndefVals([], [])) == 0.0
  {
  }

  lemma ReadCtsCons(ct: CtEnv, v: Var, vs: seq<Var>)
    ensures ReadCts(ct, [v] + vs).0
         == [if v in ct then ct[v] else Zero(v.aval)] + ReadCts(ct - {v}, vs).0
  {
  }

  lemma {:induction false} UnreadCts(ct: CtEnv, v: Var, vs: seq<Var>)
    requires v !in vs
    ensures ReadCts(ct - {v}, vs).0 == ReadCts(ct, vs).0
    decreases vs
  {
    if vs != [] {
      assert ct - {v} - {vs[0]} == ct - {vs[0]} - {v};
      UnreadCts(ct - {vs[0]}, v, vs[1..]);
    }
  }

  /** The main theorem of transposition. Whenever eval_jaxpr_transposed returns, what it returns is
      the adjoint of the jaxpr as a function of its undefined inputs: for any two choices `xs` and
      `ys` of those inputs, the cotangents weigh the change of the outputs exactly as the result
      weighs the change of the inputs. Shared variables, repeated outputs, calls and conditionals
      are all allowed, and the part of the program that the linear inputs do not reach cancels. */
  lemma {:induction false} TransposeAdjoint(m: Math, j: Jaxpr, args: seq<Primal>, cts: seq<Val>, xs: seq<Val>,
                                            ys: seq<Val>)
    requires Typecheck(j).Some? && Transpose(j, args, cts).Some?
    requires Fits(args, xs) && Fits(args, ys)
    requires TypesOf(xs) == Avals(j.binders) == TypesOf(ys)
    ensures Eval(m, j, xs).Some? && Eval(m, j, ys).Some?
    ensures Dot(cts, Eval(m, j, xs).value) - Dot(cts, Eval(m, j, ys).value)
         == Dot(Transpose(j, args, cts).value, UndefVals(args, xs))
            - Dot(Transpose(j, args, cts).value, UndefVals(args, ys))
    decreases j, 1
  {
    hide Weigh, Dot, Pair, Eval, FinalEnv, TypecheckEqns, ReadCts, UndefVals;
    TypecheckTypes(j);
    EvalSound(m, j, xs);
    EvalSound(m, j, ys);
    FinalKeys(m, j, xs);
    FinalKeys(m, j, ys);
    var ea, eb := FinalEnv(m, j, xs).value, FinalEnv(m, j, ys).value;
    var bound := TypecheckStart(j);
    var primals := WritePrimals(map[], j.binders, args);
    WritePrimalsSpec(map[], j.binders, args, xs, ea);
    WritePrimalsSpec(map[], j.binders, args, ys, eb);
    WriteCtsWeigh(map[], j.outs, Somes(cts), ea, eb);
    var ct0 := WriteCts(map[], j.outs, Somes(cts)).value;
    forall v | v in ct0 ensures v in TypecheckEqns(bound, j.eqns).value {
      assert Bound(ea.Keys, V(v));
    }
    EqnsAdjoint(m, j.eqns, bound, primals, ct0, ea, eb);
    var ct := TransposeEqns(j.eqns, primals, ct0).value;
    BindersHold(ea, j.binders, xs);
    BindersHold(eb, j.binders, ys);
    UndefWeigh(ct, j.binders, args, xs, ys, ea, eb);
    DotPair(cts, Gets(ea, j.outs), Gets(eb, j.outs));
    EmptyWeigh(ea, eb);
  }

  lemma EmptyWeigh(ea: Env, eb: Env)
    ensures Weigh(map[], ea, eb) == 0.0
  {
  }
}
