/** ParseArguments of jaxlib/jax_jit.cc: what a call of a jitted function is keyed on. */
module JitArguments {
  import opened Lists

  /** An argument: a pytree. The kind of a node stands for its type and its metadata. */
  datatype Tree = Leaf(id: nat) | Node(kind: nat, children: seq<Tree>)

  datatype TreeDef = LeafDef | NodeDef(kind: nat, children: seq<TreeDef>)

  datatype Call = Call(positional: seq<Tree>, keywords: seq<(string, Tree)>)

  /** ArgumentSignature */
  datatype Signature = Signature(
    dynamicDefs: seq<TreeDef>, dynamicNames: seq<string>, staticArgs: seq<Tree>, staticNames: seq<string>)

  // ---------- flattening ----------

  function Def(t: Tree): TreeDef {
    match t
    case Leaf(_) => LeafDef
    case Node(kind, children) => NodeDef(kind, Defs(children))
  }

  function Defs(ts: seq<Tree>): (r: seq<TreeDef>)
    ensures |r| == |ts|
  {
    if ts == [] then [] else [Def(ts[0])] + Defs(ts[1..])
  }

  function Leaves(t: Tree): seq<nat> {
    match t
    case Leaf(id) => [id]
    case Node(_, children) => AllLeaves(children)
  }

  function AllLeaves(ts: seq<Tree>): seq<nat> {
    if ts == [] then [] else Leaves(ts[0]) + AllLeaves(ts[1..])
  }

  /** The structure says how many leaves belong to a tree, and where they go. */
  lemma {:induction false} FlattenUnique(t: Tree, u: Tree, p: seq<nat>, q: seq<nat>)
    requires Def(t) == Def(u) && Leaves(t) + p == Leaves(u) + q
    ensures t == u && p == q
    decreases t
  {
    match t
    case Leaf(id) =>
      assert (Leaves(t) + p)[0] == id && (Leaves(u) + q)[0] == u.id;
      assert (Leaves(t) + p)[1..] == p && (Leaves(u) + q)[1..] == q;
    case Node(_, children) =>
      FlattenAllUnique(children, u.children, p, q);
  }

  lemma {:induction false} FlattenAllUnique(ts: seq<Tree>, us: seq<Tree>, p: seq<nat>, q: seq<nat>)
    requires Defs(ts) == Defs(us) && AllLeaves(ts) + p == AllLeaves(us) + q
    ensures ts == us && p == q
    decreases ts
  {
    assert |ts| == |Defs(ts)| == |us|;
    if ts == [] {
      assert AllLeaves(ts) + p == p && AllLeaves(us) + q == q;
    } else {
      assert Defs(ts)[0] == Def(ts[0]) && Defs(us)[0] == Def(us[0]);
      assert Defs(ts)[1..] == Defs(ts[1..]) && Defs(us)[1..] == Defs(us[1..]);
      ConcatAssoc(Leaves(ts[0]), AllLeaves(ts[1..]), p);
      ConcatAssoc(Leaves(us[0]), AllLeaves(us[1..]), q);
      FlattenUnique(ts[0], us[0], AllLeaves(ts[1..]) + p, AllLeaves(us[1..]) + q);
      FlattenAllUnique(ts[1..], us[1..], p, q);
      assert ts == [ts[0]] + ts[1..] && us == [us[0]] + us[1..];
    }
  }

  lemma {:induction false} FlattenAppend(ts: seq<Tree>, us: seq<Tree>)
    ensures Defs(ts + us) == Defs(ts) + Defs(us)
    ensures AllLeaves(ts + us) == AllLeaves(ts) + AllLeaves(us)
  {
    if ts == [] {
      assert ts + us == us;
    } else {
      FlattenAppend(ts[1..], us);
      assert (ts + us)[1..] == ts[1..] + us;
      ConcatAssoc([Def(ts[0])], Defs(ts[1..]), Defs(us));
      ConcatAssoc(Leaves(ts[0]), AllLeaves(ts[1..]), AllLeaves(us));
    }
  }

  lemma FlattenOne(t: Tree)
    ensures Defs([t]) == [Def(t)] && AllLeaves([t]) == Leaves(t)
  {
  }

  // ---------- sorting the keywords by name ----------

  /** The order of strings. */
  predicate Before(a: string, b: string) {
    if b == [] then false
    else if a == [] then true
    else a[0] < b[0] || (a[0] == b[0] && Before(a[1..], b[1..]))
  }

  /** The order of a dictionary: at the first position where the strings differ, the first string ends or has
      the smaller character. */
  lemma {:induction false} DictionaryOrder(a: string, b: string)
    ensures Before(a, b) <==> exists k: nat :: FirstDifference(a, b, k)
  {
    if a != [] && b != [] && a[0] == b[0] {
      DictionaryOrder(a[1..], b[1..]);
      if k: nat :| FirstDifference(a[1..], b[1..], k) {
        assert a[..k + 1] == [a[0]] + a[1..][..k] && b[..k + 1] == [b[0]] + b[1..][..k];
        assert FirstDifference(a, b, k + 1);
      }
      if k: nat :| FirstDifference(a, b, k) {
        assert a[..k][0] == b[..k][0] || k == 0;
        assert a[1..][..k - 1] == a[..k][1..] && b[1..][..k - 1] == b[..k][1..];
        assert FirstDifference(a[1..], b[1..], k - 1);
      }
    } else if b != [] {
      if a == [] || a[0] < b[0] {
        assert FirstDifference(a, b, 0);
      }
    }
  }

  ghost predicate FirstDifference(a: string, b: string, k: nat) {
    k <= |a| && k < |b| && a[..k] == b[..k] && (k == |a| || a[k] < b[k])
  }

  lemma {:induction false} BeforeTotal(a: string, b: string)
    ensures a == b || Before(a, b) || Before(b, a)
    ensures !(Before(a, b) && Before(b, a)) && !Before(a, a)
  {
    if a != [] && b != [] {
      BeforeTotal(a[1..], b[1..]);
      assert a == [a[0]] + a[1..] && b == [b[0]] + b[1..];
    }
    if a != [] {
      BeforeTotal(a[1..], a[1..]);
    }
  }

  lemma {:induction false} BeforeTransitive(a: string, b: string, c: string)
    requires Before(a, b) && Before(b, c)
    ensures Before(a, c)
  {
    if a != [] && a[0] == b[0] == c[0] {
      BeforeTransitive(a[1..], b[1..], c[1..]);
    }
  }

  function Names(kws: seq<(string, Tree)>): (r: seq<string>)
    ensures |r| == |kws| && forall i :: 0 <= i < |kws| ==> r[i] == kws[i].0
  {
    seq(|kws|, i requires 0 <= i < |kws| => kws[i].0)
  }

  function Values(kws: seq<(string, Tree)>): (r: seq<Tree>)
    ensures |r| == |kws| && forall i :: 0 <= i < |kws| ==> r[i] == kws[i].1
  {
    seq(|kws|, i requires 0 <= i < |kws| => kws[i].1)
  }

  ghost predicate Ascending(names: seq<string>) {
    forall i, j :: 0 <= i < j < |names| ==> Before(names[i], names[j])
  }

  function InsertByName(kw: (string, Tree), sorted: seq<(string, Tree)>): seq<(string, Tree)> {
    if sorted == [] || Before(kw.0, sorted[0].0) then [kw] + sorted
    else [sorted[0]] + InsertByName(kw, sorted[1..])
  }

  /** std::sort by name */
  function SortByName(kws: seq<(string, Tree)>): seq<(string, Tree)> {
    if kws == [] then [] else InsertByName(kws[0], SortByName(kws[1..]))
  }

  lemma AscendingCons(x: string, xs: seq<string>)
    ensures Ascending([x] + xs) <==> Ascending(xs) && forall y :: y in xs ==> Before(x, y)
  {
    hide Before;
    var r := [x] + xs;
    if Ascending(r) {
      forall y | y in xs ensures Before(x, y) {
        var k :| 0 <= k < |xs| && xs[k] == y;
        assert Before(r[0], r[k + 1]);
      }
      forall i, j | 0 <= i < j < |xs| ensures Before(xs[i], xs[j]) {
        assert Before(r[i + 1], r[j + 1]);
      }
    }
    if Ascending(xs) && forall y :: y in xs ==> Before(x, y) {
      forall i, j | 0 <= i < j < |r| ensures Before(r[i], r[j]) {
        assert r[j] == xs[j - 1];
      }
    }
  }

  lemma NamesCons(kw: (string, Tree), kws: seq<(string, Tree)>)
    ensures Names([kw] + kws) == [kw.0] + Names(kws)
  {
  }

  lemma {:induction false} InsertMembers(kw: (string, Tree), sorted: seq<(string, Tree)>)
    ensures forall x :: x in InsertByName(kw, sorted) <==> x == kw || x in sorted
    ensures forall name :: name in Names(InsertByName(kw, sorted)) <==> name == kw.0 || name in Names(sorted)
  {
    hide Before;
    if sorted == [] || Before(kw.0, sorted[0].0) {
      NamesCons(kw, sorted);
    } else {
      var rest := sorted[1..];
      assert sorted == [sorted[0]] + rest;
      InsertMembers(kw, rest);
      NamesCons(sorted[0], rest);
      NamesCons(sorted[0], InsertByName(kw, rest));
    }
  }

  lemma {:induction false} InsertSorts(kw: (string, Tree), sorted: seq<(string, Tree)>)
    requires Ascending(Names(sorted)) && kw.0 !in Names(sorted)
    ensures Ascending(Names(InsertByName(kw, sorted)))
  {
    hide Ascending, Before, Names;
    if sorted == [] {
      NamesCons(kw, sorted);
      assert Ascending(Names(sorted)) && Names(sorted) == [];
      AscendingCons(kw.0, Names(sorted));
    } else {
      var rest := sorted[1..];
      assert sorted == [sorted[0]] + rest;
      NamesCons(sorted[0], rest);
      AscendingCons(sorted[0].0, Names(rest));
      BeforeTotal(kw.0, sorted[0].0);
      if Before(kw.0, sorted[0].0) {
        NamesCons(kw, sorted);
        forall y | y in Names(sorted) ensures Before(kw.0, y) {
          if y != sorted[0].0 {
            BeforeTransitive(kw.0, sorted[0].0, y);
          }
        }
        AscendingCons(kw.0, Names(sorted));
      } else {
        InsertSorts(kw, rest);
        InsertMembers(kw, rest);
        NamesCons(sorted[0], InsertByName(kw, rest));
        AscendingCons(sorted[0].0, Names(InsertByName(kw, rest)));
      }
    }
  }

  lemma {:induction false} SortSorts(kws: seq<(string, Tree)>)
    requires Distinct(Names(kws))
    ensures Ascending(Names(SortByName(kws)))
    ensures forall x :: x in SortByName(kws) <==> x in kws
  {
    if kws != [] {
      var rest := kws[1..];
      assert Names(rest) == Names(kws)[1..];
      SortSorts(rest);
      forall i | 0 <= i < |SortByName(rest)| ensures SortByName(rest)[i].0 != kws[0].0 {
        assert SortByName(rest)[i] in rest;
        var k :| 0 <= k < |rest| && rest[k] == SortByName(rest)[i];
        assert Names(kws)[0] != Names(kws)[k + 1];
      }
      InsertSorts(kws[0], SortByName(rest));
      InsertMembers(kws[0], SortByName(rest));
      assert kws == [kws[0]] + rest;
    }
  }

  lemma {:induction false} AscendingUnique(xs: seq<string>, ys: seq<string>)
    requires Ascending(xs) && Ascending(ys) && forall x :: x in xs <==> x in ys
    ensures xs == ys
  {
    HeadIn(xs);
    HeadIn(ys);
    if xs != [] {
      assert xs[0] in ys;
      HeadFirst(xs, ys[0]);
      HeadFirst(ys, xs[0]);
      BeforeTotal(xs[0], ys[0]);
      forall x ensures x in xs[1..] <==> x in ys[1..] {
        TailMember(xs, x);
        TailMember(ys, x);
      }
      AscendingUnique(xs[1..], ys[1..]);
      assert xs == [xs[0]] + xs[1..] && ys == [ys[0]] + ys[1..];
    }
  }

  lemma HeadIn(xs: seq<string>)
    ensures xs != [] ==> xs[0] in xs
  {
  }

  lemma HeadFirst(xs: seq<string>, x: string)
    requires Ascending(xs) && x in xs
    ensures x == xs[0] || Before(xs[0], x)
  {
  }

  lemma TailMember(xs: seq<string>, x: string)
    requires Ascending(xs) && xs != []
    ensures x in xs[1..] <==> x in xs && x != xs[0]
  {
    if x in xs[1..] {
      var i :| 0 <= i < |xs[1..]| && xs[1..][i] == x;
      assert Before(xs[0], xs[i + 1]);
      BeforeTotal(x, x);
    }
    assert xs == [xs[0]] + xs[1..];
  }

  // ---------- the signature ----------

  /** Whether positional argument `i` of `n` is static; negative numbers count from the end. */
  predicate IsStatic(argnums: seq<int>, i: nat, n: nat) {
    exists t :: t in argnums && i == if t >= 0 then t else t + n
  }

  function PositionalFlags(argnums: seq<int>, n: nat): (r: seq<bool>)
    ensures |r| == n && forall i :: 0 <= i < n ==> r[i] == IsStatic(argnums, i, n)
  {
    seq(n, i requires 0 <= i < n => IsStatic(argnums, i, n))
  }

  function NameFlags(argnames: seq<string>, names: seq<string>): (r: seq<bool>)
    ensures |r| == |names| && forall i :: 0 <= i < |names| ==> r[i] == (names[i] in argnames)
  {
    seq(|names|, i requires 0 <= i < |names| => names[i] in argnames)
  }

  function DynamicTrees(call: Call, argnums: seq<int>, argnames: seq<string>): seq<Tree> {
    var kws := SortByName(call.keywords);
    Select(PositionalFlags(argnums, |call.positional|), false, call.positional)
      + Select(NameFlags(argnames, Names(kws)), false, Values(kws))
  }

  function StaticTrees(call: Call, argnums: seq<int>, argnames: seq<string>): seq<Tree> {
    var kws := SortByName(call.keywords);
    Select(PositionalFlags(argnums, |call.positional|), true, call.positional)
      + Select(NameFlags(argnames, Names(kws)), true, Values(kws))
  }

  function SortedNames(call: Call, argnames: seq<string>, isStatic: bool): seq<string> {
    var names := Names(SortByName(call.keywords));
    Select(NameFlags(argnames, names), isStatic, names)
  }

  function Parsed(call: Call, argnums: seq<int>, argnames: seq<string>): (Signature, seq<nat>) {
    var dynamic := DynamicTrees(call, argnums, argnames);
    (Signature(Defs(dynamic), SortedNames(call, argnames, false),
               StaticTrees(call, argnums, argnames), SortedNames(call, argnames, true)),
     AllLeaves(dynamic))
  }

  /** One more element of a partition. */
  lemma SelectNext<T>(bs: seq<bool>, b: bool, xs: seq<T>, i: nat)
    requires |bs| == |xs| && i < |xs|
    ensures Select(bs[..i + 1], b, xs[..i + 1]) == Select(bs[..i], b, xs[..i]) + if bs[i] == b then [xs[i]] else []
  {
    assert bs[..i + 1] == bs[..i] + [bs[i]] && xs[..i + 1] == xs[..i] + [xs[i]];
    SelectAppend(bs[..i], b, xs[..i], [bs[i]], [xs[i]]);
    assert Select([], b, xs[..0]) == [];
    assert [bs[i]][1..] == [] && [xs[i]][1..] == xs[..0];
  }

  lemma FlattenNext(ts: seq<Tree>, t: Tree)
    ensures Defs(ts + [t]) == Defs(ts) + [Def(t)] && AllLeaves(ts + [t]) == AllLeaves(ts) + Leaves(t)
  {
    FlattenAppend(ts, [t]);
    FlattenOne(t);
  }

  /** One more argument: its leaves are added if it is dynamic, it is kept if it is static. */
  lemma PartitionNext(statics: seq<Tree>, dynamics: seq<Tree>, flags: seq<bool>, xs: seq<Tree>, i: nat)
    requires |flags| == |xs| && i < |xs|
    ensures statics + Select(flags[..i + 1], true, xs[..i + 1])
         == statics + Select(flags[..i], true, xs[..i]) + if flags[i] then [xs[i]] else []
    ensures Defs(dynamics + Select(flags[..i + 1], false, xs[..i + 1]))
         == Defs(dynamics + Select(flags[..i], false, xs[..i])) + if flags[i] then [] else [Def(xs[i])]
    ensures AllLeaves(dynamics + Select(flags[..i + 1], false, xs[..i + 1]))
         == AllLeaves(dynamics + Select(flags[..i], false, xs[..i])) + if flags[i] then [] else Leaves(xs[i])
  {
    SelectNext(flags, true, xs, i);
    SelectNext(flags, false, xs, i);
    hide Select, Defs, AllLeaves, Leaves;
    var t, d := Select(flags[..i], true, xs[..i]), Select(flags[..i], false, xs[..i]);
    ConcatAssoc(statics, t, if flags[i] then [xs[i]] else []);
    ConcatAssoc(dynamics, d, [xs[i]]);
    FlattenNext(dynamics + d, xs[i]);
    assert d + [] == d && Defs(dynamics + d) + [] == Defs(dynamics + d)
           && AllLeaves(dynamics + d) + [] == AllLeaves(dynamics + d);
  }

  /** Before the first argument. */
  lemma PartitionStart(statics: seq<Tree>, dynamics: seq<Tree>, flags: seq<bool>, xs: seq<Tree>)
    requires |flags| == |xs|
    ensures Select(flags[..0], true, xs[..0]) == [] && statics + Select(flags[..0], true, xs[..0]) == statics
    ensures dynamics + Select(flags[..0], false, xs[..0]) == dynamics
  {
  }

  /** After the last one. */
  lemma PartitionEnd<T>(flags: seq<bool>, xs: seq<T>)
    requires |flags| == |xs|
    ensures flags[..|xs|] == flags && xs[..|xs|] == xs
  {
  }

  /** Without static positions. */
  lemma NoneStatic(positional: seq<Tree>)
    ensures Select(PositionalFlags([], |positional|), true, positional) == []
    ensures Select(PositionalFlags([], |positional|), false, positional) == positional
  {
    assert PositionalFlags([], |positional|) == Repeat(false, |positional|);
    SelectRepeat(false, true, positional);
    SelectRepeat(false, false, positional);
  }

  /** The loop without static positions. */
  method ParseDynamic(positional: seq<Tree>) returns (defs: seq<TreeDef>, flat: seq<nat>)
    ensures defs == Defs(positional) && flat == AllLeaves(positional)
  {
    defs, flat := [], [];
    for i := 0 to |positional|
      invariant defs == Defs(positional[..i]) && flat == AllLeaves(positional[..i])
    {
      hide Def, Defs, AllLeaves, Leaves;
      defs, flat := defs + [Def(positional[i])], flat + Leaves(positional[i]);
      FlattenNext(positional[..i], positional[i]);
      assert positional[..i + 1] == positional[..i] + [positional[i]];
    }
    assert positional[..|positional|] == positional;
  }

  lemma StaticsNext(flags: seq<bool>, xs: seq<Tree>, i: nat)
    requires |flags| == |xs| && i < |xs|
    ensures Select(flags[..i + 1], true, xs[..i + 1])
         == Select(flags[..i], true, xs[..i]) + if flags[i] then [xs[i]] else []
    ensures Defs(Select(flags[..i + 1], false, xs[..i + 1]))
         == Defs(Select(flags[..i], false, xs[..i])) + if flags[i] then [] else [Def(xs[i])]
    ensures AllLeaves(Select(flags[..i + 1], false, xs[..i + 1]))
         == AllLeaves(Select(flags[..i], false, xs[..i])) + if flags[i] then [] else Leaves(xs[i])
  {
    hide Select, Defs, AllLeaves, Leaves;
    PartitionNext([], [], flags, xs, i);
    forall b, k | 0 <= k <= |xs| ensures [] + Select(flags[..k], b, xs[..k]) == Select(flags[..k], b, xs[..k]) {
    }
  }

  method ParsePositional(positional: seq<Tree>, argnums: seq<int>)
    returns (defs: seq<TreeDef>, statics: seq<Tree>, flat: seq<nat>)
    ensures var flags := PositionalFlags(argnums, |positional|);
            && statics == Select(flags, true, positional)
            && defs == Defs(Select(flags, false, positional)) && flat == AllLeaves(Select(flags, false, positional))
  {
    statics := [];
    if argnums == [] {
      NoneStatic(positional);
      defs, flat := ParseDynamic(positional);
    } else {
      defs, flat := [], [];
      ghost var flags := PositionalFlags(argnums, |positional|);
      for i := 0 to |positional|
        invariant statics == Select(flags[..i], true, positional[..i])
        invariant defs == Defs(Select(flags[..i], false, positional[..i]))
        invariant flat == AllLeaves(Select(flags[..i], false, positional[..i]))
      {
        hide Select, Def, Defs, AllLeaves, Leaves;
        StaticsNext(flags, positional, i);
        if !IsStatic(argnums, i, |positional|) {
          defs, flat := defs + [Def(positional[i])], flat + Leaves(positional[i]);
        } else {
          statics := statics + [positional[i]];
        }
      }
      PartitionEnd(flags, positional);
    }
  }

  /** ParseArguments: the signature and the leaves of the dynamic arguments. */
  method ParseArguments(call: Call, argnums: seq<int>, argnames: seq<string>)
    returns (signature: Signature, flat: seq<nat>)
    ensures (signature, flat) == Parsed(call, argnums, argnames)
  {
    var defs, statics;
    defs, statics, flat := ParsePositional(call.positional, argnums);
    var dynamicNames, staticNames := [], [];
    var kws := SortByName(call.keywords);
    ghost var names, values := Names(kws), Values(kws);
    ghost var flags := NameFlags(argnames, names);
    ghost var before := Select(PositionalFlags(argnums, |call.positional|), false, call.positional);
    ghost var statics0 := statics;
    PartitionStart(statics0, before, flags, values);
    assert Select(flags[..0], true, names[..0]) == [] == Select(flags[..0], false, names[..0]);
    hide Select, Def, Defs, AllLeaves, Leaves, SortByName;
    for i := 0 to |kws|
      invariant dynamicNames == Select(flags[..i], false, names[..i])
      invariant staticNames == Select(flags[..i], true, names[..i])
      invariant statics == statics0 + Select(flags[..i], true, values[..i])
      invariant defs == Defs(before + Select(flags[..i], false, values[..i]))
      invariant flat == AllLeaves(before + Select(flags[..i], false, values[..i]))
    {
      var name, value := kws[i].0, kws[i].1;
      SelectNext(flags, true, names, i);
      SelectNext(flags, false, names, i);
      PartitionNext(statics0, before, flags, values, i);
      if name in argnames {
        staticNames := staticNames + [name];
        statics := statics + [value];
      } else {
        dynamicNames := dynamicNames + [name];
        defs := defs + [Def(value)];
        flat := flat + Leaves(value);
      }
    }
    PartitionEnd(flags, names);
    PartitionEnd(flags, values);
    signature := Signature(defs, dynamicNames, statics, staticNames);
  }

  // ---------- what the signature determines ----------

  ghost predicate EqualAll(eq: (Tree, Tree) -> bool, xs: seq<Tree>, ys: seq<Tree>) {
    |xs| == |ys| && forall i :: 0 <= i < |xs| ==> eq(xs[i], ys[i])
  }

  /** ArgumentSignature::operator==; `eq` stands for the equality of the static arguments. */
  ghost predicate SameSignature(eq: (Tree, Tree) -> bool, s: Signature, t: Signature) {
    && s.dynamicDefs == t.dynamicDefs && s.dynamicNames == t.dynamicNames
    && s.staticNames == t.staticNames && EqualAll(eq, s.staticArgs, t.staticArgs)
  }

  predicate SameArgument(eq: (Tree, Tree) -> bool, isStatic: bool, t: Tree, u: Tree) {
    if isStatic then eq(t, u) else t == u
  }

  /** The keyword arguments as a mapping. */
  function KeywordMap(kws: seq<(string, Tree)>): map<string, Tree> {
    if kws == [] then map[] else KeywordMap(kws[1..])[kws[0].0 := kws[0].1]
  }

  ghost predicate SamePositional(eq: (Tree, Tree) -> bool, argnums: seq<int>, xs: seq<Tree>, ys: seq<Tree>) {
    |xs| == |ys| && forall i :: 0 <= i < |xs| ==> SameArgument(eq, IsStatic(argnums, i, |xs|), xs[i], ys[i])
  }

  ghost predicate SameKeywords(eq: (Tree, Tree) -> bool, argnames: seq<string>, m1: map<string, Tree>,
                               m2: map<string, Tree>) {
    m1.Keys == m2.Keys && forall name :: name in m1 ==> SameArgument(eq, name in argnames, m1[name], m2[name])
  }

  /** Two calls with the same arguments, where static arguments need only be equal. */
  ghost predicate SameCall(eq: (Tree, Tree) -> bool, argnums: seq<int>, argnames: seq<string>, c: Call, d: Call) {
    && SamePositional(eq, argnums, c.positional, d.positional)
    && SameKeywords(eq, argnames, KeywordMap(c.keywords), KeywordMap(d.keywords))
  }

  lemma {:induction false} SelectSizes<S, T>(bs: seq<bool>, xs: seq<S>, ys: seq<T>)
    requires |bs| == |xs| == |ys|
    ensures |Select(bs, true, xs)| == |Select(bs, true, ys)| && |Select(bs, false, xs)| == |Select(bs, false, ys)|
    ensures |Select(bs, true, xs)| + |Select(bs, false, xs)| == |bs|
  {
    if bs != [] {
      SelectSizes(bs[1..], xs[1..], ys[1..]);
    }
  }

  ghost predicate Related(eq: (Tree, Tree) -> bool, bs: seq<bool>, xs: seq<Tree>, ys: seq<Tree>)
    requires |bs| == |xs| == |ys|
  {
    forall i :: 0 <= i < |xs| ==> SameArgument(eq, bs[i], xs[i], ys[i])
  }

  /** The two lists of a partition determine the list. */
  lemma {:induction false} SelectRelated(eq: (Tree, Tree) -> bool, bs: seq<bool>, xs: seq<Tree>, ys: seq<Tree>)
    requires |bs| == |xs| == |ys|
    ensures Related(eq, bs, xs, ys) <==>
              Select(bs, false, xs) == Select(bs, false, ys) && EqualAll(eq, Select(bs, true, xs), Select(bs, true, ys))
  {
    if bs != [] {
      SelectRelated(eq, bs[1..], xs[1..], ys[1..]);
      RelatedCons(eq, bs, xs, ys);
      SelectSizes(bs, xs, ys);
      var f, g := Select(bs, false, xs), Select(bs, false, ys);
      var t, u := Select(bs, true, xs), Select(bs, true, ys);
      if bs[0] {
        EqualCons(eq, xs[0], t[1..], ys[0], u[1..]);
        assert t[1..] == Select(bs[1..], true, xs[1..]) && u[1..] == Select(bs[1..], true, ys[1..]);
        assert f == Select(bs[1..], false, xs[1..]) && g == Select(bs[1..], false, ys[1..]);
        assert t == [xs[0]] + t[1..] && u == [ys[0]] + u[1..];
      } else {
        assert f[0] == xs[0] && g[0] == ys[0] && f[1..] == Select(bs[1..], false, xs[1..])
               && g[1..] == Select(bs[1..], false, ys[1..]);
        assert f == [f[0]] + f[1..] && g == [g[0]] + g[1..];
        assert t == Select(bs[1..], true, xs[1..]) && u == Select(bs[1..], true, ys[1..]);
      }
    }
  }

  lemma RelatedCons(eq: (Tree, Tree) -> bool, bs: seq<bool>, xs: seq<Tree>, ys: seq<Tree>)
    requires |bs| == |xs| == |ys| && bs != []
    ensures Related(eq, bs, xs, ys) <==> SameArgument(eq, bs[0], xs[0], ys[0]) && Related(eq, bs[1..], xs[1..], ys[1..])
  {
  }

  lemma EqualCons(eq: (Tree, Tree) -> bool, x: Tree, xs: seq<Tree>, y: Tree, ys: seq<Tree>)
    ensures EqualAll(eq, [x] + xs, [y] + ys) <==> eq(x, y) && EqualAll(eq, xs, ys)
  {
    if EqualAll(eq, [x] + xs, [y] + ys) {
      assert ([x] + xs)[0] == x && ([y] + ys)[0] == y;
      forall i | 0 <= i < |xs| ensures eq(xs[i], ys[i]) {
        assert ([x] + xs)[i + 1] == xs[i] && ([y] + ys)[i + 1] == ys[i];
      }
    }
  }

  lemma EqualConcat(eq: (Tree, Tree) -> bool, xs: seq<Tree>, ys: seq<Tree>, us: seq<Tree>, vs: seq<Tree>)
    requires |xs| == |us|
    ensures EqualAll(eq, xs + ys, us + vs) <==> EqualAll(eq, xs, us) && EqualAll(eq, ys, vs)
  {
    if EqualAll(eq, xs + ys, us + vs) {
      forall i | 0 <= i < |xs| ensures eq(xs[i], us[i]) {
        assert (xs + ys)[i] == xs[i] && (us + vs)[i] == us[i];
      }
      forall i | 0 <= i < |ys| ensures eq(ys[i], vs[i]) {
        assert (xs + ys)[|xs| + i] == ys[i] && (us + vs)[|xs| + i] == vs[i];
      }
    }
  }

  lemma {:induction false} KeywordMapMembers(kws: seq<(string, Tree)>)
    requires Distinct(Names(kws))
    ensures forall i :: 0 <= i < |kws| ==> kws[i].0 in KeywordMap(kws) && KeywordMap(kws)[kws[i].0] == kws[i].1
    ensures forall name :: name in KeywordMap(kws) <==> name in Names(kws)
  {
    if kws != [] {
      var kw, rest := kws[0], kws[1..];
      assert kws == [kw] + rest;
      NamesCons(kw, rest);
      assert Names(rest) == Names(kws)[1..];
      KeywordMapMembers(rest);
      assert KeywordMap(kws) == KeywordMap(rest)[kw.0 := kw.1];
      hide KeywordMap, Names;
      forall i | 0 < i < |kws| ensures kws[i].0 != kw.0 && kws[i] == rest[i - 1] {
        assert Names(kws)[0] != Names(kws)[i];
      }
    }
  }

  /** The sorted keywords hold what the mapping holds. */
  lemma SortedMap(kws: seq<(string, Tree)>)
    requires Distinct(Names(kws))
    ensures Ascending(Names(SortByName(kws)))
    ensures forall name :: name in Names(SortByName(kws)) <==> name in KeywordMap(kws)
    ensures forall x :: x in SortByName(kws) ==> x.0 in KeywordMap(kws) && KeywordMap(kws)[x.0] == x.1
  {
    SortSorts(kws);
    KeywordMapMembers(kws);
    var sorted := SortByName(kws);
    forall x | x in sorted ensures x.0 in KeywordMap(kws) && KeywordMap(kws)[x.0] == x.1 {
      var k :| 0 <= k < |kws| && kws[k] == x;
    }
    forall name ensures name in Names(sorted) <==> name in Names(kws) {
      if name in Names(sorted) {
        var i :| 0 <= i < |sorted| && sorted[i].0 == name;
        assert sorted[i] in kws;
        var k :| 0 <= k < |kws| && kws[k] == sorted[i];
        assert Names(kws)[k] == name;
      }
      if name in Names(kws) {
        var i :| 0 <= i < |kws| && kws[i].0 == name;
        assert kws[i] in sorted;
        var k :| 0 <= k < |sorted| && sorted[k] == kws[i];
        assert Names(sorted)[k] == name;
      }
    }
  }

  lemma NamesUnique(k1: seq<(string, Tree)>, k2: seq<(string, Tree)>)
    requires Distinct(Names(k1)) && Distinct(Names(k2))
    ensures Names(SortByName(k1)) == Names(SortByName(k2)) <==> KeywordMap(k1).Keys == KeywordMap(k2).Keys
  {
    SortedMap(k1);
    SortedMap(k2);
    var n1, n2 := Names(SortByName(k1)), Names(SortByName(k2));
    if KeywordMap(k1).Keys == KeywordMap(k2).Keys {
      forall name ensures name in n1 <==> name in n2 {
        assert name in KeywordMap(k1).Keys <==> name in KeywordMap(k2).Keys;
      }
      AscendingUnique(n1, n2);
    }
    if n1 == n2 {
      forall name ensures name in KeywordMap(k1).Keys <==> name in KeywordMap(k2).Keys {
        assert name in n1 <==> name in n2;
      }
    }
  }

  /** The result does not depend on the order of the keywords. */
  lemma OrderIndependent(c: Call, d: Call, argnums: seq<int>, argnames: seq<string>)
    requires Distinct(Names(c.keywords)) && Distinct(Names(d.keywords))
    requires c.positional == d.positional && KeywordMap(c.keywords) == KeywordMap(d.keywords)
    ensures Parsed(c, argnums, argnames) == Parsed(d, argnums, argnames)
  {
    NamesUnique(c.keywords, d.keywords);
    SortedMap(c.keywords);
    SortedMap(d.keywords);
    var s, t := SortByName(c.keywords), SortByName(d.keywords);
    assert |s| == |Names(s)| == |t|;
    forall i | 0 <= i < |s| ensures s[i] == t[i] {
      assert Names(s)[i] == Names(t)[i] && s[i] in s && t[i] in t;
    }
    assert s == t;
  }

  lemma KeywordsRelated(eq: (Tree, Tree) -> bool, argnames: seq<string>, k1: seq<(string, Tree)>,
                        k2: seq<(string, Tree)>)
    requires Distinct(Names(k1)) && Distinct(Names(k2))
    requires Names(SortByName(k1)) == Names(SortByName(k2))
    ensures var s, t := SortByName(k1), SortByName(k2);
            |s| == |t|
            && (Related(eq, NameFlags(argnames, Names(s)), Values(s), Values(t))
                <==> SameKeywords(eq, argnames, KeywordMap(k1), KeywordMap(k2)))
  {
    NamesUnique(k1, k2);
    SortedMap(k1);
    SortedMap(k2);
    hide SameArgument, SortByName, KeywordMap, Before;
    var s, t := SortByName(k1), SortByName(k2);
    var m1, m2 := KeywordMap(k1), KeywordMap(k2);
    assert |s| == |Names(s)| == |t|;
    var flags := NameFlags(argnames, Names(s));
    forall i | 0 <= i < |s| ensures s[i].0 in m1 && m1[s[i].0] == s[i].1 && m2[s[i].0] == t[i].1 && t[i].0 == s[i].0 {
      assert Names(s)[i] == Names(t)[i] && s[i] in s && t[i] in t;
    }
    if Related(eq, flags, Values(s), Values(t)) {
      forall name | name in m1 ensures SameArgument(eq, name in argnames, m1[name], m2[name]) {
        assert name in Names(s);
        var i :| 0 <= i < |s| && Names(s)[i] == name;
        assert SameArgument(eq, flags[i], Values(s)[i], Values(t)[i]);
      }
    }
    if SameKeywords(eq, argnames, m1, m2) {
      forall i | 0 <= i < |s| ensures SameArgument(eq, flags[i], Values(s)[i], Values(t)[i]) {
        assert SameArgument(eq, s[i].0 in argnames, m1[s[i].0], m2[s[i].0]);
      }
    }
  }

  /** Names determine each other's partition, and the partition determines the names. */
  lemma NamesPartition(argnames: seq<string>, n1: seq<string>, n2: seq<string>)
    requires Ascending(n1) && Ascending(n2)
    requires Select(NameFlags(argnames, n1), true, n1) == Select(NameFlags(argnames, n2), true, n2)
    requires Select(NameFlags(argnames, n1), false, n1) == Select(NameFlags(argnames, n2), false, n2)
    ensures n1 == n2
  {
    forall name ensures name in n1 <==> name in n2 {
      NameSelected(argnames, n1, name);
      NameSelected(argnames, n2, name);
    }
    AscendingUnique(n1, n2);
  }

  lemma NameSelected(argnames: seq<string>, names: seq<string>, name: string)
    ensures name in names <==> name in Select(NameFlags(argnames, names), name in argnames, names)
  {
    if name in names {
      var i :| 0 <= i < |names| && names[i] == name;
      SelectMember(NameFlags(argnames, names), name in argnames, names, i);
    }
  }

  lemma SplitEqual<T>(xs: seq<T>, ys: seq<T>, us: seq<T>, vs: seq<T>)
    requires |xs| == |us| && xs + ys == us + vs
    ensures xs == us && ys == vs
  {
    assert xs == (xs + ys)[..|xs|] && us == (us + vs)[..|us|];
    assert ys == (xs + ys)[|xs|..] && vs == (us + vs)[|us|..];
  }

  /** When the numbers of positional arguments and the keyword names agree, the signature and the
      leaves agree exactly if the arguments do. */
  lemma AlignedCalls(eq: (Tree, Tree) -> bool, argnums: seq<int>, argnames: seq<string>, c: Call, d: Call)
    requires Distinct(Names(c.keywords)) && Distinct(Names(d.keywords))
    requires |c.positional| == |d.positional|
    requires Names(SortByName(c.keywords)) == Names(SortByName(d.keywords))
    ensures (DynamicTrees(c, argnums, argnames) == DynamicTrees(d, argnums, argnames)
             && EqualAll(eq, StaticTrees(c, argnums, argnames), StaticTrees(d, argnums, argnames)))
            <==> SameCall(eq, argnums, argnames, c, d)
  {
    KeywordsRelated(eq, argnames, c.keywords, d.keywords);
    hide SortByName, KeywordMap, SameArgument, EqualAll;
    var s, t := SortByName(c.keywords), SortByName(d.keywords);
    var pf, nf := PositionalFlags(argnums, |c.positional|), NameFlags(argnames, Names(s));
    SelectRelated(eq, pf, c.positional, d.positional);
    SelectRelated(eq, nf, Values(s), Values(t));
    SelectSizes(pf, c.positional, d.positional);
    EqualConcat(eq, Select(pf, true, c.positional), Select(nf, true, Values(s)),
                Select(pf, true, d.positional), Select(nf, true, Values(t)));
    if DynamicTrees(c, argnums, argnames) == DynamicTrees(d, argnums, argnames) {
      SplitEqual(Select(pf, false, c.positional), Select(nf, false, Values(s)),
                 Select(pf, false, d.positional), Select(nf, false, Values(t)));
    }
    assert Related(eq, pf, c.positional, d.positional) <==> SamePositional(eq, argnums, c.positional, d.positional);
  }

  /** The number of positional arguments can be read off. */
  lemma PositionalCount(c: Call, argnums: seq<int>, argnames: seq<string>)
    ensures var p := Parsed(c, argnums, argnames).0;
            |c.positional| + |p.dynamicNames| + |p.staticNames| == |p.dynamicDefs| + |p.staticArgs|
  {
    var kws := SortByName(c.keywords);
    SelectSizes(PositionalFlags(argnums, |c.positional|), c.positional, c.positional);
    SelectSizes(NameFlags(argnames, Names(kws)), Names(kws), Values(kws));
  }

  /** The signature and the leaves determine the call: they agree exactly for the same calls. */
  lemma SignatureDeterminesCall(eq: (Tree, Tree) -> bool, argnums: seq<int>, argnames: seq<string>, c: Call, d: Call)
    requires Distinct(Names(c.keywords)) && Distinct(Names(d.keywords))
    ensures var p, q := Parsed(c, argnums, argnames), Parsed(d, argnums, argnames);
            SameSignature(eq, p.0, q.0) && p.1 == q.1 <==> SameCall(eq, argnums, argnames, c, d)
  {
    var p, q := Parsed(c, argnums, argnames), Parsed(d, argnums, argnames);
    var n1, n2 := Names(SortByName(c.keywords)), Names(SortByName(d.keywords));
    NamesUnique(c.keywords, d.keywords);
    if SameSignature(eq, p.0, q.0) && p.1 == q.1 {
      PositionalCount(c, argnums, argnames);
      PositionalCount(d, argnums, argnames);
      SortedMap(c.keywords);
      SortedMap(d.keywords);
      NamesPartition(argnames, n1, n2);
      FlattenAllUnique(DynamicTrees(c, argnums, argnames), DynamicTrees(d, argnums, argnames), [], []);
      AlignedCalls(eq, argnums, argnames, c, d);
    }
    if SameCall(eq, argnums, argnames, c, d) {
      AlignedCalls(eq, argnums, argnames, c, d);
    }
  }
}
