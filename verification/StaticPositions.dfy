/** Which positional arguments a jitted call treats as static. */
module StaticPositions {
  import opened Lists
  import opened JitArguments

  ghost predicate Increasing(at: seq<nat>) {
    forall i, j :: 0 <= i < j < |at| ==> at[i] < at[j]
  }

  function At<T>(xs: seq<T>, at: seq<nat>): (r: seq<T>)
    requires forall i :: 0 <= i < |at| ==> at[i] < |xs|
    ensures |r| == |at| && forall i :: 0 <= i < |at| ==> r[i] == xs[at[i]]
  {
    seq(|at|, i requires 0 <= i < |at| => xs[at[i]])
  }

  /** A partition takes the elements at the flagged positions, in order. */
  lemma {:induction false} SelectAt<T>(bs: seq<bool>, b: bool, xs: seq<T>) returns (at: seq<nat>)
    requires |bs| == |xs|
    ensures Increasing(at) && forall i :: 0 <= i < |at| ==> at[i] < |xs|
    ensures forall p: nat :: p in at <==> p < |xs| && bs[p] == b
    ensures Select(bs, b, xs) == At(xs, at)
    decreases |xs|
  {
    at := [];
    if xs != [] {
      var k := |xs| - 1;
      var before := SelectAt(bs[..k], b, xs[..k]);
      at := before + if bs[k] == b then [k] else [];
      SelectNext(bs, b, xs, k);
      assert bs[..k + 1] == bs && xs[..k + 1] == xs;
      hide Select;
      OneMoreAt(bs, b, xs, k, before);
    }
  }

  lemma OneMoreAt<T>(bs: seq<bool>, b: bool, xs: seq<T>, k: nat, before: seq<nat>)
    requires |bs| == |xs| == k + 1 && Increasing(before) && forall i :: 0 <= i < |before| ==> before[i] < k
    requires forall p: nat :: p in before <==> p < k && bs[..k][p] == b
    ensures var at := before + if bs[k] == b then [k] else [];
            && Increasing(at) && (forall i :: 0 <= i < |at| ==> at[i] < |xs|)
            && (forall p: nat :: p in at <==> p < |xs| && bs[p] == b)
            && At(xs, at) == At(xs[..k], before) + if bs[k] == b then [xs[k]] else []
  {
    var at := before + if bs[k] == b then [k] else [];
    forall p: nat ensures p in at <==> p < |xs| && bs[p] == b {
      assert p in before <==> p < k && bs[..k][p] == b;
    }
  }

  /** The static positional arguments are those at the positions that `argnums` names, from the front or from
      the end; the other ones are flattened; both in their order, and before the keyword arguments. */
  lemma StaticPositional(call: Call, argnums: seq<int>, argnames: seq<string>)
    returns (fixed: seq<nat>, dynamic: seq<nat>)
    ensures var n := |call.positional|;
            && Increasing(fixed) && (forall p: nat :: p in fixed <==> p < n && (p in argnums || p - n in argnums))
            && Increasing(dynamic) && (forall p: nat :: p in dynamic <==> p < n && p !in argnums && p - n !in argnums)
            && (forall i :: 0 <= i < |fixed| ==> fixed[i] < n) && forall i :: 0 <= i < |dynamic| ==> dynamic[i] < n
    ensures var (signature, flat) := Parsed(call, argnums, argnames);
            && At(call.positional, fixed) <= signature.staticArgs
            && Defs(At(call.positional, dynamic)) <= signature.dynamicDefs
            && AllLeaves(At(call.positional, dynamic)) <= flat
            && |signature.staticArgs| == |fixed| + |signature.staticNames|
            && |signature.dynamicDefs| == |dynamic| + |signature.dynamicNames|
  {
    var n, flags := |call.positional|, PositionalFlags(argnums, |call.positional|);
    fixed := SelectAt(flags, true, call.positional);
    dynamic := SelectAt(flags, false, call.positional);
    forall p: nat | p < n ensures flags[p] <==> p in argnums || p - n in argnums {
      NamedBy(argnums, p, n);
    }
    var kws := SortByName(call.keywords);
    SelectSizes(NameFlags(argnames, Names(kws)), Names(kws), Values(kws));
    FlattenAppend(Select(flags, false, call.positional), Select(NameFlags(argnames, Names(kws)), false, Values(kws)));
  }

  lemma NamedBy(argnums: seq<int>, p: nat, n: nat)
    requires p < n
    ensures PositionalFlags(argnums, n)[p] <==> p in argnums || p - n in argnums
  {
    if p in argnums || p - n in argnums {
      var t := if p in argnums then p else p - n;
      assert t in argnums;
    }
  }

  /** Negative numbers that reach a position, as positions. */
  function FromFront(argnums: seq<int>, n: nat): (r: seq<int>)
    ensures |r| == |argnums|
    ensures forall i :: 0 <= i < |r| ==> r[i] == if argnums[i] < 0 <= argnums[i] + n then argnums[i] + n else argnums[i]
  {
    seq(|argnums|, i requires 0 <= i < |argnums| =>
      if argnums[i] < 0 <= argnums[i] + n then argnums[i] + n else argnums[i])
  }

  /** Replacing negative numbers by the positions that they name changes nothing. */
  lemma NegativesFromEnd(call: Call, argnums: seq<int>, argnames: seq<string>)
    ensures Parsed(call, FromFront(argnums, |call.positional|), argnames) == Parsed(call, argnums, argnames)
  {
    var n := |call.positional|;
    var front := FromFront(argnums, n);
    forall p | 0 <= p < n ensures PositionalFlags(front, n)[p] == PositionalFlags(argnums, n)[p] {
      NamedBy(argnums, p, n);
      NamedBy(front, p, n);
      if t :| t in argnums && (t == p || t == p - n) {
        var i :| 0 <= i < |argnums| && argnums[i] == t;
        assert front[i] in front;
      }
      if t :| t in front && (t == p || t == p - n) {
        var i :| 0 <= i < |front| && front[i] == t;
        assert argnums[i] in argnums;
      }
    }
    assert PositionalFlags(front, n) == PositionalFlags(argnums, n);
  }

  /** Static number -1 is the last positional argument, and no other one. */
  lemma LastStatic(xs: seq<Tree>, x: Tree)
    ensures Parsed(Call(xs + [x], []), [-1], []) == (Signature(Defs(xs), [], [x], []), AllLeaves(xs))
  {
    var call, n := Call(xs + [x], []), |xs| + 1;
    var flags := PositionalFlags([-1], n);
    forall p | 0 <= p < n ensures flags[p] == (p == n - 1) {
      NamedBy([-1], p, n);
    }
    assert flags == Repeat(false, |xs|) + [true];
    SelectAppend(Repeat(false, |xs|), true, xs, [true], [x]);
    SelectAppend(Repeat(false, |xs|), false, xs, [true], [x]);
    SelectRepeat(false, true, xs);
    SelectRepeat(false, false, xs);
    assert [true][1..] == [] && [x][1..] == [];
    assert Select([true], true, [x]) == [x] && Select([true], false, [x]) == [];
    assert xs + [] == xs && [] + [x] == [x];
    assert SortByName([]) == [] && Names([]) == [] && Values([]) == [] && NameFlags([], []) == [];
    assert Select(flags, true, call.positional) + [] == [x] && Select(flags, false, call.positional) + [] == xs;
  }

  /** Of the keyword arguments exactly those that `argnames` lists are static; their names and values stand at
      the same places behind the positional ones. */
  lemma StaticKeywords(call: Call, argnums: seq<int>, argnames: seq<string>)
    requires Distinct(Names(call.keywords))
    ensures var p := Parsed(call, argnums, argnames).0;
            var k := |p.staticArgs| - |p.staticNames|;
            k >= 0 && KeywordPart(call.keywords, argnames, p.staticNames, p.staticArgs[k..], p.dynamicNames)
  {
    var kws := SortByName(call.keywords);
    SortSorts(call.keywords);
    hide Select, SortByName, Parsed;
    KeywordsSelected(kws, argnames);
    ParsedKeywords(call, argnums, argnames);
    SameMembers(kws, call.keywords, argnames);
  }

  lemma ParsedKeywords(call: Call, argnums: seq<int>, argnames: seq<string>)
    ensures var p, kws := Parsed(call, argnums, argnames).0, SortByName(call.keywords);
            var flags := NameFlags(argnames, Names(kws));
            var values, k := Select(flags, true, Values(kws)), |p.staticArgs| - |p.staticNames|;
            && p.staticNames == Select(flags, true, Names(kws)) && p.dynamicNames == Select(flags, false, Names(kws))
            && k >= 0 && p.staticArgs[k..] == values
  {
    var kws := SortByName(call.keywords);
    SelectSizes(NameFlags(argnames, Names(kws)), Names(kws), Values(kws));
    hide Select, SortByName;
  }

  lemma SameMembers(kws: seq<(string, Tree)>, keywords: seq<(string, Tree)>, argnames: seq<string>)
    requires forall x :: x in kws <==> x in keywords
    requires KeywordPart(kws, argnames, Select(NameFlags(argnames, Names(kws)), true, Names(kws)),
                         Select(NameFlags(argnames, Names(kws)), true, Values(kws)),
                         Select(NameFlags(argnames, Names(kws)), false, Names(kws)))
    ensures KeywordPart(keywords, argnames, Select(NameFlags(argnames, Names(kws)), true, Names(kws)),
                        Select(NameFlags(argnames, Names(kws)), true, Values(kws)),
                        Select(NameFlags(argnames, Names(kws)), false, Names(kws)))
  {
  }

  /** `names` and `values` are the static keyword arguments among `kws`, and `others` the names of the rest. */
  ghost predicate KeywordPart(kws: seq<(string, Tree)>, argnames: seq<string>, names: seq<string>, values: seq<Tree>,
                              others: seq<string>) {
    && |names| == |values|
    && (forall i :: 0 <= i < |names| ==> names[i] in argnames && (names[i], values[i]) in kws)
    && (forall x :: x in kws && x.0 in argnames ==> x.0 in names)
    && (forall x :: x in kws ==> (x.0 in others <==> x.0 !in argnames))
  }

  lemma KeywordsSelected(kws: seq<(string, Tree)>, argnames: seq<string>)
    ensures var flags := NameFlags(argnames, Names(kws));
            KeywordPart(kws, argnames, Select(flags, true, Names(kws)), Select(flags, true, Values(kws)),
                        Select(flags, false, Names(kws)))
  {
    hide Select;
    var flags := NameFlags(argnames, Names(kws));
    var at := SelectAt(flags, true, Names(kws));
    var at' := SelectAt(flags, true, Values(kws));
    SamePositions(at, at');
    var other := SelectAt(flags, false, Names(kws));
    forall i | 0 <= i < |at| ensures kws[at[i]].0 in argnames && kws[at[i]] in kws {
      assert at[i] in at;
    }
    forall x | x in kws
      ensures x.0 in argnames ==> x.0 in At(Names(kws), at)
      ensures x.0 in At(Names(kws), other) <==> x.0 !in argnames
    {
      SelectedName(kws, argnames, at, other, x);
    }
  }

  lemma SelectedName(kws: seq<(string, Tree)>, argnames: seq<string>, at: seq<nat>, other: seq<nat>, x: (string, Tree))
    requires x in kws && (forall i :: 0 <= i < |at| ==> at[i] < |kws|)
             && forall i :: 0 <= i < |other| ==> other[i] < |kws|
    requires forall p: nat :: p in at <==> p < |kws| && kws[p].0 in argnames
    requires forall p: nat :: p in other <==> p < |kws| && kws[p].0 !in argnames
    ensures x.0 in argnames ==> x.0 in At(Names(kws), at)
    ensures x.0 in At(Names(kws), other) <==> x.0 !in argnames
  {
    var i :| 0 <= i < |kws| && kws[i] == x;
    if x.0 in argnames {
      assert i in at;
      var q :| 0 <= q < |at| && at[q] == i;
      assert At(Names(kws), at)[q] == x.0;
    } else {
      assert i in other;
      var q :| 0 <= q < |other| && other[q] == i;
      assert At(Names(kws), other)[q] == x.0;
    }
    if x.0 in At(Names(kws), other) {
      var q :| 0 <= q < |other| && At(Names(kws), other)[q] == x.0;
      assert other[q] in other;
    }
  }

  /** Increasing lists with the same members are equal. */
  lemma {:induction false} SamePositions(at: seq<nat>, at': seq<nat>)
    requires Increasing(at) && Increasing(at') && forall p: nat :: p in at <==> p in at'
    ensures at == at'
    decreases |at|
  {
    if at == [] {
      FirstIn(at');
    } else {
      assert at[0] in at && at[0] in at';
      var k, k' := |at| - 1, |at'| - 1;
      assert at[k] in at && at'[k'] in at';
      forall p: nat ensures p in at[..k] <==> p in at'[..k'] {
        LessThanLast(at, p);
        LessThanLast(at', p);
      }
      SamePositions(at[..k], at'[..k']);
      assert at == at[..k] + [at[k]] && at' == at'[..k'] + [at'[k']];
    }
  }

  lemma FirstIn(at: seq<nat>)
    ensures at != [] ==> at[0] in at
  {
  }

  lemma LessThanLast(at: seq<nat>, p: nat)
    requires Increasing(at) && at != []
    ensures p in at[..|at| - 1] <==> p in at && p != at[|at| - 1]
    ensures forall q :: q in at ==> q <= at[|at| - 1]
  {
    if p in at && p != at[|at| - 1] {
      var i :| 0 <= i < |at| && at[i] == p;
      assert at[..|at| - 1][i] == p;
    }
  }
}
