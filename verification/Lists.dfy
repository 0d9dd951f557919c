/** The list helpers of the tutorial: partition_list, merge_lists and split_half,
    with the laws that the transformations rely on. */
module Lists {
  import opened Wrappers

  ghost predicate Distinct<T(!new)>(xs: seq<T>) {
    forall i, j :: 0 <= i < j < |xs| ==> xs[i] != xs[j]
  }

  predicate Positive(xs: seq<int>) {
    forall i :: 0 <= i < |xs| ==> xs[i] > 0
  }

  function ToSet<T>(xs: seq<T>): set<T> {
    set x | x in xs
  }

  function Repeat<T>(x: T, n: nat): (r: seq<T>)
    ensures |r| == n && forall i :: 0 <= i < n ==> r[i] == x
  {
    seq(n, _ => x)
  }

  function Reverse<T>(xs: seq<T>): (r: seq<T>)
    ensures |r| == |xs| && forall i :: 0 <= i < |xs| ==> r[i] == xs[|xs| - 1 - i]
  {
    seq(|xs|, i requires 0 <= i < |xs| => xs[|xs| - 1 - i])
  }

  /** Some element of a set, the same one each time. */
  ghost function Pick<T>(s: set<T>): (x: T)
    requires s != {}
    ensures x in s
  {
    var x :| x in s; x
  }

  /** One of the two lists of partition_list: the elements whose flag equals `b`, in order. */
  function Select<T>(bs: seq<bool>, b: bool, xs: seq<T>): (r: seq<T>)
    requires |bs| == |xs|
    ensures forall x :: x in r ==> x in xs
    ensures |r| <= |xs|
  {
    if bs == [] then []
    else (if bs[0] == b then [xs[0]] else []) + Select(bs[1..], b, xs[1..])
  }

  /** merge_lists: fails when either list is too short or is not used up. */
  function Merge<T>(which: seq<bool>, l1: seq<T>, l2: seq<T>): Option<seq<T>> {
    if which == [] then
      if l1 == [] && l2 == [] then Some([]) else None
    else if which[0] then
      if l2 == [] then None else var r :- Merge(which[1..], l1, l2[1..]); Some([l2[0]] + r)
    else
      if l1 == [] then None else var r :- Merge(which[1..], l1[1..], l2); Some([l1[0]] + r)
  }

  lemma {:induction false} MergeSelect<T>(bs: seq<bool>, xs: seq<T>)
    requires |bs| == |xs|
    ensures Merge(bs, Select(bs, false, xs), Select(bs, true, xs)) == Some(xs)
  {
    if bs != [] {
      MergeSelect(bs[1..], xs[1..]);
      var l1, l2 := Select(bs, false, xs), Select(bs, true, xs);
      if bs[0] {
        assert l2[1..] == Select(bs[1..], true, xs[1..]);
        assert l1 == Select(bs[1..], false, xs[1..]);
      } else {
        assert l1[1..] == Select(bs[1..], false, xs[1..]);
        assert l2 == Select(bs[1..], true, xs[1..]);
      }
      assert [xs[0]] + xs[1..] == xs;
    }
  }

  /** Nothing is lost and nothing is invented: every merge is undone by the partition. */
  lemma {:induction false} SelectMerge<T>(bs: seq<bool>, l1: seq<T>, l2: seq<T>)
    requires Merge(bs, l1, l2).Some?
    ensures |Merge(bs, l1, l2).value| == |bs|
    ensures Select(bs, false, Merge(bs, l1, l2).value) == l1
    ensures Select(bs, true, Merge(bs, l1, l2).value) == l2
  {
    if bs != [] {
      if bs[0] {
        SelectMerge(bs[1..], l1, l2[1..]);
        assert Merge(bs, l1, l2).value[1..] == Merge(bs[1..], l1, l2[1..]).value;
      } else {
        SelectMerge(bs[1..], l1[1..], l2);
        assert Merge(bs, l1, l2).value[1..] == Merge(bs[1..], l1[1..], l2).value;
      }
    }
  }

  /** Partitioning commutes with applying a function to every element. */
  lemma {:induction false} SelectPointwise<S, T>(bs: seq<bool>, b: bool, xs: seq<S>, ys: seq<T>, f: S -> T)
    requires |bs| == |xs| == |ys|
    requires forall i :: 0 <= i < |xs| ==> ys[i] == f(xs[i])
    ensures |Select(bs, b, ys)| == |Select(bs, b, xs)|
    ensures forall i :: 0 <= i < |Select(bs, b, xs)| ==> Select(bs, b, ys)[i] == f(Select(bs, b, xs)[i])
  {
    if bs != [] {
      SelectPointwise(bs[1..], b, xs[1..], ys[1..], f);
    }
  }

  lemma {:induction false} SelectMember<T>(bs: seq<bool>, b: bool, xs: seq<T>, i: nat)
    requires |bs| == |xs| && i < |xs| && bs[i] == b
    ensures xs[i] in Select(bs, b, xs)
  {
    if i > 0 {
      SelectMember(bs[1..], b, xs[1..], i - 1);
    }
  }

  lemma {:induction false} SelectIndex<T>(bs: seq<bool>, b: bool, xs: seq<T>, x: T) returns (i: nat)
    requires |bs| == |xs| && x in Select(bs, b, xs)
    ensures i < |xs| && bs[i] == b && xs[i] == x
  {
    if bs[0] == b && xs[0] == x {
      i := 0;
    } else {
      i := SelectIndex(bs[1..], b, xs[1..], x);
      i := i + 1;
    }
  }

  lemma {:induction false} SelectDistinct<T(!new)>(bs: seq<bool>, b: bool, xs: seq<T>)
    requires |bs| == |xs| && Distinct(xs)
    ensures Distinct(Select(bs, b, xs))
  {
    if bs != [] {
      SelectDistinct(bs[1..], b, xs[1..]);
      var r := Select(bs[1..], b, xs[1..]);
      assert forall i :: 0 <= i < |r| ==> r[i] in xs[1..];
    }
  }

  lemma {:induction false} SelectAppend<T>(bs: seq<bool>, b: bool, xs: seq<T>, cs: seq<bool>, ys: seq<T>)
    requires |bs| == |xs| && |cs| == |ys|
    ensures Select(bs + cs, b, xs + ys) == Select(bs, b, xs) + Select(cs, b, ys)
  {
    if bs == [] {
      assert bs + cs == cs && xs + ys == ys;
    } else {
      SelectAppend(bs[1..], b, xs[1..], cs, ys);
      assert (bs + cs)[1..] == bs[1..] + cs;
      assert (xs + ys)[1..] == xs[1..] + ys;
      ConcatAssoc(if bs[0] == b then [xs[0]] else [], Select(bs[1..], b, xs[1..]), Select(cs, b, ys));
    }
  }

  lemma ConcatAssoc<T>(xs: seq<T>, ys: seq<T>, zs: seq<T>)
    ensures xs + (ys + zs) == (xs + ys) + zs
  {
  }

  lemma {:induction false} SelectRepeat<T>(flag: bool, b: bool, xs: seq<T>)
    ensures Select(Repeat(flag, |xs|), b, xs) == if flag == b then xs else []
  {
    if xs != [] {
      SelectRepeat(flag, b, xs[1..]);
      assert Repeat(flag, |xs|)[1..] == Repeat(flag, |xs[1..]|);
    }
  }
}
