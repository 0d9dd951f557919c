/** toposort of docs/autodidax.py: Kahn's algorithm on a multigraph in which a node may list the
    same parent several times. */
module TopologicalSort {
  import opened Wrappers
  import opened Lists

  /** Objects are compared by id(). */
  type Node = nat

  /** parents(node) for every node of a finite graph. */
  type Graph = map<Node, seq<Node>>

  ghost predicate Closed(g: Graph, s: set<Node>) {
    s <= g.Keys && forall n, p :: n in s && p in g[n] ==> p in s
  }

  /** Parents lie below their children; `rank` is the witness. */
  ghost predicate Ranked(g: Graph, rank: Node -> nat) {
    forall n, p :: n in g && p in g[n] ==> rank(p) < rank(n)
  }

  /** `s` is the set of nodes that can be reached from `outs` through parents. */
  ghost predicate Reachable(g: Graph, outs: seq<Node>, s: set<Node>) {
    && ToSet(outs) <= s && Closed(g, s)
    && Needed(g, outs, s)
  }

  /** Every parent of a node comes before it. */
  ghost predicate ParentsFirst(g: Graph, nodes: seq<Node>) {
    forall i, p :: 0 <= i < |nodes| && nodes[i] in g && p in g[nodes[i]] ==> p in nodes[..i]
  }

  // ---------- counting edges ----------

  /** The ends of all edges that start in `s`, with their multiplicities. */
  ghost function Edges(g: Graph, s: set<Node>): multiset<Node>
    requires s <= g.Keys
    decreases |s|
  {
    if s == {} then multiset{} else var n := Pick(s); multiset(g[n]) + Edges(g, s - {n})
  }

  lemma {:induction false} EdgesRemove(g: Graph, s: set<Node>, n: Node)
    requires s <= g.Keys && n in s
    ensures Edges(g, s) == multiset(g[n]) + Edges(g, s - {n})
    decreases |s|
  {
    var m := Pick(s);
    if m != n {
      EdgesRemove(g, s - {m}, n);
      EdgesRemove(g, s - {n}, m);
      assert s - {m} - {n} == s - {n} - {m};
    }
  }

  lemma EdgesAdd(g: Graph, s: set<Node>, n: Node)
    requires s <= g.Keys && n in g && n !in s
    ensures Edges(g, s + {n}) == multiset(g[n]) + Edges(g, s)
  {
    EdgesRemove(g, s + {n}, n);
    assert s + {n} - {n} == s;
  }

  /** An edge ends in `p` exactly when a node of `s` has `p` as a parent. */
  lemma {:induction false} EdgesEnd(g: Graph, s: set<Node>, p: Node)
    requires s <= g.Keys
    ensures p in Edges(g, s) <==> exists n :: n in s && p in g[n]
    decreases |s|
  {
    if s != {} {
      var m := Pick(s);
      EdgesEnd(g, s - {m}, p);
      assert p in g[m] <==> p in multiset(g[m]);
    }
  }

  lemma {:induction false} HighestRank(s: set<Node>, rank: Node -> nat) returns (n: Node)
    requires s != {}
    ensures n in s && forall k :: k in s ==> rank(k) <= rank(n)
    decreases |s|
  {
    n := Pick(s);
    assert s == (s - {n}) + {n};
    if s - {n} != {} {
      var k := HighestRank(s - {n}, rank);
      if rank(n) < rank(k) {
        n := k;
      }
    }
  }

  // ---------- remove_duplicates and check_toposort ----------

  /** remove_duplicates */
  method RemoveDuplicates(lst: seq<Node>) returns (r: seq<Node>)
    ensures Distinct(r) && ToSet(r) == ToSet(lst)
  {
    var seen: set<Node> := {};
    r := [];
    for i := 0 to |lst|
      invariant Distinct(r) && ToSet(r) == seen == ToSet(lst[..i])
    {
      assert lst[..i + 1] == lst[..i] + [lst[i]];
      if lst[i] !in seen {
        seen := seen + {lst[i]};
        r := r + [lst[i]];
      }
    }
    assert lst[..|lst|] == lst;
  }

  /** check_toposort: whether its assertion holds at every node. */
  method CheckToposort(g: Graph, nodes: seq<Node>) returns (ok: bool)
    requires ToSet(nodes) <= g.Keys
    ensures ok <==> ParentsFirst(g, nodes)
  {
    var seen: set<Node> := {};
    assert forall n :: n in nodes ==> n in ToSet(nodes);
    for i := 0 to |nodes|
      invariant seen == ToSet(nodes[..i])
      invariant forall k, p :: 0 <= k < i && p in g[nodes[k]] ==> p in nodes[..k]
    {
      if exists p :: p in g[nodes[i]] && p !in seen {
        return false;
      }
      assert nodes[..i + 1] == nodes[..i] + [nodes[i]];
      seen := seen + {nodes[i]};
    }
    return true;
  }

  // ---------- the first loop: how many children has each node? ----------

  function Count(counts: map<Node, nat>, n: Node): nat {
    if n in counts then counts[n] else 0
  }

  /** What the first loop keeps: every edge out of a visited node, and every output, has been
      counted or is still on the stack. */
  ghost predicate Counting(g: Graph, outs: seq<Node>, counts: map<Node, nat>, stack: seq<Node>) {
    && counts.Keys <= g.Keys && (forall n :: n in counts ==> counts[n] > 0)
    && (forall n :: n in stack ==> n in g)
    && (forall n :: Count(counts, n) + multiset(stack)[n] == multiset(outs)[n] + Edges(g, counts.Keys)[n])
    && Needed(g, outs, counts.Keys) && Needed(g, outs, ToSet(stack))
  }

  /** `s` lies in every closed set that contains the outputs. */
  ghost predicate Needed(g: Graph, outs: seq<Node>, s: set<Node>) {
    forall t: set<Node> :: ToSet(outs) <= t && Closed(g, t) ==> s <= t
  }

  lemma NeededParents(g: Graph, outs: seq<Node>, s: set<Node>, n: Node)
    requires Needed(g, outs, s) && n in s && n in g
    ensures Needed(g, outs, ToSet(g[n]))
  {
  }

  lemma PopKnown(g: Graph, outs: seq<Node>, counts: map<Node, nat>, rest: seq<Node>, node: Node)
    requires Counting(g, outs, counts, rest + [node]) && node in counts
    ensures Counting(g, outs, counts[node := counts[node] + 1], rest)
  {
    hide Needed, Edges;
    var stack := rest + [node];
    assert counts[node := counts[node] + 1].Keys == counts.Keys;
    assert ToSet(rest) <= ToSet(stack);
    NeededMore(g, outs, counts.Keys, ToSet(stack), ToSet(rest));
    assert forall n :: n in rest ==> n in stack;
  }

  lemma CountingBounds(g: Graph, outs: seq<Node>, counts: map<Node, nat>, stack: seq<Node>)
    requires Counting(g, outs, counts, stack)
    ensures counts.Keys <= g.Keys && forall n :: n in stack ==> n in g
  {
  }

  lemma PopNew(g: Graph, outs: seq<Node>, counts: map<Node, nat>, rest: seq<Node>, node: Node)
    requires Counting(g, outs, counts, rest + [node]) && node !in counts && node in g && Closed(g, g.Keys)
    ensures Counting(g, outs, counts[node := 1], rest + g[node])
  {
    hide Needed, Edges;
    var stack := rest + [node];
    var counts1 := counts[node := 1];
    assert counts1.Keys == counts.Keys + {node};
    EdgesAdd(g, counts.Keys, node);
    PopCounts(counts, node, stack, rest, g[node]);
    assert node in stack && node in ToSet(stack);
    assert forall n :: n in rest ==> n in stack;
    hide Closed;
    NeededParents(g, outs, ToSet(stack), node);
    NeededMore(g, outs, counts.Keys, ToSet(stack), counts1.Keys);
    NeededMore(g, outs, ToSet(g[node]), ToSet(stack), ToSet(rest + g[node]));
  }

  lemma PopCounts(counts: map<Node, nat>, node: Node, stack: seq<Node>, rest: seq<Node>, parents: seq<Node>)
    requires stack == rest + [node] && node !in counts
    ensures forall n :: Count(counts[node := 1], n) + multiset(rest + parents)[n]
                     == Count(counts, n) + multiset(stack)[n] + multiset(parents)[n]
  {
  }

  lemma NeededMore(g: Graph, outs: seq<Node>, s: set<Node>, s': set<Node>, r: set<Node>)
    requires Needed(g, outs, s) && Needed(g, outs, s') && r <= s + s'
    ensures Needed(g, outs, r)
  {
  }

  /** A node is counted again, or for the first time. */
  lemma KeysLeft(g: Graph, counts: map<Node, nat>, node: Node, k: nat)
    ensures node in counts ==> |g.Keys - counts[node := k].Keys| == |g.Keys - counts.Keys|
    ensures node !in counts && node in g ==> |g.Keys - counts[node := k].Keys| < |g.Keys - counts.Keys|
  {
    if node in counts {
      assert counts[node := k].Keys == counts.Keys;
    } else if node in g {
      assert g.Keys - counts[node := k].Keys == (g.Keys - counts.Keys) - {node};
    }
  }

  lemma SplitLast(stack: seq<Node>)
    requires stack != []
    ensures stack == stack[..|stack| - 1] + [stack[|stack| - 1]] && stack[|stack| - 1] in stack
  {
  }

  method CountChildren(g: Graph, outs: seq<Node>) returns (counts: map<Node, nat>)
    requires Closed(g, g.Keys) && ToSet(outs) <= g.Keys
    ensures Counting(g, outs, counts, [])
  {
    hide Counting, Closed;
    counts := map[];
    var stack := outs;
    StartCounting(g, outs);
    while stack != []
      invariant Counting(g, outs, counts, stack)
      decreases |g.Keys - counts.Keys|, |stack|
    {
      var rest, node := stack[..|stack| - 1], stack[|stack| - 1];
      SplitLast(stack);
      CountingBounds(g, outs, counts, stack);
      if node in counts {
        PopKnown(g, outs, counts, rest, node);
        KeysLeft(g, counts, node, counts[node] + 1);
        counts := counts[node := counts[node] + 1];
        stack := rest;
      } else {
        PopNew(g, outs, counts, rest, node);
        KeysLeft(g, counts, node, 1);
        counts := counts[node := 1];
        stack := rest + g[node];
      }
    }
  }

  lemma StartCounting(g: Graph, outs: seq<Node>)
    requires ToSet(outs) <= g.Keys
    ensures Counting(g, outs, map[], outs)
  {
  }

  /** After the first loop exactly the reachable nodes have been counted. */
  lemma CountedReachable(g: Graph, outs: seq<Node>, counts: map<Node, nat>)
    requires Counting(g, outs, counts, []) && Closed(g, g.Keys)
    ensures Reachable(g, outs, counts.Keys)
    ensures forall n :: n in counts && n !in Edges(g, counts.Keys) ==> n in outs
  {
    forall n | n in outs ensures n in counts.Keys {
      assert Count(counts, n) > 0;
    }
    forall n, p | n in counts.Keys && p in g[n] ensures p in counts.Keys {
      EdgesEnd(g, counts.Keys, p);
      assert Count(counts, p) > 0;
    }
    forall n | n in counts && n !in Edges(g, counts.Keys) ensures n in outs {
      assert Count(counts, n) > 0;
    }
  }

  // ---------- the second loop: outputs are not children ----------

  method UncountOutputs(g: Graph, outs: seq<Node>, counted: map<Node, nat>) returns (counts: map<Node, nat>)
    requires Counting(g, outs, counted, []) && Distinct(outs) && Closed(g, g.Keys)
    ensures counts.Keys == counted.Keys && forall n :: n in counts ==> counts[n] == Edges(g, counts.Keys)[n]
  {
    counts := counted;
    OutputsCounted(g, outs, counted);
    for i := 0 to |outs|
      invariant counts.Keys == counted.Keys
      invariant forall n :: n in counts ==> counts[n] == counted[n] - if n in outs[..i] then 1 else 0
    {
      assert outs[..i + 1] == outs[..i] + [outs[i]];
      counts := counts[outs[i] := counts[outs[i]] - 1];
    }
    assert outs[..|outs|] == outs;
  }

  lemma OutputsCounted(g: Graph, outs: seq<Node>, counted: map<Node, nat>)
    requires Counting(g, outs, counted, []) && Distinct(outs)
    ensures forall n :: n in outs ==> n in counted && counted[n] >= 1
    ensures forall n :: n in counted ==> counted[n] == (if n in outs then 1 else 0) + Edges(g, counted.Keys)[n]
  {
    hide Edges, Needed;
    forall n ensures Count(counted, n) == (if n in outs then 1 else 0) + Edges(g, counted.Keys)[n] {
      DistinctCount(outs, n);
      assert Count(counted, n) + multiset([])[n] == multiset(outs)[n] + Edges(g, counted.Keys)[n];
    }
  }

  lemma {:induction false} DistinctCount(xs: seq<Node>, n: Node)
    requires Distinct(xs)
    ensures multiset(xs)[n] == if n in xs then 1 else 0
  {
    if xs != [] {
      DistinctCount(xs[1..], n);
      assert xs == [xs[0]] + xs[1..];
    }
  }

  // ---------- the third loop: take nodes whose children have all been taken ----------

  /** What the third loop keeps, in the middle of the pass over the parents of a node: `done` are
      the nodes taken so far and `pending` the edges out of the last of them still to be seen. */
  ghost predicate Sorting(g: Graph, counts: map<Node, nat>, done: seq<Node>, childless: seq<Node>,
                          pending: multiset<Node>) {
    && counts.Keys <= g.Keys && ToSet(done + childless) <= counts.Keys && Distinct(done + childless)
    && (forall n :: n in counts ==>
          var left := Edges(g, counts.Keys - ToSet(done))[n] + pending[n];
          if n in done + childless then left == 0 else left == counts[n] > 0)
    && (forall i, c :: 0 <= i < |done| && c in counts && done[i] in g[c] ==> c in done[..i])
  }

  lemma SeeLastEdge(g: Graph, counts: map<Node, nat>, done: seq<Node>, childless: seq<Node>, pending: multiset<Node>,
                    p: Node)
    requires Sorting(g, counts, done, childless, pending + multiset{p}) && p in counts && counts[p] == 1
    ensures Sorting(g, counts, done, childless + [p], pending)
  {
    hide Edges;
    assert (pending + multiset{p})[p] > 0;
    assert p !in done + childless;
    assert done + (childless + [p]) == (done + childless) + [p];
    assert ToSet((done + childless) + [p]) == ToSet(done + childless) + {p};
  }

  lemma SeeEdge(g: Graph, counts: map<Node, nat>, done: seq<Node>, childless: seq<Node>, pending: multiset<Node>,
                p: Node)
    requires Sorting(g, counts, done, childless, pending + multiset{p}) && p in counts && counts[p] != 1
    ensures counts[p] > 0 && Sorting(g, counts[p := counts[p] - 1], done, childless, pending)
  {
    hide Edges;
    assert (pending + multiset{p})[p] > 0;
    assert p !in done + childless;
    assert counts[p := counts[p] - 1].Keys == counts.Keys;
  }

  lemma TakeNode(g: Graph, counts: map<Node, nat>, done: seq<Node>, childless: seq<Node>)
    requires Sorting(g, counts, done, childless, multiset{}) && childless != []
    ensures var node := childless[|childless| - 1];
            && node in g && node in counts && node !in done
            && Sorting(g, counts, done + [node], childless[..|childless| - 1], multiset(g[node]))
  {
    hide Edges;
    var node, rest := childless[|childless| - 1], childless[..|childless| - 1];
    assert childless == rest + [node];
    SameElements(done, rest, node);
    assert node in ToSet(done + childless) && node in childless;
    LeftAfter(g, counts.Keys, done, node);
    ChildrenDone(g, counts, done, childless, node);
    TakenInOrder(g, counts.Keys, done, node);
  }

  lemma LeftAfter(g: Graph, keys: set<Node>, done: seq<Node>, node: Node)
    requires keys <= g.Keys && node in keys && node !in done
    ensures Edges(g, keys - ToSet(done)) == multiset(g[node]) + Edges(g, keys - ToSet(done + [node]))
  {
    EdgesRemove(g, keys - ToSet(done), node);
    assert keys - ToSet(done + [node]) == keys - ToSet(done) - {node};
  }

  lemma TakenInOrder(g: Graph, keys: set<Node>, done: seq<Node>, node: Node)
    requires keys <= g.Keys && forall c :: c in keys && node in g[c] ==> c in done
    requires forall i, c :: 0 <= i < |done| && c in keys && done[i] in g[c] ==> c in done[..i]
    ensures var done1 := done + [node];
            forall i, c :: 0 <= i < |done1| && c in keys && done1[i] in g[c] ==> c in done1[..i]
  {
    var done1 := done + [node];
    forall i, c | 0 <= i < |done1| && c in keys && done1[i] in g[c] ensures c in done1[..i] {
      if i < |done| {
        assert done1[..i] == done[..i];
      } else {
        assert done1[..i] == done;
      }
    }
  }

  /** A node without edges into it from the nodes that are left has only done children. */
  lemma ChildrenDone(g: Graph, counts: map<Node, nat>, done: seq<Node>, childless: seq<Node>, node: Node)
    requires Sorting(g, counts, done, childless, multiset{}) && node in childless && node in counts
    ensures forall c :: c in counts && node in g[c] ==> c in done
  {
    hide Edges;
    var left := counts.Keys - ToSet(done);
    EdgesEnd(g, left, node);
    assert node in done + childless;
    assert Edges(g, left)[node] == 0;
    forall c | c in counts && node in g[c] ensures c in done {
      assert c !in done ==> c in left;
    }
  }

  lemma SameElements(done: seq<Node>, rest: seq<Node>, node: Node)
    requires Distinct(done + (rest + [node]))
    ensures Distinct((done + [node]) + rest) && ToSet((done + [node]) + rest) == ToSet(done + (rest + [node]))
    ensures forall n :: n in (done + [node]) + rest <==> n in done + (rest + [node])
    ensures node !in done
  {
    var a, b := done + (rest + [node]), (done + [node]) + rest;
    var k := |done|;
    forall i, l | 0 <= i < l < |b| ensures b[i] != b[l] {
      var i' := if i < k then i else if i == k then |a| - 1 else i - 1;
      var l' := if l < k then l else if l == k then |a| - 1 else l - 1;
      assert b[i] == a[i'] && b[l] == a[l'];
    }
    assert forall i :: 0 <= i < k ==> a[i] == done[i];
    assert a[|a| - 1] == node;
  }

  /** At the end every node has been taken: otherwise one of highest rank among the others would
      have a child left. */
  lemma AllTaken(g: Graph, rank: Node -> nat, counts: map<Node, nat>, done: seq<Node>)
    requires Ranked(g, rank) && Sorting(g, counts, done, [], multiset{})
    ensures ToSet(done) == counts.Keys && Distinct(done)
  {
    hide Edges;
    assert done + [] == done;
    assert ToSet(done + []) <= counts.Keys;
    var left := counts.Keys - ToSet(done);
    if left != {} {
      var n := HighestRank(left, rank);
      EdgesEnd(g, left, n);
      assert false;
    }
    forall n | n in counts.Keys ensures n in ToSet(done) {
      assert n !in left;
    }
  }

  lemma StartSorting(g: Graph, outs: seq<Node>, counts: map<Node, nat>, childless: seq<Node>)
    requires counts.Keys <= g.Keys && ToSet(outs) <= counts.Keys && Distinct(childless)
    requires forall n :: n in counts ==> counts[n] == Edges(g, counts.Keys)[n]
    requires forall n :: n in counts && n !in Edges(g, counts.Keys) ==> n in outs
    requires forall n :: n in childless <==> n in outs && n in counts && counts[n] == 0
    ensures Sorting(g, counts, [], childless, multiset{})
  {
    hide Edges;
    assert [] + childless == childless;
    assert counts.Keys - ToSet<Node>([]) == counts.Keys;
  }

  /** Children first, backwards, is parents first. */
  lemma ReversedOk(g: Graph, done: seq<Node>)
    requires Distinct(done) && Closed(g, ToSet(done))
    requires forall i, c :: 0 <= i < |done| && c in ToSet(done) && done[i] in g[c] ==> c in done[..i]
    ensures Distinct(Reverse(done)) && ToSet(Reverse(done)) == ToSet(done) && ParentsFirst(g, Reverse(done))
  {
    var r, k := Reverse(done), |done| - 1;
    forall n | n in done ensures n in r {
      var i :| 0 <= i < |done| && done[i] == n;
      assert r[k - i] == n;
    }
    forall i, p | 0 <= i < |r| && r[i] in g && p in g[r[i]] ensures p in r[..i] {
      assert r[i] in ToSet(done) && p in ToSet(done);
      var l :| 0 <= l < |done| && done[l] == p;
      assert r[i] in done[..l];
      var c :| 0 <= c < l && done[c] == r[i];
      assert c == k - i && r[k - l] == p && k - l < i;
    }
  }

  /** One pass over the parents of the node that was taken last. */
  method SeeParents(g: Graph, counts0: map<Node, nat>, ghost done: seq<Node>, childless0: seq<Node>, parents: seq<Node>)
    returns (counts: map<Node, nat>, childless: seq<Node>)
    requires Sorting(g, counts0, done, childless0, multiset(parents)) && ToSet(parents) <= counts0.Keys
    ensures Sorting(g, counts, done, childless, multiset{}) && counts.Keys == counts0.Keys
  {
    hide Sorting;
    counts, childless := counts0, childless0;
    assert parents[0..] == parents;
    for i := 0 to |parents|
      invariant Sorting(g, counts, done, childless, multiset(parents[i..])) && counts.Keys == counts0.Keys
    {
      var p := parents[i];
      assert p in ToSet(parents) && parents[i..] == [p] + parents[i + 1..];
      assert multiset(parents[i..]) == multiset(parents[i + 1..]) + multiset{p};
      if counts[p] == 1 {
        SeeLastEdge(g, counts, done, childless, multiset(parents[i + 1..]), p);
        childless := childless + [p];
      } else {
        SeeEdge(g, counts, done, childless, multiset(parents[i + 1..]), p);
        counts := counts[p := counts[p] - 1];
      }
    }
    assert parents[|parents|..] == [];
  }

  /** The third loop. */
  method TakeChildless(g: Graph, counts0: map<Node, nat>, childless0: seq<Node>, ghost rank: Node -> nat)
    returns (done: seq<Node>)
    requires Ranked(g, rank) && Closed(g, counts0.Keys) && Sorting(g, counts0, [], childless0, multiset{})
    ensures Distinct(done) && ToSet(done) == counts0.Keys
    ensures forall i, c :: 0 <= i < |done| && c in ToSet(done) && done[i] in g[c] ==> c in done[..i]
  {
    var counts, childless := counts0, childless0;
    done := [];
    while childless != []
      invariant Sorting(g, counts, done, childless, multiset{}) && counts.Keys == counts0.Keys
      decreases counts.Keys - ToSet(done)
    {
      TakeNode(g, counts, done, childless);
      var node := childless[|childless| - 1];
      ghost var before := counts.Keys - ToSet(done);
      done := done + [node];
      assert node in before && counts.Keys - ToSet(done) == before - {node};
      assert ToSet(g[node]) <= counts.Keys;
      counts, childless := SeeParents(g, counts, done, childless[..|childless| - 1], g[node]);
    }
    AllTaken(g, rank, counts, done);
  }

  /** toposort. On a finite graph without cycles it terminates, its dictionary look-ups succeed, and
      it lists every node that can be reached from the outputs exactly once, after all of its
      parents, so that the final check_toposort passes. */
  method Toposort(g: Graph, outNodes: seq<Node>, ghost rank: Node -> nat) returns (r: Option<seq<Node>>)
    requires Closed(g, g.Keys) && Ranked(g, rank) && ToSet(outNodes) <= g.Keys
    ensures r.Some? && Distinct(r.value) && Reachable(g, outNodes, ToSet(r.value)) && ParentsFirst(g, r.value)
  {
    if outNodes == [] {
      return Some([]);
    }
    var outs := RemoveDuplicates(outNodes);
    var counted := CountChildren(g, outs);
    CountedReachable(g, outs, counted);
    var counts := UncountOutputs(g, outs, counted);
    var childless := [];
    for i := 0 to |outs|
      invariant forall n :: n in childless <==> n in outs[..i] && counts[n] == 0
      invariant Distinct(childless)
    {
      assert outs[..i + 1] == outs[..i] + [outs[i]];
      assert outs[i] in ToSet(outs);
      if counts[outs[i]] == 0 {
        childless := childless + [outs[i]];
      }
    }
    assert outs[..|outs|] == outs;
    StartSorting(g, outs, counts, childless);
    var done := TakeChildless(g, counts, childless, rank);
    ReversedOk(g, done);
    var sorted := Reverse(done);
    var ok := CheckToposort(g, sorted);
    r := if ok then Some(sorted) else None;
  }
}
