/** StridesToLayout of jaxlib/dlpack.cc: recognising the strides of a compact, possibly transposed
    array. */
module DlpackLayout {
  import opened Wrappers
  import opened Lists
  import opened Products

  /** A list of all dimension numbers below `n`, each once. */
  ghost predicate Permutation(perm: seq<nat>, n: nat) {
    |perm| == n && Distinct(perm) && forall p :: 0 <= p < n ==> perm[p] < n
  }

  lemma TimesFacts(a: int, b: int)
    ensures IntProduct(a, b) == IntProduct(b, a) && IntProduct(a, 1) == a
  {
  }

  /** The product of the sizes of the first `p` dimensions of `perm`. */
  function Prefix(dims: seq<int>, perm: seq<nat>, p: nat): int
    requires p <= |perm| && forall q :: 0 <= q < |perm| ==> perm[q] < |dims|
  {
    if p == 0 then 1 else IntProduct(Prefix(dims, perm, p - 1), dims[perm[p - 1]])
  }

  /** The strides are those of a compact array whose dimensions, from the fastest to the slowest, are
      in the order `perm`. The stride of a dimension of size 1 does not matter. */
  ghost predicate Compact(dims: seq<int>, strides: seq<int>, perm: seq<nat>) {
    && |strides| == |dims| && Permutation(perm, |dims|)
    && forall p :: 0 <= p < |perm| && dims[perm[p]] > 1 ==> strides[perm[p]] == Prefix(dims, perm, p)
  }

  // ---------- the sort ----------

  /** The comparison of the sort: smaller strides first, and of equal strides the later dimension. */
  predicate Less(strides: seq<int>, a: nat, b: nat)
    requires a < |strides| && b < |strides|
  {
    strides[a] < strides[b] || (strides[a] == strides[b] && b < a)
  }

  ghost predicate Sorted(strides: seq<int>, perm: seq<nat>)
    requires forall p :: 0 <= p < |perm| ==> perm[p] < |strides|
  {
    forall p, q :: 0 <= p < q < |perm| ==> Less(strides, perm[p], perm[q])
  }

  /** absl::c_sort of the dimension numbers. */
  method SortByStride(strides: seq<int>) returns (perm: seq<nat>)
    ensures Permutation(perm, |strides|) && Sorted(strides, perm)
  {
    perm := [];
    for d := 0 to |strides|
      invariant Permutation(perm, d) && Sorted(strides, perm)
    {
      var i := 0;
      while i < |perm| && Less(strides, perm[i], d)
        invariant i <= |perm| && forall q :: 0 <= q < i ==> Less(strides, perm[q], d)
      {
        i := i + 1;
      }
      Inserted(strides, perm, d, i);
      perm := perm[..i] + [d] + perm[i..];
    }
  }

  lemma Inserted(strides: seq<int>, perm: seq<nat>, d: nat, i: nat)
    requires d < |strides| && Permutation(perm, d) && Sorted(strides, perm) && i <= |perm|
    requires forall q :: 0 <= q < i ==> Less(strides, perm[q], d)
    requires i < |perm| ==> !Less(strides, perm[i], d)
    ensures Permutation(perm[..i] + [d] + perm[i..], d + 1) && Sorted(strides, perm[..i] + [d] + perm[i..])
  {
    var r := perm[..i] + [d] + perm[i..];
    forall p | 0 <= p < |r| ensures r[p] == if p < i then perm[p] else if p == i then d else perm[p - 1] {
    }
    forall q | i <= q < |perm| ensures Less(strides, d, perm[q]) {
      if q > i {
        assert Less(strides, perm[i], perm[q]);
      }
    }
  }

  /** There is only one sorted order. */
  lemma {:induction false} SortedUnique(strides: seq<int>, perm: seq<nat>, perm': seq<nat>, p: nat)
    requires Permutation(perm, |strides|) && Permutation(perm', |strides|)
    requires Sorted(strides, perm) && Sorted(strides, perm') && p <= |strides|
    ensures perm[..p] == perm'[..p]
    decreases p
  {
    if p > 0 {
      SortedUnique(strides, perm, perm', p - 1);
      var a, b := perm[p - 1], perm'[p - 1];
      var i := IndexOf(perm', |strides|, a);
      var k := IndexOf(perm, |strides|, b);
      assert forall q :: 0 <= q < p - 1 ==> perm[q] == perm[..p - 1][q] == perm'[..p - 1][q] == perm'[q];
      assert a != b ==> i > p - 1 && k > p - 1;
      assert i > p - 1 ==> Less(strides, b, a);
      assert k > p - 1 ==> Less(strides, a, b);
      assert perm[..p] == perm[..p - 1] + [a] && perm'[..p] == perm'[..p - 1] + [b];
    }
  }

  /** The strides are compact in the order in which the sort puts the dimensions. */
  ghost predicate CompactWhenSorted(dims: seq<int>, strides: seq<int>) {
    exists perm :: Compact(dims, strides, perm) && Sorted(strides, perm)
  }

  /** StridesToLayout, for any sizes: it accepts exactly the strides that are compact in the sorted
      order, and returns this order. For arrays with elements these are the strides that are compact in
      any order. */
  method StridesToLayout(dims: seq<int>, strides: seq<int>) returns (r: Option<seq<nat>>)
    requires |dims| == |strides|
    ensures r.Some? <==> CompactWhenSorted(dims, strides)
    ensures Positive(dims) ==> (r.Some? <==> exists perm :: Compact(dims, strides, perm))
    ensures r.Some? ==> Compact(dims, strides, r.value) && Sorted(strides, r.value)
  {
    hide Sorted, Compact, Positive;
    var minorToMajor := SortByStride(strides);
    var stride := 1;
    for p := 0 to |minorToMajor|
      invariant stride == Prefix(dims, minorToMajor, p)
      invariant forall q :: 0 <= q < p ==> Fits(dims, strides, minorToMajor, q)
    {
      var d := minorToMajor[p];
      if dims[d] > 1 && strides[d] != stride {
        if Positive(dims) {
          NotCompact(dims, strides, minorToMajor, p);
        }
        NotWhenSorted(dims, strides, minorToMajor, p);
        return None;
      }
      stride := IntProduct(stride, dims[d]);
    }
    AllFit(dims, strides, minorToMajor);
    return Some(minorToMajor);
  }

  /** The stride of the `q`-th dimension is what it must be. */
  predicate Fits(dims: seq<int>, strides: seq<int>, perm: seq<nat>, q: nat)
    requires |dims| == |strides| && q < |perm| && forall p :: 0 <= p < |perm| ==> perm[p] < |dims|
  {
    dims[perm[q]] > 1 ==> strides[perm[q]] == Prefix(dims, perm, q)
  }

  lemma AllFit(dims: seq<int>, strides: seq<int>, perm: seq<nat>)
    requires |dims| == |strides| && Permutation(perm, |dims|)
             && forall q :: 0 <= q < |perm| ==> Fits(dims, strides, perm, q)
    ensures Compact(dims, strides, perm)
  {
    forall q | 0 <= q < |perm| && dims[perm[q]] > 1 ensures strides[perm[q]] == Prefix(dims, perm, q) {
      assert Fits(dims, strides, perm, q);
    }
  }

  lemma NotWhenSorted(dims: seq<int>, strides: seq<int>, sorted: seq<nat>, p: nat)
    requires |dims| == |strides| && Permutation(sorted, |dims|) && Sorted(strides, sorted)
    requires p < |sorted| && dims[sorted[p]] > 1 && strides[sorted[p]] != Prefix(dims, sorted, p)
    ensures !CompactWhenSorted(dims, strides)
  {
    forall perm | Permutation(perm, |strides|) && Sorted(strides, perm) ensures perm == sorted {
      SortedUnique(strides, perm, sorted, |strides|);
      assert perm == perm[..|strides|] && sorted == sorted[..|strides|];
    }
  }

  /** With elements missing, some strides are rejected that are compact in another order. */
  lemma EmptyRejected()
    ensures Compact([0, 2], [1, 0], [0, 1]) && !CompactWhenSorted([0, 2], [1, 0])
  {
    var dims, strides := [0, 2], [1, 0];
    TimesFacts(1, 0);
    assert Prefix(dims, [0, 1], 1) == IntProduct(Prefix(dims, [0, 1], 0), dims[0]) == 0;
    NotWhenSorted(dims, strides, [1, 0], 0);
  }

  /** The minor-to-major order that an imported tensor gets: without strides, or without elements, that of
      a row-major array. */
  method ImportedOrder(dims: seq<int>, strides: Option<seq<int>>) returns (r: Option<seq<nat>>)
    requires strides.Some? ==> |strides.value| == |dims|
    ensures strides.None? || 0 in dims ==> r == Some(RowMajorOrder(|dims|))
    ensures strides.Some? && Positive(dims) ==>
              && (r.Some? <==> exists perm :: Compact(dims, strides.value, perm))
              && (r.Some? ==> Compact(dims, strides.value, r.value))
  {
    if strides.Some? && 0 !in dims {
      r := StridesToLayout(dims, strides.value);
    } else {
      r := Some(RowMajorOrder(|dims|));
      assert Positive(dims) ==> 0 !in dims;
    }
  }

  /** From the last dimension to the first. */
  function RowMajorOrder(n: nat): (r: seq<nat>)
    ensures |r| == n && forall p :: 0 <= p < n ==> r[p] == n - 1 - p
  {
    seq(n, p requires 0 <= p < n => n - 1 - p)
  }

  // ---------- why sorting finds the order ----------

  lemma NotCompact(dims: seq<int>, strides: seq<int>, sorted: seq<nat>, p: nat)
    requires |dims| == |strides| && Positive(dims) && Permutation(sorted, |dims|) && Sorted(strides, sorted)
    requires p < |sorted| && dims[sorted[p]] > 1 && strides[sorted[p]] != Prefix(dims, sorted, p)
    ensures !exists perm :: Compact(dims, strides, perm)
  {
    forall perm ensures !Compact(dims, strides, perm) {
      if Compact(dims, strides, perm) {
        SortedCompact(dims, strides, perm, sorted);
        assert false;
      }
    }
  }

  lemma {:induction false} PrefixPositive(dims: seq<int>, perm: seq<nat>, p: nat)
    requires Positive(dims) && p <= |perm| && forall q :: 0 <= q < |perm| ==> perm[q] < |dims|
    ensures Prefix(dims, perm, p) > 0
  {
    if p > 0 {
      PrefixPositive(dims, perm, p - 1);
    }
  }

  /** In a compact order the strides of the dimensions that matter increase. */
  lemma {:induction false} PrefixGrows(dims: seq<int>, perm: seq<nat>, p: nat, q: nat)
    requires Positive(dims) && p < q <= |perm| && forall i :: 0 <= i < |perm| ==> perm[i] < |dims|
    ensures Prefix(dims, perm, q) >= IntProduct(Prefix(dims, perm, p), dims[perm[p]])
    decreases q
  {
    PrefixPositive(dims, perm, q - 1);
    if p < q - 1 {
      PrefixGrows(dims, perm, p, q - 1);
    }
    Larger(Prefix(dims, perm, q - 1), dims[perm[q - 1]]);
  }

  lemma Larger(a: int, b: int)
    requires a > 0 && b > 0
    ensures IntProduct(a, b) >= a && (b > 1 ==> IntProduct(a, b) > a)
  {
  }

  /** The dimensions of size greater than 1 in a set, and the product of their sizes. */
  ghost function Sizes(dims: seq<int>, s: set<nat>): int
    requires forall d :: d in s ==> d < |dims|
    decreases |s|
  {
    if s == {} then 1 else var d := Pick(s); IntProduct(dims[d], Sizes(dims, s - {d}))
  }

  lemma {:induction false} SizesRemove(dims: seq<int>, s: set<nat>, d: nat)
    requires (forall e :: e in s ==> e < |dims|) && d in s
    ensures Sizes(dims, s) == IntProduct(dims[d], Sizes(dims, s - {d}))
    decreases |s|
  {
    var e := Pick(s);
    if e != d {
      SizesRemove(dims, s - {e}, d);
      SizesRemove(dims, s - {d}, e);
      assert s - {e} - {d} == s - {d} - {e};
      Swap(dims[d], dims[e], Sizes(dims, s - {d} - {e}));
    }
  }

  lemma Swap(a: int, b: int, c: int)
    ensures IntProduct(a, IntProduct(b, c)) == IntProduct(b, IntProduct(a, c))
  {
  }

  /** The dimensions of size greater than 1 among the first `p`. */
  function Before(dims: seq<int>, perm: seq<nat>, p: nat): (r: set<nat>)
    requires p <= |perm| && forall q :: 0 <= q < |perm| ==> perm[q] < |dims|
    ensures forall d :: d in r ==> d < |dims|
  {
    set q | 0 <= q < p && dims[perm[q]] > 1 :: perm[q]
  }

  lemma BeforeStep(dims: seq<int>, perm: seq<nat>, p: nat)
    requires Permutation(perm, |dims|) && p < |perm|
    ensures perm[p] !in Before(dims, perm, p)
    ensures if dims[perm[p]] > 1
            then Before(dims, perm, p + 1) - {perm[p]} == Before(dims, perm, p) && perm[p] in Before(dims, perm, p + 1)
            else Before(dims, perm, p + 1) == Before(dims, perm, p)
  {
  }

  lemma {:induction false} PrefixSizes(dims: seq<int>, perm: seq<nat>, p: nat)
    requires Positive(dims) && Permutation(perm, |dims|) && p <= |perm|
    ensures Prefix(dims, perm, p) == Sizes(dims, Before(dims, perm, p))
  {
    if p > 0 {
      hide Before, IntProduct, Sizes;
      var d := perm[p - 1];
      PrefixSizes(dims, perm, p - 1);
      BeforeStep(dims, perm, p - 1);
      TimesFacts(Prefix(dims, perm, p - 1), dims[d]);
      if dims[d] > 1 {
        SizesRemove(dims, Before(dims, perm, p), d);
      }
    } else {
      assert Before(dims, perm, 0) == {};
    }
  }

  function Upto(n: nat): (s: set<nat>)
    ensures |s| == n && forall i: nat :: i in s <==> i < n
  {
    if n == 0 then {} else Upto(n - 1) + {n - 1}
  }

  /** n distinct numbers below n leave none out. */
  lemma IndexOf(perm: seq<nat>, n: nat, d: nat) returns (p: nat)
    requires Permutation(perm, n) && d < n
    ensures p < n && perm[p] == d
  {
    DistinctSize(perm);
    if d !in perm {
      SubsetSize(ToSet(perm), Upto(n) - {d});
      assert false;
    }
    p :| 0 <= p < n && perm[p] == d;
  }

  lemma {:induction false} DistinctSize(perm: seq<nat>)
    requires Distinct(perm)
    ensures |ToSet(perm)| == |perm|
  {
    if perm != [] {
      DistinctSize(perm[1..]);
      assert perm == [perm[0]] + perm[1..];
      assert ToSet(perm) == {perm[0]} + ToSet(perm[1..]);
    }
  }

  lemma {:induction false} SubsetSize(s: set<nat>, t: set<nat>)
    requires s <= t
    ensures |s| <= |t|
    decreases |s|
  {
    if s != {} {
      var d := Pick(s);
      SubsetSize(s - {d}, t - {d});
    }
  }

  /** In a compact order, a dimension that matters comes before another exactly when its stride is
      smaller. */
  lemma CompactOrder(dims: seq<int>, strides: seq<int>, perm: seq<nat>, p: nat, q: nat)
    requires Positive(dims) && Compact(dims, strides, perm) && p < q < |perm| && dims[perm[p]] > 1 && dims[perm[q]] > 1
    ensures strides[perm[p]] < strides[perm[q]]
  {
    PrefixPositive(dims, perm, p);
    PrefixGrows(dims, perm, p, q);
    Larger(Prefix(dims, perm, p), dims[perm[p]]);
  }

  /** If the strides are compact in some order, they are compact in the sorted order. */
  lemma SortedCompact(dims: seq<int>, strides: seq<int>, perm: seq<nat>, sorted: seq<nat>)
    requires Positive(dims) && Compact(dims, strides, perm)
    requires Permutation(sorted, |dims|) && Sorted(strides, sorted)
    ensures Compact(dims, strides, sorted)
  {
    forall p | 0 <= p < |sorted| && dims[sorted[p]] > 1 ensures strides[sorted[p]] == Prefix(dims, sorted, p) {
      var d := sorted[p];
      var k := IndexOf(perm, |dims|, d);
      SameBefore(dims, strides, perm, sorted, k, p);
      PrefixSizes(dims, perm, k);
      PrefixSizes(dims, sorted, p);
    }
  }

  lemma SameBefore(dims: seq<int>, strides: seq<int>, perm: seq<nat>, sorted: seq<nat>, k: nat, p: nat)
    requires Positive(dims) && Compact(dims, strides, perm)
    requires Permutation(sorted, |dims|) && Sorted(strides, sorted)
    requires k < |dims| && p < |dims| && perm[k] == sorted[p] && dims[sorted[p]] > 1
    ensures Before(dims, perm, k) == Before(dims, sorted, p)
  {
    forall e | e in Before(dims, perm, k) ensures e in Before(dims, sorted, p) {
      var q :| 0 <= q < k && dims[perm[q]] > 1 && perm[q] == e;
      CompactOrder(dims, strides, perm, q, k);
      var i := IndexOf(sorted, |dims|, e);
    }
    forall e | e in Before(dims, sorted, p) ensures e in Before(dims, perm, k) {
      var i :| 0 <= i < p && dims[sorted[i]] > 1 && sorted[i] == e;
      assert Less(strides, sorted[i], sorted[p]);
      var q := IndexOf(perm, |dims|, e);
      if q > k {
        CompactOrder(dims, strides, perm, k, q);
      }
    }
  }

  // ---------- what a compact order means for the elements ----------

  /** A multi-dimensional index. */
  predicate InRange(dims: seq<int>, index: seq<int>) {
    |index| == |dims| && forall d :: 0 <= d < |dims| ==> 0 <= index[d] < dims[d]
  }

  /** Where the element with an index lies. */
  function Offset(strides: seq<int>, index: seq<int>): int
    requires |index| == |strides|
  {
    if index == [] then 0
    else
      var n := |index| - 1;
      Offset(strides[..n], index[..n]) + IntProduct(index[n], strides[n])
  }

  /** The same sum over a set of dimensions. */
  ghost function OffsetOver(strides: seq<int>, index: seq<int>, s: set<nat>): int
    requires |index| == |strides| && forall d :: d in s ==> d < |index|
    decreases |s|
  {
    if s == {} then 0 else var d := Pick(s); IntProduct(index[d], strides[d]) + OffsetOver(strides, index, s - {d})
  }

  lemma {:induction false} OffsetOverRemove(strides: seq<int>, index: seq<int>, s: set<nat>, d: nat)
    requires |index| == |strides| && (forall e :: e in s ==> e < |index|) && d in s
    ensures OffsetOver(strides, index, s) == IntProduct(index[d], strides[d]) + OffsetOver(strides, index, s - {d})
    decreases |s|
  {
    hide IntProduct;
    var e := Pick(s);
    if e != d {
      OffsetOverRemove(strides, index, s - {e}, d);
      OffsetOverRemove(strides, index, s - {d}, e);
      assert s - {e} - {d} == s - {d} - {e};
    }
  }

  lemma {:induction false} OffsetOverAll(strides: seq<int>, index: seq<int>, n: nat)
    requires |index| == |strides| && n <= |index|
    ensures OffsetOver(strides, index, Upto(n)) == Offset(strides[..n], index[..n])
    decreases n
  {
    hide IntProduct, Offset, OffsetOver;
    OffsetNext(strides, index, n);
    if n == 0 {
      assert Upto(0) == {};
      NoOffset(strides, index);
    } else {
      OffsetOverRemove(strides, index, Upto(n), n - 1);
      OffsetOverAll(strides, index, n - 1);
      assert Upto(n) - {n - 1} == Upto(n - 1);
    }
  }

  lemma OffsetNext(strides: seq<int>, index: seq<int>, n: nat)
    requires |index| == |strides| && n <= |index|
    ensures Offset(strides[..n], index[..n])
         == if n == 0 then 0 else Offset(strides[..n - 1], index[..n - 1]) + IntProduct(index[n - 1], strides[n - 1])
  {
    hide IntProduct;
    if n > 0 {
      assert strides[..n][..n - 1] == strides[..n - 1] && index[..n][..n - 1] == index[..n - 1];
    }
  }

  lemma NoOffset(strides: seq<int>, index: seq<int>)
    requires |index| == |strides|
    ensures OffsetOver(strides, index, {}) == 0
  {
  }

  /** The offset as a number in the mixed radix of the sizes, the fastest dimension first. */
  function Digits(dims: seq<int>, perm: seq<nat>, index: seq<int>, p: nat): int
    requires p <= |perm| && |index| == |dims| && forall q :: 0 <= q < |perm| ==> perm[q] < |dims|
  {
    if p == 0 then 0
    else Digits(dims, perm, index, p - 1) + IntProduct(index[perm[p - 1]], Prefix(dims, perm, p - 1))
  }

  function First(perm: seq<nat>, p: nat): (r: set<nat>)
    requires p <= |perm|
    ensures forall d :: d in r ==> d in perm
  {
    ToSet(perm[..p])
  }

  lemma FirstStep(perm: seq<nat>, p: nat)
    requires p < |perm| && Distinct(perm)
    ensures First(perm, p + 1) == First(perm, p) + {perm[p]} && perm[p] !in First(perm, p)
    ensures First(perm, p + 1) - {perm[p]} == First(perm, p)
  {
  }

  lemma {:induction false} OffsetDigits(dims: seq<int>, strides: seq<int>, perm: seq<nat>, index: seq<int>, p: nat)
    requires Compact(dims, strides, perm) && InRange(dims, index) && p <= |perm|
    ensures OffsetOver(strides, index, First(perm, p)) == Digits(dims, perm, index, p)
    decreases p
  {
    hide IntProduct, First, Prefix;
    if p == 0 {
      assert First(perm, 0) == {} by {
        NoneFirst(perm);
      }
    } else {
      var d := perm[p - 1];
      OffsetDigits(dims, strides, perm, index, p - 1);
      FirstStep(perm, p - 1);
      OffsetOverRemove(strides, index, First(perm, p), d);
      if dims[d] <= 1 {
        ZeroTimes(strides[d], Prefix(dims, perm, p - 1));
      }
    }
  }

  lemma NoneFirst(perm: seq<nat>)
    ensures First(perm, 0) == {}
  {
  }

  lemma ZeroTimes(a: int, b: int)
    ensures IntProduct(0, a) == 0 == IntProduct(0, b)
  {
  }

  lemma OffsetIsDigits(dims: seq<int>, strides: seq<int>, perm: seq<nat>, index: seq<int>)
    requires Compact(dims, strides, perm) && InRange(dims, index)
    ensures Offset(strides, index) == Digits(dims, perm, index, |perm|)
  {
    OffsetDigits(dims, strides, perm, index, |perm|);
    OffsetOverAll(strides, index, |index|);
    assert strides[..|index|] == strides && index[..|index|] == index && perm[..|perm|] == perm;
    forall d: nat | d < |dims| ensures d in perm {
      var p := IndexOf(perm, |dims|, d);
    }
    assert First(perm, |perm|) == Upto(|dims|);
  }

  lemma {:induction false} DigitsBound(dims: seq<int>, perm: seq<nat>, index: seq<int>, p: nat)
    requires Positive(dims) && Permutation(perm, |dims|) && InRange(dims, index) && p <= |perm|
    ensures 0 <= Digits(dims, perm, index, p) < Prefix(dims, perm, p)
    decreases p
  {
    if p > 0 {
      hide IntProduct;
      var d := perm[p - 1];
      DigitsBound(dims, perm, index, p - 1);
      DigitStep(Digits(dims, perm, index, p - 1), index[d], dims[d], Prefix(dims, perm, p - 1));
    }
  }

  lemma DigitStep(low: int, x: int, size: int, unit: int)
    requires 0 <= low < unit && 0 <= x < size
    ensures 0 <= low + IntProduct(x, unit) < IntProduct(unit, size)
  {
    assert x * unit + unit == (x + 1) * unit <= size * unit;
  }

  /** The digits of a number determine the index. */
  lemma {:induction false} DigitsUnique(dims: seq<int>, perm: seq<nat>, a: seq<int>, b: seq<int>, p: nat)
    requires Positive(dims) && Permutation(perm, |dims|) && InRange(dims, a) && InRange(dims, b) && p <= |perm|
    requires Digits(dims, perm, a, p) == Digits(dims, perm, b, p)
    ensures forall q :: 0 <= q < p ==> a[perm[q]] == b[perm[q]]
    decreases p
  {
    if p > 0 {
      hide IntProduct;
      var d := perm[p - 1];
      DigitsBound(dims, perm, a, p - 1);
      DigitsBound(dims, perm, b, p - 1);
      LowUnique(Digits(dims, perm, a, p - 1), a[d], Digits(dims, perm, b, p - 1), b[d], Prefix(dims, perm, p - 1));
      DigitsUnique(dims, perm, a, b, p - 1);
    }
  }

  lemma LowUnique(low: int, x: int, low': int, x': int, unit: int)
    requires 0 <= low < unit && 0 <= low' < unit && low + IntProduct(x, unit) == low' + IntProduct(x', unit)
    ensures low == low' && x == x'
  {
    hide IntProduct;
    if x < x' {
      NextMultiple(x, x', unit);
    } else if x' < x {
      NextMultiple(x', x, unit);
    }
  }

  lemma NextMultiple(x: int, y: int, unit: int)
    requires x < y && unit > 0
    ensures IntProduct(x, unit) + unit <= IntProduct(y, unit)
  {
    assert (x + 1) * unit <= y * unit;
  }

  /** Every number below the product of the sizes has digits. */
  lemma {:induction false} DigitsExist(dims: seq<int>, perm: seq<nat>, n: int, p: nat) returns (index: seq<int>)
    requires Positive(dims) && Permutation(perm, |dims|) && p <= |perm| && 0 <= n < Prefix(dims, perm, p)
    ensures InRange(dims, index) && Digits(dims, perm, index, p) == n
    decreases p
  {
    if p == 0 {
      index := seq(|dims|, _ => 0);
    } else {
      var d, unit := perm[p - 1], Prefix(dims, perm, p - 1);
      PrefixPositive(dims, perm, p - 1);
      SplitNumber(n, dims[d], unit);
      index := DigitsExist(dims, perm, n % unit, p - 1);
      var low := index;
      index := index[d := n / unit];
      SameDigits(dims, perm, low, index, p - 1);
    }
  }

  lemma SplitNumber(n: int, size: int, unit: int)
    requires 0 <= n < IntProduct(unit, size) && unit > 0
    ensures 0 <= n % unit < unit && 0 <= n / unit < size && n == n % unit + IntProduct(n / unit, unit)
  {
    assert n == n % unit + (n / unit) * unit;
    if n / unit > size {
      NextMultiple(size, n / unit, unit);
    }
  }

  lemma {:induction false} SameDigits(dims: seq<int>, perm: seq<nat>, a: seq<int>, b: seq<int>, p: nat)
    requires Permutation(perm, |dims|) && |a| == |b| == |dims| && p < |perm|
    requires forall d :: 0 <= d < |dims| && d != perm[p] ==> a[d] == b[d]
    ensures Digits(dims, perm, a, p) == Digits(dims, perm, b, p)
  {
    SameDigitsUpTo(dims, perm, a, b, p, p);
  }

  lemma {:induction false} SameDigitsUpTo(dims: seq<int>, perm: seq<nat>, a: seq<int>, b: seq<int>, k: nat, p: nat)
    requires Permutation(perm, |dims|) && |a| == |b| == |dims| && p <= k < |perm|
    requires forall d :: 0 <= d < |dims| && d != perm[k] ==> a[d] == b[d]
    ensures Digits(dims, perm, a, p) == Digits(dims, perm, b, p)
    decreases p
  {
    if p > 0 {
      SameDigitsUpTo(dims, perm, a, b, k, p - 1);
      assert perm[p - 1] != perm[k];
    }
  }

  /** Some element lies at offset `n`. */
  ghost predicate Occupied(dims: seq<int>, strides: seq<int>, n: int)
    requires |dims| == |strides|
  {
    exists index :: InRange(dims, index) && Offset(strides, index) == n
  }

  /** Compact strides lay the elements out without gaps or overlaps: the offset map is a bijection
      from the indices to the numbers below the number of elements. */
  lemma CompactBijection(dims: seq<int>, strides: seq<int>, perm: seq<nat>)
    requires Positive(dims) && Compact(dims, strides, perm)
    ensures forall index | InRange(dims, index) :: 0 <= Offset(strides, index) < Prefix(dims, perm, |perm|)
    ensures forall a, b | InRange(dims, a) && InRange(dims, b) && Offset(strides, a) == Offset(strides, b) :: a == b
    ensures forall n :: 0 <= n < Prefix(dims, perm, |perm|) ==> Occupied(dims, strides, n)
  {
    hide Offset, Digits, Prefix;
    forall index | InRange(dims, index) ensures 0 <= Offset(strides, index) < Prefix(dims, perm, |perm|) {
      OffsetIsDigits(dims, strides, perm, index);
      DigitsBound(dims, perm, index, |perm|);
    }
    forall a, b | InRange(dims, a) && InRange(dims, b) && Offset(strides, a) == Offset(strides, b) ensures a == b {
      OffsetIsDigits(dims, strides, perm, a);
      OffsetIsDigits(dims, strides, perm, b);
      DigitsUnique(dims, perm, a, b, |perm|);
      forall d: nat | d < |dims| ensures a[d] == b[d] {
        var p := IndexOf(perm, |dims|, d);
      }
    }
    forall n | 0 <= n < Prefix(dims, perm, |perm|) ensures Occupied(dims, strides, n) {
      var index := DigitsExist(dims, perm, n, |perm|);
      OffsetIsDigits(dims, strides, perm, index);
    }
  }

  // ---------- row-major strides ----------

  /** The default strides: each is the product of the sizes of the later dimensions. */
  function RowMajorStride(dims: seq<int>, d: nat): int
    requires d < |dims|
    decreases |dims| - d
  {
    if d == |dims| - 1 then 1 else IntProduct(RowMajorStride(dims, d + 1), dims[d + 1])
  }

  lemma {:induction false} RowMajorDecreases(dims: seq<int>, a: nat, b: nat)
    requires Positive(dims) && a <= b < |dims|
    ensures RowMajorStride(dims, a) >= RowMajorStride(dims, b) > 0
    decreases |dims| - a
  {
    if a < b {
      RowMajorDecreases(dims, a + 1, b);
      Larger(RowMajorStride(dims, a + 1), dims[a + 1]);
    } else if a < |dims| - 1 {
      RowMajorDecreases(dims, a + 1, a + 1);
      Larger(RowMajorStride(dims, a + 1), dims[a + 1]);
    }
  }

  /** For row-major strides the sorted order is the reversed order of the dimensions, whatever sizes
      are 1: this is what the tie-break is for. */
  lemma RowMajorReversed(dims: seq<int>, strides: seq<int>, sorted: seq<nat>)
    requires Positive(dims) && |strides| == |dims|
             && forall d :: 0 <= d < |dims| ==> strides[d] == RowMajorStride(dims, d)
    requires Permutation(sorted, |dims|) && Sorted(strides, sorted)
    ensures forall p :: 0 <= p < |sorted| ==> sorted[p] == |dims| - 1 - p
  {
    forall p, q | 0 <= p < q < |sorted| ensures sorted[p] > sorted[q] {
      assert Less(strides, sorted[p], sorted[q]);
      if sorted[p] < sorted[q] {
        RowMajorDecreases(dims, sorted[p], sorted[q]);
      }
    }
    Descending(sorted, |dims|);
  }

  lemma {:induction false} Descending(perm: seq<nat>, n: nat)
    requires Permutation(perm, n) && forall p, q :: 0 <= p < q < n ==> perm[p] > perm[q]
    ensures forall p :: 0 <= p < n ==> perm[p] == n - 1 - p
    decreases n
  {
    if n > 0 {
      var p := IndexOf(perm, n, n - 1);
      assert perm[0] < n;
      forall q | 0 < q < n ensures perm[q] < n - 1 {
      }
      Descending(perm[1..], n - 1);
      forall q | 0 <= q < n ensures perm[q] == n - 1 - q {
        if q > 0 {
          assert perm[1..][q - 1] == perm[q];
        }
      }
    }
  }
}
