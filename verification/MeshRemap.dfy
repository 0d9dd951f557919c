/** Splitting and concatenating arrays along a mesh axis (jaxlib/pathways.cc): strides, the odometer
    that enumerates submesh offsets, and the interval maps of a RemapPlan. */
module MeshRemap {
  import opened Wrappers
  import opened Lists
  import opened Products

  function Product(xs: seq<int>): int {
    if xs == [] then 1 else xs[0] * Product(xs[1..])
  }

  lemma {:induction false} ProductPositive(xs: seq<int>)
    requires Positive(xs)
    ensures Product(xs) > 0
  {
    if xs != [] {
      ProductPositive(xs[1..]);
      TimesPositive(xs[0], Product(xs[1..]));
    }
  }

  lemma TimesPositive(a: int, b: int)
    requires a > 0 && b > 0
    ensures a * b > 0
  {
  }

  /** The row-major strides: each is the product of the sizes after it. */
  ghost predicate RowMajor(strides: seq<int>, sizes: seq<int>) {
    |strides| == |sizes| && forall i :: 0 <= i < |sizes| ==> strides[i] == Product(sizes[i + 1..])
  }

  /** GetStrides: pushed from the last axis on, then reversed. */
  method GetStrides(axisSizes: seq<int>) returns (r: Option<seq<int>>)
    ensures r.Some? <==> axisSizes != []
    ensures r.Some? ==> RowMajor(r.value, axisSizes)
  {
    if axisSizes == [] {
      return None;
    }
    var n := |axisSizes|;
    var strides := [1];
    assert axisSizes[n..] == [];
    for i := n - 1 downto 0
      invariant |strides| == n - i
      invariant forall k :: 0 <= k < |strides| ==> strides[k] == Product(axisSizes[n - k..])
    {
      assert axisSizes[i + 1..][0] == axisSizes[i + 1] && axisSizes[i + 1..][1..] == axisSizes[i + 2..];
      strides := strides + [axisSizes[i + 1] * strides[|strides| - 1]];
    }
    return Some(seq(n, i requires 0 <= i < n => strides[n - 1 - i]));
  }

  // ---------- the odometer ----------

  /** The number that a row-major coordinate stands for. */
  function Value(entry: seq<int>, sizes: seq<int>): int
    requires |entry| == |sizes|
  {
    if entry == [] then 0
    else
      var n := |entry| - 1;
      Value(entry[..n], sizes[..n]) * sizes[n] + entry[n]
  }

  predicate InRange(entry: seq<int>, sizes: seq<int>) {
    |entry| == |sizes| && forall i :: 0 <= i < |entry| ==> 0 <= entry[i] < sizes[i]
  }

  /** The state between two carries: the digit at `i` may be one too large. */
  predicate Carrying(entry: seq<int>, sizes: seq<int>, i: nat) {
    && |entry| == |sizes| && i < |entry|
    && (forall k :: 0 <= k < |entry| && k != i ==> 0 <= entry[k] < sizes[k])
    && 0 <= entry[i] <= sizes[i]
  }

  lemma {:induction false} ValueSuffix(a: seq<int>, b: seq<int>, sizes: seq<int>, i: nat)
    requires |a| == |b| == |sizes| && i <= |a|
    requires Value(a[..i], sizes[..i]) == Value(b[..i], sizes[..i]) && forall k :: i <= k < |a| ==> a[k] == b[k]
    ensures Value(a, sizes) == Value(b, sizes)
    decreases |a|
  {
    var n := |a|;
    if i == n {
      assert a[..n] == a && b[..n] == b && sizes[..n] == sizes;
    } else {
      assert a[..n - 1][..i] == a[..i] && b[..n - 1][..i] == b[..i] && sizes[..n - 1][..i] == sizes[..i];
      ValueSuffix(a[..n - 1], b[..n - 1], sizes[..n - 1], i);
    }
  }

  lemma ValuePrefix(entry: seq<int>, sizes: seq<int>, i: nat)
    requires |entry| == |sizes| && i < |entry|
    ensures Value(entry[..i + 1], sizes[..i + 1]) == Value(entry[..i], sizes[..i]) * sizes[i] + entry[i]
  {
    assert entry[..i + 1][..i] == entry[..i] && sizes[..i + 1][..i] == sizes[..i];
  }

  /** A carry does not change the value. */
  lemma CarryValue(entry: seq<int>, sizes: seq<int>, i: nat)
    requires |entry| == |sizes| && 0 < i < |entry| && entry[i] == sizes[i]
    ensures Value(entry[i := 0][i - 1 := entry[i - 1] + 1], sizes) == Value(entry, sizes)
  {
    var e1 := entry[i := 0][i - 1 := entry[i - 1] + 1];
    assert e1[..i - 1] == entry[..i - 1];
    ValuePrefix(entry, sizes, i - 1);
    ValuePrefix(e1, sizes, i - 1);
    ValuePrefix(entry, sizes, i);
    ValuePrefix(e1, sizes, i);
    var v := Value(entry[..i], sizes[..i]);
    assert Value(e1[..i], sizes[..i]) == v + 1;
    Distribute(v, sizes[i]);
    ValueSuffix(entry, e1, sizes, i + 1);
  }

  lemma Distribute(v: int, m: int)
    ensures (v + 1) * m == v * m + m
  {
  }

  lemma LastDigit(entry: seq<int>, sizes: seq<int>)
    requires |entry| == |sizes| > 0
    ensures var n := |entry| - 1;
            Value(entry[n := entry[n] + 1], sizes) == Value(entry, sizes) + 1
  {
    var n := |entry| - 1;
    assert entry[n := entry[n] + 1][..n] == entry[..n];
  }

  lemma {:induction false} ValueBounds(entry: seq<int>, sizes: seq<int>)
    requires InRange(entry, sizes)
    ensures 0 <= Value(entry, sizes) < Product(sizes)
  {
    if entry == [] {
    } else {
      var n := |entry| - 1;
      ValueBounds(entry[..n], sizes[..n]);
      ProductLast(sizes);
      Within(Value(entry[..n], sizes[..n]), Product(sizes[..n]), entry[n], sizes[n]);
    }
  }

  lemma Within(v: int, p: int, x: int, m: int)
    requires 0 <= v < p && 0 <= x < m
    ensures 0 <= v * m + x < p * m
  {
    assert v * m + x < (v + 1) * m <= p * m;
  }

  lemma {:induction false} ProductLast(xs: seq<int>)
    requires xs != []
    ensures Product(xs) == Product(xs[..|xs| - 1]) * xs[|xs| - 1]
  {
    if |xs| > 1 {
      ProductLast(xs[1..]);
      assert xs[..|xs| - 1][1..] == xs[1..][..|xs| - 2];
    } else {
      assert xs[1..] == [] && xs[..0] == [];
    }
  }

  lemma {:induction false} ZeroValue(entry: seq<int>, sizes: seq<int>)
    requires |entry| == |sizes| && forall i :: 0 <= i < |entry| ==> entry[i] == 0
    ensures Value(entry, sizes) == 0
  {
    if entry != [] {
      ZeroValue(entry[..|entry| - 1], sizes[..|entry| - 1]);
    }
  }

  /** An entry whose first digit has overflowed stands for the product of the sizes. */
  lemma {:induction false} Overflow(entry: seq<int>, sizes: seq<int>)
    requires |entry| == |sizes| > 0 && entry[0] == sizes[0] && forall i :: 0 < i < |entry| ==> entry[i] >= 0
    requires Positive(sizes)
    ensures Value(entry, sizes) >= Product(sizes)
  {
    var n := |entry| - 1;
    ProductLast(sizes);
    if n > 0 {
      Overflow(entry[..n], sizes[..n]);
      ScaleUp(Product(sizes[..n]), Value(entry[..n], sizes[..n]), sizes[n]);
    } else {
      assert entry[..0] == [] && sizes[..0] == [];
    }
  }

  lemma ScaleUp(a: int, b: int, m: int)
    requires a <= b && m >= 0
    ensures a * m <= b * m
  {
  }

  /** The inner loop: the dot product of strides and coordinates is the value times the last stride. */
  ghost predicate Chained(strides: seq<int>, sizes: seq<int>) {
    |sizes| <= |strides| && forall i :: 0 < i < |sizes| ==> strides[i - 1] == sizes[i] * strides[i]
  }

  lemma OffsetStep(v: int, size: int, x: int, before: int, stride: int)
    requires before == size * stride
    ensures v * before + stride * x == (v * size + x) * stride
  {
  }

  method Offset(sizes: seq<int>, entry: array<int>, strides: seq<int>) returns (offset: int)
    requires entry.Length == |sizes| > 0 && Chained(strides, sizes)
    ensures offset == Value(entry[..], sizes) * strides[|sizes| - 1]
  {
    offset := 0;
    for i := 0 to |sizes|
      invariant offset == if i == 0 then 0 else Value(entry[..i], sizes[..i]) * strides[i - 1]
    {
      assert entry[..i] == entry[..][..i] && entry[..i + 1] == entry[..][..i + 1];
      ValuePrefix(entry[..], sizes, i);
      if i > 0 {
        OffsetStep(Value(entry[..i], sizes[..i]), sizes[i], entry[i], strides[i - 1], strides[i]);
      }
      offset := offset + strides[i] * entry[i];
    }
    assert entry[..|sizes|] == entry[..] && sizes[..|sizes|] == sizes;
  }

  /** The offsets from the `from`-th on. */
  function OffsetsFrom(from: nat, count: nat, stride: int): (r: seq<int>)
    requires from <= count
    ensures |r| == count - from && forall k :: 0 <= k < |r| ==> r[k] == (from + k) * stride
  {
    seq(count - from, k requires 0 <= k < count - from => (from + k) * stride)
  }

  /** PopulateSubmeshOffsets: an odometer in an array. From an entry that stands for `v` on it
      terminates after the last coordinate, with the offsets v, v + 1, ... times the last stride, one
      for each coordinate. */
  method PopulateSubmeshOffsets(sizes: seq<int>, entry: array<int>, strides: seq<int>, offsets: seq<int>)
    returns (r: seq<int>)
    requires entry.Length == |sizes| > 0 && Positive(sizes) && Chained(strides, sizes) && InRange(entry[..], sizes)
    modifies entry
    ensures 0 <= old(Value(entry[..], sizes)) < Product(sizes)
    ensures r == offsets + OffsetsFrom(old(Value(entry[..], sizes)), Product(sizes), strides[|sizes| - 1])
    decreases Product(sizes) - Value(entry[..], sizes)
  {
    hide Value, Product;
    ValueBounds(entry[..], sizes);
    ghost var v, stride, count := Value(entry[..], sizes), strides[|sizes| - 1], Product(sizes);
    var offset := Offset(sizes, entry, strides);
    r := offsets + [offset];
    var i := entry.Length - 1;
    LastDigit(entry[..], sizes);
    ghost var was := entry[..];
    entry[i] := entry[i] + 1;
    assert entry[..] == was[i := was[i] + 1];
    while i > 0 && entry[i] >= sizes[i]
      invariant 0 <= i < entry.Length && Carrying(entry[..], sizes, i)
      invariant Value(entry[..], sizes) == v + 1
    {
      CarryValue(entry[..], sizes, i);
      ghost var before := entry[..];
      entry[i] := 0;
      entry[i - 1] := entry[i - 1] + 1;
      assert entry[..] == before[i := 0][i - 1 := before[i - 1] + 1];
      i := i - 1;
    }
    if entry[0] < sizes[0] {
      assert InRange(entry[..], sizes);
      ValueBounds(entry[..], sizes);
      r := PopulateSubmeshOffsets(sizes, entry, strides, r);
      assert OffsetsFrom(v, count, stride) == [v * stride] + OffsetsFrom(v + 1, count, stride);
    } else {
      Overflow(entry[..], sizes);
      assert OffsetsFrom(v, count, stride) == [v * stride];
    }
  }

  /** GetSubmeshOffsets: one offset for every coordinate of the axes before the split one. */
  method GetSubmeshOffsets(axis: nat, sizes: seq<int>, strides: seq<int>) returns (offsets: seq<int>)
    requires axis < |sizes| && Positive(sizes) && RowMajor(strides, sizes)
    ensures Product(sizes[..axis]) > 0
    ensures offsets == OffsetsFrom(0, Product(sizes[..axis]), sizes[axis] * strides[axis])
  {
    ProductPositive(sizes[..axis]);
    if axis == 0 {
      assert sizes[..0] == [];
      return [0];
    }
    var entry := new int[axis](_ => 0);
    ZeroValue(entry[..], sizes[..axis]);
    StridesChained(sizes, strides, axis);
    offsets := PopulateSubmeshOffsets(sizes[..axis], entry, strides, []);
    assert [] + offsets == offsets;
  }

  lemma StridesChained(sizes: seq<int>, strides: seq<int>, axis: nat)
    requires axis <= |sizes| && RowMajor(strides, sizes)
    ensures Chained(strides, sizes[..axis])
    ensures 0 < axis < |sizes| ==> strides[axis - 1] == sizes[axis] * strides[axis]
  {
  }

  // ---------- the interval maps ----------

  /** A half-open interval of shards, with step 1. */
  datatype Interval = Interval(start: int, end: int)

  datatype Mapping = Mapping(from: seq<Interval>, to: seq<Interval>)

  /** PopulateRemapMappings: one pair of intervals for every submesh offset. */
  method PopulateRemapMappings(offsets: seq<int>, size: nat, stride: int, start: nat)
    returns (derived: seq<Interval>, contiguous: seq<Interval>)
    ensures |derived| == |contiguous| == |offsets|
    ensures forall k :: 0 <= k < |offsets| ==>
              derived[k] == Interval(offsets[k] + start * stride, offsets[k] + start * stride + size * stride)
    ensures forall k :: 0 <= k < |offsets| ==>
              contiguous[k] == Interval(k * (size * stride), k * (size * stride) + size * stride)
  {
    derived, contiguous := [], [];
    var incrementing := 0;
    for k := 0 to |offsets|
      invariant |derived| == |contiguous| == k && incrementing == k * (size * stride)
      invariant forall i :: 0 <= i < k ==>
                  derived[i] == Interval(offsets[i] + start * stride, offsets[i] + start * stride + size * stride)
      invariant forall i :: 0 <= i < k ==>
                  contiguous[i] == Interval(i * (size * stride), i * (size * stride) + size * stride)
    {
      var shards := size * stride;
      var calculated := offsets[k] + start * stride;
      derived := derived + [Interval(calculated, calculated + shards)];
      contiguous := contiguous + [Interval(incrementing, incrementing + shards)];
      Distribute(k, shards);
      incrementing := incrementing + shards;
    }
  }

  /** Where a mapping sends shard `d`. */
  ghost predicate Sends(mp: Mapping, d: int, p: int) {
    |mp.from| == |mp.to| &&
    exists k :: 0 <= k < |mp.from| && mp.from[k].start <= d < mp.from[k].end
        && p == mp.to[k].start + (d - mp.from[k].start)
  }

  /** The mesh as the split sees it: `rows` coordinates before the axis, the axis, and `stride`
      shards behind every coordinate of the axis. */
  datatype Mesh = Mesh(rows: nat, axis: nat, stride: nat)

  /** A section of the axis: submesh number i has the coordinates from sections[i - 1] to
      sections[i]. */
  function SectionStart(sections: seq<nat>, i: nat): nat
    requires i < |sections|
  {
    if i == 0 then 0 else sections[i - 1]
  }

  predicate Sections(sections: seq<nat>, axis: nat) {
    && sections != [] && sections[|sections| - 1] == axis
    && forall i, k :: 0 <= i < k < |sections| ==> sections[i] <= sections[k]
  }

  /** The mapping that the split builds for a submesh with coordinates `start` to `start + size`. */
  ghost predicate SplitMapping(m: Mesh, start: nat, size: nat, mp: Mapping) {
    && |mp.from| == |mp.to| == m.rows
    && forall k :: 0 <= k < m.rows ==>
         && mp.from[k] == Interval(IntProduct(k, IntProduct(m.axis, m.stride)) + IntProduct(start, m.stride),
                                   IntProduct(k, IntProduct(m.axis, m.stride)) + IntProduct(start, m.stride)
                                   + IntProduct(size, m.stride))
         && mp.to[k] == Interval(IntProduct(k, IntProduct(size, m.stride)),
                                 IntProduct(k, IntProduct(size, m.stride)) + IntProduct(size, m.stride))
  }

  /** Row-major position of the shard with the coordinates k, x, y in a mesh with axis size `axis`. */
  function Position(axis: nat, stride: nat, k: nat, x: nat, y: nat): int {
    IntProduct(IntProduct(k, axis) + x, stride) + y
  }

  predicate Coordinates(rows: nat, axis: nat, stride: nat, k: nat, x: nat, y: nat) {
    k < rows && x < axis && y < stride
  }

  lemma Regroup(k: int, axis: int, stride: int, x: int)
    ensures IntProduct(IntProduct(k, axis) + x, stride)
            == IntProduct(k, IntProduct(axis, stride)) + IntProduct(x, stride)
  {
  }

  lemma NonEmpty(rows: nat, axis: nat, stride: nat)
    requires 0 < rows * axis * stride
    ensures axis > 0 && stride > 0
  {
  }

  /** Every shard has exactly one coordinate. */
  lemma CoordinatesOf(m: Mesh, d: nat) returns (k: nat, x: nat, y: nat)
    requires d < m.rows * m.axis * m.stride
    ensures Coordinates(m.rows, m.axis, m.stride, k, x, y) && d == Position(m.axis, m.stride, k, x, y)
  {
    NonEmpty(m.rows, m.axis, m.stride);
    assert d < IntProduct(IntProduct(m.rows, m.axis), m.stride);
    hide IntProduct;
    var q;
    q, y := Quotient(d, IntProduct(m.rows, m.axis), m.stride);
    k, x := Quotient(q, m.rows, m.axis);
  }

  lemma Quotient(d: nat, a: int, b: nat) returns (q: nat, r: nat)
    requires d < IntProduct(a, b) && b > 0
    ensures q < a && r < b && d == IntProduct(q, b) + r
  {
    q, r := d / b, d % b;
    if q >= a {
      ScaleUp(a, q, b);
      assert false;
    }
  }

  lemma DivisionUnique(q: int, r: int, q': int, r': int, m: int)
    requires IntProduct(q, m) + r == IntProduct(q', m) + r' && 0 <= r < m && 0 <= r' < m
    ensures q == q' && r == r'
  {
    if q < q' {
      ScaleUp(q + 1, q', m);
      Distribute(q, m);
      assert false;
    }
    if q' < q {
      ScaleUp(q' + 1, q, m);
      Distribute(q', m);
      assert false;
    }
  }

  lemma CoordinatesUnique(axis: nat, stride: nat, k: nat, x: nat, y: nat, k': nat, x': nat, y': nat)
    requires x < axis && y < stride && x' < axis && y' < stride
    requires Position(axis, stride, k, x, y) == Position(axis, stride, k', x', y')
    ensures k == k' && x == x' && y == y'
  {
    hide IntProduct;
    DivisionUnique(IntProduct(k, axis) + x, y, IntProduct(k', axis) + x', y', stride);
    DivisionUnique(k, x, k', x', axis);
  }

  /** Row `k` of the mapping of a submesh sends the shards of that row whose coordinate on the axis
      lies in the submesh, each to its row-major position there. */
  lemma RowSends(m: Mesh, start: nat, size: nat, mp: Mapping, k: nat, x: nat, y: nat)
    requires SplitMapping(m, start, size, mp) && start + size <= m.axis
             && Coordinates(m.rows, m.axis, m.stride, k, x, y)
    requires start <= x < start + size
    ensures var d := Position(m.axis, m.stride, k, x, y);
            && mp.from[k].start <= d < mp.from[k].end
            && Position(size, m.stride, k, x - start, y) == mp.to[k].start + (d - mp.from[k].start)
  {
    hide IntProduct;
    Regroup(k, m.axis, m.stride, x);
    Regroup(k, size, m.stride, x - start);
    Inside(start, size, m.stride, x, y);
  }

  /** The coordinates of a shard in interval `i`. */
  lemma RowCoordinates(m: Mesh, start: nat, size: nat, mp: Mapping, i: nat, d: int) returns (x: nat, y: nat)
    requires SplitMapping(m, start, size, mp) && i < m.rows && mp.from[i].start <= d < mp.from[i].end
    ensures start <= x < start + size && y < m.stride && d == Position(m.axis, m.stride, i, x, y)
  {
    var off := d - mp.from[i].start;
    var q;
    q, y := Quotient(off, size, m.stride);
    x := start + q;
    Regroup(i, m.axis, m.stride, x);
    assert IntProduct(start + q, m.stride) == IntProduct(start, m.stride) + IntProduct(q, m.stride);
  }

  /** The mapping of a submesh sends exactly its own shards, each to its row-major position in the
      submesh. */
  lemma SplitSends(m: Mesh, start: nat, size: nat, mp: Mapping, k: nat, x: nat, y: nat, p: int)
    requires SplitMapping(m, start, size, mp) && start + size <= m.axis
             && Coordinates(m.rows, m.axis, m.stride, k, x, y)
    ensures Sends(mp, Position(m.axis, m.stride, k, x, y), p)
       <==> start <= x < start + size && p == Position(size, m.stride, k, x - start, y)
  {
    hide IntProduct, Position;
    var d := Position(m.axis, m.stride, k, x, y);
    if start <= x < start + size {
      RowSends(m, start, size, mp, k, x, y);
    }
    if Sends(mp, d, p) {
      var i :| 0 <= i < |mp.from| && mp.from[i].start <= d < mp.from[i].end
          && p == mp.to[i].start + (d - mp.from[i].start);
      var x', y' := RowCoordinates(m, start, size, mp, i, d);
      CoordinatesUnique(m.axis, m.stride, k, x, y, i, x', y');
    }
  }

  lemma Inside(start: nat, size: nat, stride: nat, x: nat, y: nat)
    requires start <= x < start + size && y < stride
    ensures IntProduct(start, stride) <= IntProduct(x, stride) + y
    ensures IntProduct(x, stride) + y < IntProduct(start, stride) + IntProduct(size, stride)
    ensures IntProduct(x - start, stride) == IntProduct(x, stride) - IntProduct(start, stride)
  {
    ScaleUp(start, x, stride);
    ScaleUp(x + 1, start + size, stride);
    assert (x + 1) * stride == x * stride + stride;
    assert (start + size) * stride == start * stride + size * stride;
    assert (x - start) * stride == x * stride - start * stride;
  }

  /** The mappings for all sections. */
  ghost predicate SplitMappings(m: Mesh, sections: seq<nat>, mps: seq<Mapping>) {
    && Sections(sections, m.axis) && |mps| == |sections|
    && forall i :: 0 <= i < |sections| ==> SectionMapping(m, sections, i, mps[i])
  }

  ghost predicate SectionMapping(m: Mesh, sections: seq<nat>, i: nat, mp: Mapping)
    requires i < |sections|
  {
    var start := SectionStart(sections, i);
    start <= sections[i] && SplitMapping(m, start, sections[i] - start, mp)
  }

  /** The section that a coordinate of the axis lies in. */
  lemma {:induction false} SectionOf(sections: seq<nat>, axis: nat, x: nat, n: nat) returns (i: nat)
    requires Sections(sections, axis) && n < |sections| && x < sections[n]
    ensures i <= n && SectionStart(sections, i) <= x < sections[i]
    decreases n
  {
    if n == 0 || sections[n - 1] <= x {
      i := n;
    } else {
      i := SectionOf(sections, axis, x, n - 1);
    }
  }

  lemma SectionUnique(sections: seq<nat>, axis: nat, x: nat, i: nat, k: nat)
    requires Sections(sections, axis) && i < |sections| && k < |sections|
    requires SectionStart(sections, i) <= x < sections[i] && SectionStart(sections, k) <= x < sections[k]
    ensures i == k
  {
  }

  lemma SectionWithin(sections: seq<nat>, axis: nat, i: nat)
    requires Sections(sections, axis) && i < |sections| && SectionStart(sections, i) <= sections[i]
    ensures sections[i] <= axis
  {
  }

  /** The split partitions the mesh: every shard is sent by exactly one of the mappings, to exactly
      one position. */
  lemma SplitPartitions(m: Mesh, sections: seq<nat>, mps: seq<Mapping>, d: nat)
    returns (i: nat, p: int)
    requires SplitMappings(m, sections, mps) && d < m.rows * m.axis * m.stride
    ensures i < |mps| && Sends(mps[i], d, p)
    ensures forall i', p' :: 0 <= i' < |mps| && Sends(mps[i'], d, p') ==> i' == i && p' == p
  {
    hide IntProduct, Position, SplitMapping, Sends;
    var k, x, y := CoordinatesOf(m, d);
    i := SectionOf(sections, m.axis, x, |sections| - 1);
    p := Position(sections[i] - SectionStart(sections, i), m.stride, k, x - SectionStart(sections, i), y);
    SectionSends(m, sections, mps, i, k, x, y, p);
    forall i', p' | 0 <= i' < |mps| && Sends(mps[i'], d, p') ensures i' == i && p' == p {
      SectionSends(m, sections, mps, i', k, x, y, p');
      SectionUnique(sections, m.axis, x, i, i');
    }
  }

  lemma SectionSends(m: Mesh, sections: seq<nat>, mps: seq<Mapping>, i: nat, k: nat, x: nat, y: nat, p: int)
    requires SplitMappings(m, sections, mps) && i < |sections| && Coordinates(m.rows, m.axis, m.stride, k, x, y)
    ensures SectionStart(sections, i) <= sections[i]
    ensures Sends(mps[i], Position(m.axis, m.stride, k, x, y), p)
       <==> SectionStart(sections, i) <= x < sections[i]
            && p == Position(sections[i] - SectionStart(sections, i), m.stride, k, x - SectionStart(sections, i), y)
  {
    hide IntProduct, Position, SplitMapping, Sends;
    SectionWithin(sections, m.axis, i);
    SplitSends(m, SectionStart(sections, i), sections[i] - SectionStart(sections, i), mps[i], k, x, y, p);
  }

  /** Every position of a submesh receives exactly one shard. */
  lemma SplitFills(m: Mesh, start: nat, size: nat, mp: Mapping, p: nat) returns (d: nat)
    requires SplitMapping(m, start, size, mp) && start + size <= m.axis && p < m.rows * size * m.stride
    ensures d < m.rows * m.axis * m.stride && Sends(mp, d, p)
    ensures forall d': nat :: d' < m.rows * m.axis * m.stride && Sends(mp, d', p) ==> d' == d
  {
    hide IntProduct, Position, SplitMapping, Sends;
    var k, x, y := CoordinatesOf(Mesh(m.rows, size, m.stride), p);
    PositionBound(m, k, start + x, y);
    d := Position(m.axis, m.stride, k, start + x, y);
    SplitSends(m, start, size, mp, k, start + x, y, p);
    forall d': nat | d' < m.rows * m.axis * m.stride && Sends(mp, d', p) ensures d' == d {
      var k', x', y' := CoordinatesOf(m, d');
      SplitSends(m, start, size, mp, k', x', y', p);
      CoordinatesUnique(size, m.stride, k, x, y, k', x' - start, y');
    }
  }

  lemma PositionBound(m: Mesh, k: nat, x: nat, y: nat)
    requires Coordinates(m.rows, m.axis, m.stride, k, x, y)
    ensures 0 <= Position(m.axis, m.stride, k, x, y) < m.rows * m.axis * m.stride
  {
    Within(k, m.rows, x, m.axis);
    Within(k * m.axis + x, m.rows * m.axis, y, m.stride);
  }

  /** The mapping of the concatenation: the same intervals with the roles exchanged. */
  function Inverse(mp: Mapping): Mapping {
    Mapping(mp.to, mp.from)
  }

  function Inverses(mps: seq<Mapping>): (r: seq<Mapping>)
    ensures |r| == |mps| && forall i :: 0 <= i < |mps| ==> r[i] == Inverse(mps[i])
  {
    seq(|mps|, i requires 0 <= i < |mps| => Inverse(mps[i]))
  }

  /** The mesh of the given axis sizes, as a split of one axis sees it. */
  function MeshOf(sizes: seq<int>, axis: nat): (m: Mesh)
    requires axis < |sizes| && Positive(sizes)
    ensures m.rows * m.axis * m.stride == Product(sizes)
  {
    ProductPositive(sizes[..axis]);
    ProductPositive(sizes[axis + 1..]);
    ProductSplit(sizes, axis);
    Mesh(Product(sizes[..axis]), sizes[axis], Product(sizes[axis + 1..]))
  }

  /** The loop over the submeshes in the split: its mappings are those of the sections. */
  method SplitByMeshAxis(sizes: seq<int>, axis: nat, sections: seq<nat>) returns (mps: seq<Mapping>)
    requires axis < |sizes| && Positive(sizes) && Sections(sections, sizes[axis])
    ensures SplitMappings(MeshOf(sizes, axis), sections, mps)
  {
    hide Product;
    ghost var m := MeshOf(sizes, axis);
    var strides := GetStrides(sizes);
    var offsets := GetSubmeshOffsets(axis, sizes, strides.value);
    mps := [];
    for i := 0 to |sections|
      invariant |mps| == i && forall k :: 0 <= k < i ==> SectionMapping(m, sections, k, mps[k])
    {
      var size: int, start := sections[i], 0;
      if i > 0 {
        assert sections[i - 1] <= sections[i];
        size := size - sections[i - 1];
        start := sections[i - 1];
      }
      var derived, contiguous := PopulateRemapMappings(offsets, size, strides.value[axis], start);
      mps := mps + [Mapping(derived, contiguous)];
      BuiltMapping(m, offsets, size, start, mps[i]);
    }
  }

  /** The loop over the inputs in the concatenation, with the loop over the offsets inside: its
      mappings are those of the split, the other way round. */
  method ConcatenateByMeshAxis(sizes: seq<int>, axis: nat, sections: seq<nat>) returns (mps: seq<Mapping>)
    requires axis < |sizes| && Positive(sizes) && Sections(sections, sizes[axis])
    ensures SplitMappings(MeshOf(sizes, axis), sections, Inverses(mps))
  {
    hide Product;
    ghost var m := MeshOf(sizes, axis);
    var strides := GetStrides(sizes);
    var offsets := GetSubmeshOffsets(axis, sizes, strides.value);
    var stride := strides.value[axis];
    mps := [];
    for i := 0 to |sections|
      invariant |mps| == i && forall k :: 0 <= k < i ==> SectionMapping(m, sections, k, Inverse(mps[k]))
    {
      var size: int, start := sections[i], 0;
      if i > 0 {
        assert sections[i - 1] <= sections[i];
        size := size - sections[i - 1];
        start := sections[i - 1];
      }
      var mp := ConcatenateOne(offsets, size, stride, start);
      mps := mps + [mp];
      BuiltMapping(m, offsets, size, start, Inverse(mp));
    }
  }

  /** The intervals of one input of the concatenation. */
  method ConcatenateOne(offsets: seq<int>, size: nat, stride: int, start: nat) returns (mp: Mapping)
    ensures |mp.from| == |mp.to| == |offsets|
    ensures forall k :: 0 <= k < |offsets| ==>
              mp.to[k] == Interval(offsets[k] + start * stride, offsets[k] + start * stride + size * stride)
    ensures forall k :: 0 <= k < |offsets| ==>
              mp.from[k] == Interval(k * (size * stride), k * (size * stride) + size * stride)
  {
    mp := Mapping([], []);
    var fromArray := 0;
    for k := 0 to |offsets|
      invariant |mp.from| == |mp.to| == k && fromArray == k * (size * stride)
      invariant forall i :: 0 <= i < k ==>
                  mp.to[i] == Interval(offsets[i] + start * stride, offsets[i] + start * stride + size * stride)
      invariant forall i :: 0 <= i < k ==>
                  mp.from[i] == Interval(i * (size * stride), i * (size * stride) + size * stride)
    {
      var shards := size * stride;
      var toArray := offsets[k] + start * stride;
      mp := Mapping(mp.from + [Interval(fromArray, fromArray + shards)], mp.to + [Interval(toArray, toArray + shards)]);
      Distribute(k, shards);
      fromArray := fromArray + shards;
    }
  }

  /** Splitting and concatenating along the same sections undo each other: shard `d` of the mesh goes
      to position `p` of a submesh exactly if the concatenation takes it back from there. */
  lemma ConcatenateUndoesSplit(m: Mesh, sections: seq<nat>, split: seq<Mapping>, joined: seq<Mapping>, i: nat, d: int,
                               p: int)
    requires SplitMappings(m, sections, split) && SplitMappings(m, sections, Inverses(joined)) && i < |sections|
    ensures Sends(split[i], d, p) <==> Sends(joined[i], p, d)
  {
  }

  lemma BuiltMapping(m: Mesh, offsets: seq<int>, size: nat, start: nat, mp: Mapping)
    requires offsets == OffsetsFrom(0, m.rows, m.axis * m.stride) && |mp.from| == |mp.to| == |offsets|
    requires forall k :: 0 <= k < |offsets| ==>
               mp.from[k] == Interval(offsets[k] + start * m.stride, offsets[k] + start * m.stride + size * m.stride)
    requires forall k :: 0 <= k < |offsets| ==>
               mp.to[k] == Interval(k * (size * m.stride), k * (size * m.stride) + size * m.stride)
    ensures SplitMapping(m, start, size, mp)
  {
  }

  lemma {:induction false} ProductSplit(xs: seq<int>, i: nat)
    requires i < |xs|
    ensures Product(xs[..i]) * xs[i] * Product(xs[i + 1..]) == Product(xs)
  {
    if i == 0 {
      assert xs[..0] == [];
    } else {
      ProductSplit(xs[1..], i - 1);
      assert xs[..i][1..] == xs[1..][..i - 1] && xs[1..][i..] == xs[i + 1..];
      Associate(xs[0], Product(xs[1..][..i - 1]), xs[i], Product(xs[i + 1..]));
    }
  }

  lemma Associate(a: int, b: int, c: int, d: int)
    ensures a * b * c * d == a * (b * c * d)
  {
  }
}
