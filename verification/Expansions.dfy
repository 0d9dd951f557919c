/** First-order expansions of real numbers: a value near a point is the value there plus the step times
    the tangent, up to a remainder that is bounded by the square of the step. */
module Expansions {
  import opened Products

  function Abs(x: real): real {
    if x < 0.0 then -x else x
  }

  /** `y` is `x + h * dx` up to `b * h^2`. */
  predicate Expands(x: real, dx: real, y: real, h: real, b: real) {
    Abs(y - x - RealProduct(h, dx)) <= RealProduct(b, RealProduct(h, h))
  }

  // ---------- products ----------

  lemma ProductUp(x: real, y: real, x1: real, y1: real)
    requires 0.0 <= x <= x1 && 0.0 <= y <= y1
    ensures 0.0 <= RealProduct(x, y) <= RealProduct(x1, y1)
  {
    assert 0.0 <= x * y <= x1 * y;
    assert x1 * y <= x1 * y1;
  }

  lemma AbsProduct(x: real, y: real)
    ensures Abs(RealProduct(x, y)) == RealProduct(Abs(x), Abs(y))
  {
  }

  lemma AbsBound(x: real, y: real, x1: real, y1: real)
    requires Abs(x) <= x1 && Abs(y) <= y1
    ensures Abs(RealProduct(x, y)) <= RealProduct(x1, y1)
  {
    hide RealProduct;
    AbsProduct(x, y);
    ProductUp(Abs(x), Abs(y), x1, y1);
  }

  lemma Distribute(x: real, y: real, z: real)
    ensures RealProduct(x + y, z) == RealProduct(x, z) + RealProduct(y, z)
    ensures RealProduct(z, x + y) == RealProduct(z, x) + RealProduct(z, y)
  {
  }

  lemma Regroup(x: real, y: real, z: real)
    ensures RealProduct(RealProduct(x, y), z) == RealProduct(RealProduct(x, z), y)
    ensures RealProduct(x, y) == RealProduct(y, x)
    ensures RealProduct(1.0, x) == x && RealProduct(0.0, x) == 0.0
  {
    assert x * y * z == x * z * y;
  }

  lemma Square(h: real)
    ensures 0.0 <= RealProduct(h, h) == RealProduct(Abs(h), Abs(h))
    ensures Abs(h) <= 1.0 ==> RealProduct(h, h) <= Abs(h)
  {
    AbsProduct(h, h);
    if Abs(h) <= 1.0 {
      ProductUp(Abs(h), Abs(h), 1.0, Abs(h));
      Regroup(Abs(h), 1.0, 1.0);
    }
  }

  // ---------- expansions ----------

  lemma ExpandsExactly(x: real, dx: real, h: real, b: real)
    requires 0.0 <= b
    ensures Expands(x, dx, x + RealProduct(h, dx), h, b)
  {
    hide RealProduct;
    Square(h);
    ProductUp(0.0, 0.0, b, RealProduct(h, h));
  }

  lemma ExpandsMore(x: real, dx: real, y: real, h: real, b: real, b': real)
    requires Expands(x, dx, y, h, b) && 0.0 <= b <= b'
    ensures Expands(x, dx, y, h, b')
  {
    hide RealProduct;
    Square(h);
    ProductUp(b, RealProduct(h, h), b', RealProduct(h, h));
  }

  lemma ExpandsAdd(x: real, dx: real, x1: real, y: real, dy: real, y1: real, h: real, b: real)
    requires Expands(x, dx, x1, h, b) && Expands(y, dy, y1, h, b)
    ensures Expands(x + y, dx + dy, x1 + y1, h, b + b)
  {
    hide RealProduct;
    Distribute(dx, dy, h);
    Distribute(b, b, RealProduct(h, h));
  }

  lemma ExpandsNeg(x: real, dx: real, x1: real, h: real, b: real)
    requires Expands(x, dx, x1, h, b)
    ensures Expands(-x, -dx, -x1, h, b)
  {
    assert RealProduct(h, -dx) == -RealProduct(h, dx);
    hide RealProduct;
  }

  /** How far a value is from where it was. */
  lemma StepBound(x: real, dx: real, x1: real, h: real, b: real)
    requires Expands(x, dx, x1, h, b) && 0.0 <= b && Abs(h) <= 1.0
    ensures Abs(x1 - x) <= RealProduct(Abs(h), Abs(dx) + b) <= Abs(dx) + b
  {
    hide RealProduct;
    AbsProduct(h, dx);
    Square(h);
    ProductUp(b, RealProduct(h, h), b, Abs(h));
    Distribute(Abs(dx), b, Abs(h));
    Regroup(b, Abs(h), 0.0);
    ProductUp(Abs(h), Abs(dx) + b, 1.0, Abs(dx) + b);
    Regroup(Abs(dx) + b, 0.0, 0.0);
  }

  function MulBound(x: real, dx: real, y: real, dy: real, b: real): real {
    RealProduct(Abs(dx), Abs(dy)) + RealProduct(b, Abs(y) + Abs(dy) + b) + RealProduct(b, Abs(x) + Abs(dx))
  }

  /** The product rule. */
  lemma ExpandsMul(x: real, dx: real, x1: real, y: real, dy: real, y1: real, h: real, b: real)
    requires Expands(x, dx, x1, h, b) && Expands(y, dy, y1, h, b) && 0.0 <= b && Abs(h) <= 1.0
    ensures Expands(RealProduct(x, y), RealProduct(dx, y) + RealProduct(x, dy), RealProduct(x1, y1), h,
                    MulBound(x, dx, y, dy, b))
  {
    hide RealProduct;
    var rx, ry, q := x1 - x - RealProduct(h, dx), y1 - y - RealProduct(h, dy), RealProduct(h, h);
    MulRemainder(x, dx, x1, y, dy, y1, h);
    Square(h);
    StepBound(y, dy, y1, h, b);
    AbsProduct(h, dx);
    ProductUp(Abs(h), Abs(dx), 1.0, Abs(dx));
    Regroup(Abs(dx), 1.0, 1.0);
    var c, e, a := Abs(y) + Abs(dy) + b, Abs(x) + Abs(dx), RealProduct(Abs(dx), Abs(dy));
    AbsBound(dx, dy, Abs(dx), Abs(dy));
    AbsBound(q, RealProduct(dx, dy), q, a);
    AbsBound(rx, y1, RealProduct(b, q), c);
    AbsBound(x + RealProduct(h, dx), ry, e, RealProduct(b, q));
    Regroup(b, q, c);
    Regroup(b, q, e);
    Regroup(e, RealProduct(b, q), 0.0);
    Regroup(q, a, 0.0);
    Distribute(a, RealProduct(b, c), q);
    Distribute(a + RealProduct(b, c), RealProduct(b, e), q);
  }

  lemma MulRemainder(x: real, dx: real, x1: real, y: real, dy: real, y1: real, h: real)
    ensures var rx, ry := x1 - x - RealProduct(h, dx), y1 - y - RealProduct(h, dy);
            RealProduct(x1, y1) - RealProduct(x, y) - RealProduct(h, RealProduct(dx, y) + RealProduct(x, dy))
            == RealProduct(RealProduct(h, h), RealProduct(dx, dy)) + RealProduct(rx, y1)
               + RealProduct(x + RealProduct(h, dx), ry)
  {
    var rx, ry, a := x1 - x - h * dx, y1 - y - h * dy, x + h * dx;
    assert x1 * y1 == a * y1 + rx * y1;
    assert a * y1 == a * (y + h * dy) + a * ry;
    assert a * (y + h * dy) == x * y + h * (dx * y + x * dy) + h * h * (dx * dy);
  }

  function ChainBound(dx: real, d: real, b: real): real {
    RealProduct(Abs(dx) + b, Abs(dx) + b) + RealProduct(b, Abs(d))
  }

  /** The chain rule, for a function with value `z` and derivative `d` at `x`, and value `z1` at `x1`. */
  lemma ExpandsChain(x: real, dx: real, x1: real, z: real, d: real, z1: real, h: real, b: real)
    requires Expands(x, dx, x1, h, b) && 0.0 <= b && Abs(h) <= 1.0
    requires Expands(z, d, z1, x1 - x, 1.0)
    ensures Expands(z, RealProduct(d, dx), z1, h, ChainBound(dx, d, b))
  {
    hide RealProduct;
    var t, r, c, q := x1 - x, x1 - x - RealProduct(h, dx), Abs(dx) + b, RealProduct(h, h);
    StepBound(x, dx, x1, h, b);
    Square(h);
    Square(t);
    Regroup(RealProduct(t, t), 0.0, 0.0);
    ProductUp(Abs(t), Abs(t), RealProduct(Abs(h), c), RealProduct(Abs(h), c));
    SquareProduct(Abs(h), c);
    AbsBound(r, d, RealProduct(b, q), Abs(d));
    Regroup(b, q, Abs(d));
    ChainRemainder(t, r, d, h, dx);
    Distribute(RealProduct(c, c), RealProduct(b, Abs(d)), q);
  }

  lemma SquareProduct(h: real, c: real)
    ensures RealProduct(RealProduct(h, c), RealProduct(h, c)) == RealProduct(RealProduct(c, c), RealProduct(h, h))
  {
    assert (h * c) * (h * c) == (c * c) * (h * h);
  }

  lemma ChainRemainder(t: real, r: real, d: real, h: real, dx: real)
    requires r == t - RealProduct(h, dx)
    ensures RealProduct(t, d) == RealProduct(h, RealProduct(d, dx)) + RealProduct(r, d)
  {
    assert t * d == (h * dx) * d + r * d;
    assert (h * dx) * d == h * (d * dx);
  }

  /** An expansion determines the tangent. */
  lemma TangentUnique(f: real -> real, x: real, d: real, d': real, b: real, e: real)
    requires 0.0 < e && 0.0 <= b
    requires forall h: real :: 0.0 < h <= e ==> Expands(x, d, f(h), h, b) && Expands(x, d', f(h), h, b)
    ensures d == d'
  {
    if d != d' {
      var h := SmallStep(b + 1.0, Abs(d - d'), e);
      assert Expands(x, d, f(h), h, b) && Expands(x, d', f(h), h, b);
      Apart(x, d, d', f(h), h, b);
      assert false;
    }
  }

  /** A step that is small compared with `g`. */
  lemma SmallStep(c: real, g: real, e: real) returns (h: real)
    requires 0.0 < c && 0.0 < g && 0.0 < e
    ensures 0.0 < h <= e && RealProduct(c, h) + RealProduct(c, h) < g
  {
    var s := g / (4.0 * c);
    assert s * (4.0 * c) == g;
    h := if s < e then s else e;
    assert 0.0 < s;
    assert c * h <= c * s;
  }

  lemma Apart(x: real, d: real, d': real, y: real, h: real, b: real)
    requires Expands(x, d, y, h, b) && Expands(x, d', y, h, b) && 0.0 < h && 0.0 <= b
    ensures RealProduct(b + 1.0, h) + RealProduct(b + 1.0, h) >= Abs(d - d')
  {
    hide RealProduct;
    var c, g, q := b + 1.0, Abs(d - d'), RealProduct(h, h);
    Distribute(d - d', d', h);
    AbsProduct(h, d - d');
    Square(h);
    ProductUp(b, q, c, q);
    var s := RealProduct(c, h) + RealProduct(c, h);
    Distribute(RealProduct(c, h), RealProduct(c, h), h);
    Regroup(c, h, h);
    Regroup(c, q, 0.0);
    GroupSquare(c, h);
    Regroup(s, h, 0.0);
    if s < g {
      StrictUp(h, s, g);
    }
  }

  lemma GroupSquare(c: real, h: real)
    ensures RealProduct(RealProduct(c, h), h) == RealProduct(c, RealProduct(h, h))
  {
    assert c * h * h == c * (h * h);
  }

  lemma StrictUp(h: real, s: real, g: real)
    requires 0.0 < h && s < g
    ensures RealProduct(h, s) < RealProduct(h, g)
  {
    assert h * (g - s) > 0.0;
  }
}
