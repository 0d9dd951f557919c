/** Products, for proofs about sums of them that need not look into the products. */
module Products {
  function RealProduct(x: real, y: real): real {
    x * y
  }

  function IntProduct(a: int, b: int): int {
    a * b
  }

  lemma TimesLinear(x: real, y: real, d: real)
    ensures RealProduct(x + y, d) == RealProduct(x, d) + RealProduct(y, d)
    ensures RealProduct(d, x - y) == RealProduct(d, x) - RealProduct(d, y)
    ensures RealProduct(x, 0.0) == 0.0 && RealProduct(0.0, x) == 0.0
  {
  }

  lemma TimesSum(z: real, x: real, y: real)
    ensures RealProduct(z, x + y) == RealProduct(z, x) + RealProduct(z, y)
    ensures RealProduct(-z, x) == RealProduct(z, -x)
  {
  }
}
