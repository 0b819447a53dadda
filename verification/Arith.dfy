/** Products, and division with remainder. */
module Arith {
  lemma MulApart(m: nat, d: int)
    ensures d >= 1 ==> m * d >= m
  {}

  lemma MulDifference(m: nat, x: int, y: int)
    ensures m * (x - y) == m * x - m * y
  {}

  lemma ModUnique(a: nat, m: nat, q: nat, r: nat)
    requires r < m && a == r + m * q
    ensures a % m == r && a / m == q
  {
    var d := a / m;
    assert a == m * d + a % m;
    MulDifference(m, q, d);
    MulDifference(m, d, q);
    MulApart(m, q - d);
    MulApart(m, d - q);
  }

  lemma SmallMod(a: nat, m: nat)
    requires a < m
    ensures a % m == a
  {}

  lemma FloorBounds(v: nat, b: nat)
    requires b > 0
    ensures b * (v / b) <= v < b * (v / b) + b
  {}

  lemma MulMono(b: nat, x: int, y: int)
    requires x <= y
    ensures b * x <= b * y
  {}

  lemma Distribute(b: nat, x: int, y: int)
    ensures b * (x + y) == b * x + b * y && b * (x - y) == b * x - b * y
  {}

  lemma DivLess(v: nat, w: nat, b: nat)
    requires b > 0 && v <= w
    ensures v / b <= w / b
  {
    FloorBounds(v, b);
    FloorBounds(w, b);
    if v / b >= w / b + 1 {
      MulMono(b, w / b + 1, v / b);
      Distribute(b, w / b, 1);
    }
  }

  lemma DivSum(v: nat, w: nat, b: nat)
    requires b > 0
    ensures (v + w) / b <= v / b + w / b + 1
  {
    FloorBounds(v, b);
    FloorBounds(w, b);
    FloorBounds(v + w, b);
    if (v + w) / b >= v / b + w / b + 2 {
      MulMono(b, v / b + w / b + 2, (v + w) / b);
      Distribute(b, v / b + w / b, 2);
      Distribute(b, v / b, w / b);
    }
  }
}
