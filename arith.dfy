/** Non-linear integer facts used by the decimal and binary decompositions. */
module Arith {

  lemma Distribute(b: int, x: int, y: int)
    ensures b * (x + y) == b * x + b * y
  {
  }

  lemma Assoc(b: int, c: int, q: int)
    ensures b * (c * q) == (b * c) * q
  {
  }

  lemma MulPos(d: int, k: int)
    requires d > 0 && k >= 1
    ensures d * k >= d
  {
    assert d * k == d * (k - 1) + d;
  }

  lemma MulNonneg(x: int, y: int)
    requires x >= 0 && y >= 0
    ensures x * y >= 0
  {
  }

  lemma MulMono(x: int, a: int, b: int)
    requires x >= 0 && a <= b
    ensures x * a <= x * b
  {
    MulNonneg(x, b - a);
    Distribute(x, b - a, a);
  }

  lemma MulBound(b: int, r: int, c: int)
    requires b > 0 && 0 <= r < c
    ensures 0 <= b * r <= b * c - b
  {
    MulNonneg(b, r);
    MulNonneg(b, c - 1 - r);
    Distribute(b, c - 1 - r, r);
    Distribute(b, c - 1, 1);
  }

  /** Integer division is determined by any quotient/remainder decomposition. */
  lemma DivUnique(a: int, d: int, q: int, r: int)
    requires d > 0 && a == d * q + r && 0 <= r < d
    ensures a / d == q && a % d == r
  {
    var q', r' := a / d, a % d;
    assert d * q' + r' == d * q + r;
    if q' > q {
      assert d * (q' - q) == d * q' - d * q;
      MulPos(d, q' - q);
    } else if q' < q {
      assert d * (q - q') == d * q - d * q';
      MulPos(d, q - q');
    }
  }

  /** Dividing twice is dividing by the product. */
  lemma DivDiv(a: int, b: int, c: int)
    requires b > 0 && c > 0
    ensures (a / b) / c == a / (b * c)
  {
    var q, r := a / b, a % b;
    var q2, r2 := q / c, q % c;
    Distribute(b, c * q2, r2);
    Assoc(b, c, q2);
    MulBound(b, r2, c);
    DivUnique(a, b * c, q2, b * r2 + r);
  }

  /** The remainder modulo b * c splits into a remainder modulo b and one modulo c. */
  lemma ModMul(a: int, b: int, c: int)
    requires b > 0 && c > 0
    ensures a % (b * c) == a % b + b * ((a / b) % c)
  {
    var q, r := a / b, a % b;
    var q2, r2 := q / c, q % c;
    Distribute(b, c * q2, r2);
    Assoc(b, c, q2);
    MulBound(b, r2, c);
    DivUnique(a, b * c, q2, b * r2 + r);
  }
}
