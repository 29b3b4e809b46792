// Facts about multiplication, Euclidean division and remainder on naturals
// that the mixed-radix pixel addressing relies on.
module MathLemmas {

  lemma MulLe(a: int, b: int, c: nat)
    requires a <= b
    ensures a * c <= b * c
  {
    assert b * c - a * c == (b - a) * c;
  }

  lemma PosMul(a: nat, b: nat)
    requires a >= 1 && b >= 1
    ensures a * b >= a && a * b >= b
  {
    MulLe(1, a, b);
    MulLe(1, b, a);
  }

  lemma Prod3Positive(x: nat, y: nat, z: nat)
    requires x >= 1 && y >= 1 && z >= 1
    ensures x * y >= 1 && x * y * z >= 1
  {
    PosMul(x, y);
    PosMul(x * y, z);
  }

  lemma Prod4Positive(x: nat, y: nat, z: nat, w: nat)
    requires x >= 1 && y >= 1 && z >= 1 && w >= 1
    ensures x * y * z * w >= 1
  {
    Prod3Positive(x, y, z);
    PosMul(x * y * z, w);
  }

  lemma Prod4Assoc(x: nat, y: nat, z: nat, w: nat)
    ensures x * y * z * w == (x * y) * (z * w)
  {
  }

  /** One more digit of a mixed-radix number stays below the next radix. */
  lemma MixedRadixBound(a: nat, bigA: nat, b: nat, bigB: nat)
    requires a < bigA && b < bigB
    ensures a * bigB + b < bigA * bigB
  {
    MulLe(a + 1, bigA, bigB);
  }

  /** Quotient and remainder are determined by `i == q * d + r` with `0 <= r < d`. */
  lemma DivModUnique(i: int, d: int, q: int, r: int)
    requires d > 0 && 0 <= r < d && i == q * d + r
    ensures i / d == q && i % d == r
  {
    var q0, r0 := i / d, i % d;
    assert i == q0 * d + r0;
    if q0 < q {
      MulLe(q0 + 1, q, d);
      assert false;
    }
    if q < q0 {
      MulLe(q + 1, q0, d);
      assert false;
    }
  }

  lemma DivBound(i: nat, a: nat, b: nat)
    requires a > 0 && i < a * b
    ensures i / a < b
  {
    if i / a >= b {
      MulLe(b, i / a, a);
      assert false;
    }
  }

  lemma DivDiv(i: nat, a: nat, b: nat)
    requires a > 0 && b > 0
    ensures a * b > 0
    ensures i / (a * b) == (i / a) / b
  {
    var q, r := i / a, i % a;
    var q1, q2 := q / b, q % b;
    assert i == q * a + r;
    assert q == q1 * b + q2;
    assert i == q1 * (a * b) + (q2 * a + r);
    MixedRadixBound(q2, b, r, a);
    assert q2 * a + r < a * b;
    DivModUnique(i, a * b, q1, q2 * a + r);
  }

  /** Taking the remainder by `a * b` and then dividing by `a` extracts one digit. */
  lemma ModDiv(i: nat, a: nat, b: nat)
    requires a > 0 && b > 0
    ensures a * b > 0
    ensures (i % (a * b)) / a == (i / a) % b
  {
    var m, r0 := i / (a * b), i % (a * b);
    var d, r := r0 / a, r0 % a;
    assert r0 == d * a + r;
    DivBound(r0, a, b);
    assert i == m * (a * b) + r0;
    assert i == (m * b + d) * a + r;
    DivModUnique(i, a, m * b + d, r);
    DivModUnique(i / a, b, m, d);
  }

  /** Three successive divisions recompose to the original number. */
  lemma Recompose(i: nat, x: nat, y: nat, z: nat, cx: nat, cy: nat, cz: nat, cw: nat)
    requires x > 0 && y > 0 && z > 0
    requires cx == i % x && cy == (i / x) % y && cz == ((i / x) / y) % z && cw == ((i / x) / y) / z
    ensures ((cw * z + cz) * y + cy) * x + cx == i
  {
    var q1 := i / x;
    var q2 := q1 / y;
    assert q2 == cw * z + cz;
    assert q1 == q2 * y + cy;
    assert i == q1 * x + cx;
  }

  /** Two successive divisions recompose to the original number. */
  lemma Recompose3(i: nat, x: nat, y: nat, cx: nat, cy: nat, cz: nat)
    requires x > 0 && y > 0
    requires cx == i % x && cy == (i / x) % y && cz == (i / x) / y
    ensures (cz * y + cy) * x + cx == i
  {
    var q1 := i / x;
    assert q1 == cz * y + cy;
    assert i == q1 * x + cx;
  }

  lemma ModBelow(q: nat, d: nat, bound: nat)
    requires q < bound && d > 0
    ensures q % d < bound
  {
    if q < d {
      ModOfSmall(q, d);
    }
  }

  /** A digit `(i % m) / d` is a natural number. */
  lemma DigitNat(i: nat, m: nat, d: nat)
    requires m > 0 && d > 0
    ensures i % m >= 0 && (i % m) / d >= 0
  {
    var r: nat := i % m;
    assert r / d >= 0;
  }

  lemma ModBound(a: nat, d: nat)
    requires d > 0
    ensures 0 <= a % d < d
  {
  }

  lemma ModOfSmall(i: nat, d: nat)
    requires i < d
    ensures i % d == i && i / d == 0
  {
    DivModUnique(i, d, 0, i);
  }

  /** Adding one period does not change a remainder. */
  lemma ModAddPeriod(a: int, d: int)
    requires d > 0
    ensures (a + d) % d == a % d
  {
    var q, r := a / d, a % d;
    assert a == q * d + r;
    assert a + d == (q + 1) * d + r;
    DivModUnique(a + d, d, q + 1, r);
  }

  lemma MulSucc(a: int, b: int)
    ensures (a + 1) * b == a * b + b
  {
  }

  /** Reducing modulo `a * b` and then modulo `a` is reducing modulo `a`. */
  lemma ModMod(v: nat, a: nat, b: nat)
    requires a > 0 && b > 0
    ensures a * b > 0 && (v % (a * b)) % a == v % a
  {
    PosMul(a, b);
    var q, m := v / (a * b), v % (a * b);
    var h, r := m / a, m % a;
    assert m == h * a + r;
    assert v == q * (a * b) + m;
    assert v == (q * b + h) * a + r;
    DivModUnique(v, a, q * b + h, r);
  }
}
