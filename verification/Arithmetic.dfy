// Facts about positional arithmetic shared by the address computations.
module Arithmetic {

  lemma {:induction false} MulMonotone(a: nat, b: nat, n: nat)
    requires a <= b
    ensures a * n <= b * n
  {
  }

  // A digit below its base keeps the value below the next multiple.
  lemma {:induction false} DigitBound(q: nat, m: nat, r: nat, n: nat)
    requires q < m && r < n
    ensures q * n + r < m * n
  {
    MulMonotone(q + 1, m, n);
    assert (q + 1) * n == q * n + n;
  }

  // A value has one quotient and one remainder.
  lemma {:induction false} DivModUnique(q: nat, r: nat, q': nat, r': nat, n: nat)
    requires r < n && r' < n && q * n + r == q' * n + r'
    ensures q == q' && r == r'
  {
    if q < q' {
      DigitBound(q, q', r, n);
      assert false;
    } else if q' < q {
      DigitBound(q', q, r', n);
      assert false;
    }
  }

  lemma {:induction false} ThreeDigitsUnique(a: nat, b: nat, c: nat, a': nat, b': nat, c': nat, m: nat, n: nat)
    requires b < m && b' < m && c < n && c' < n
    requires (a * m + b) * n + c == (a' * m + b') * n + c'
    ensures a == a' && b == b' && c == c'
  {
    DivModUnique(a * m + b, c, a' * m + b', c', n);
    DivModUnique(a, b, a', b', m);
  }

  lemma {:induction false} NextMultiple(u: nat, k: nat)
    ensures (u + 1) * k == u * k + k
  {
  }

  // The lowest digit of a remainder is that of the value.
  lemma {:induction false} DigitOfRemainder(x: nat, p: nat, n: nat)
    requires 1 <= p && 1 <= n
    ensures 1 <= p * n && x % (p * n) % n == x % n && x % (p * n) / n < p
  {
    MulMonotone(1, p, n);
    var m := p * n;
    var q, r := x / m, x % m;
    var k, u := r / n, r % n;
    assert x == q * m + r;
    assert r == k * n + u;
    Regroup(q, p, n, k);
    DivModUnique(x / n, x % n, q * p + k, u, n);
    if k >= p {
      MulMonotone(p, k, n);
      assert false;
    }
  }

  lemma {:induction false} Regroup(q: nat, p: nat, n: nat, k: nat)
    ensures (q * p + k) * n == q * (p * n) + k * n
  {
  }

  type Pos = x: nat | 1 <= x witness 1

  function Quotient(x: nat, n: Pos): nat { x / n }

  lemma {:induction false} Distribute(x: nat, y: nat, a: nat, b: nat)
    ensures (x + y * a) * b == x * b + y * (a * b)
  {
    MulAssoc(y, a, b);
  }

  lemma {:induction false} Distribute2(x: nat, y: nat, n: nat)
    ensures (x + y) * n == x * n + y * n
  {
  }

  lemma {:induction false} MulSwap(m: nat, p: nat, n: nat)
    ensures m * p * n == m * (n * p)
  {
  }

  lemma {:induction false} MulAssoc(m: nat, p: nat, n: nat)
    ensures m * (p * n) == m * p * n
  {
  }

  lemma {:induction false} MulLast(m: nat, p: nat, n: nat)
    ensures m * p * n == m * n * p && m * n == n * m
  {
  }

  lemma {:induction false} MulNext(n: nat, x: nat)
    ensures n + n * x == n * (1 + x)
  {
  }

  lemma {:induction false} Product4(x: nat, a: nat, b: nat, c: nat, d: nat)
    ensures x * a * b * c * d == x * (a * b * c * d)
  {
    MulAssoc(x, a, b);
    MulAssoc(x, a * b, c);
    MulAssoc(x, a * b * c, d);
  }

  lemma {:induction false} ExactQuotient(x: nat, n: Pos)
    ensures n * x / n == x && x * n / n == x
  {
    var y := n * x;
    assert y == x * n + 0;
    DivModUnique(y / n, y % n, x, 0, n);
  }

  function TimesPos(x: Pos, y: Pos): Pos { x * y }

  lemma {:induction false} DivideTwice(x: nat, m: Pos, n: Pos)
    ensures x / m / n == x / TimesPos(m, n)
  {
    var q, r := x / m, x % m;
    var u, v := q / n, q % n;
    NestedDigits(x, q, r, u, v, m, n);
    DivModOf(x, TimesPos(m, n), u, v * m + r);
  }

  lemma {:induction false} NestedDigits(x: nat, q: nat, r: nat, u: nat, v: nat, m: Pos, n: Pos)
    requires x == q * m + r && r < m && q == u * n + v && v < n
    ensures x == u * TimesPos(m, n) + (v * m + r) && v * m + r < TimesPos(m, n)
  {
    Distribute(v, u, n, m);
    DigitBound(v, n, r, m);
  }

  function Times(x: nat, y: nat): nat { x * y }

  lemma {:induction false} TimesOne(x: nat)
    ensures Times(x, 1) == x
  {
  }

  lemma {:induction false} QuotientBound(x: nat, n: Pos, m: nat)
    ensures x / n < m <==> x < m * n
  {
    assert x == x / n * n + x % n;
    if x / n < m {
      DigitBound(x / n, m, x % n, n);
    } else {
      MulMonotone(m, x / n, n);
    }
  }

  // One digit and the rest.
  lemma {:induction false} DigitAndRest(v: nat, q: nat, n: Pos)
    requires v < n
    ensures (v + n * q) / n == q && (v + n * q) % n == v
  {
    var x := v + n * q;
    DivModUnique(x / n, x % n, q, v, n);
  }

  lemma {:induction false} DoubleBase(q: nat, n: nat)
    ensures q * (2 * n) == 2 * (q * n)
  {
  }

  lemma {:induction false} DivModOf(x: nat, m: Pos, q: nat, r: nat)
    requires r < m && x == q * m + r
    ensures x / m == q && x % m == r
  {
    DivModUnique(x / m, x % m, q, r, m);
  }

  lemma {:induction false} SmallRemainder(x: nat, n: Pos)
    requires x < n
    ensures x % n == x
  {
  }
}
