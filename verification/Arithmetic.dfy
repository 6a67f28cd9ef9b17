/** Remainders by a variable divisor, kept out of the other modules. */
module Arithmetic {
  lemma MulAtLeast(k: nat, n: nat)
    requires k > 0
    ensures k * n >= n
  {
  }

  lemma MulGap(a: nat, b: nat, n: nat)
    requires a > b
    ensures a * n >= b * n + n
  {
    MulAtLeast(a - b, n);
    assert (a - b) * n == a * n - b * n;
  }

  lemma RemainderIsUnique(q: nat, x: nat, n: nat)
    requires x < n
    ensures (q * n + x) % n == x && (q * n + x) / n == q
  {
    var q' := (q * n + x) / n;
    assert q * n + x == n * q' + (q * n + x) % n;
    if q' > q {
      MulGap(q', q, n);
    } else if q' < q {
      MulGap(q, q', n);
    }
  }

  lemma Distribute(k: nat, q: nat, b: nat, r: nat)
    ensures k * (q * b + r) == q * (k * b) + k * r
  {
    assert k * (q * b) == q * (k * b);
  }

  lemma ScaledRemainder(k: nat, a: nat, b: nat)
    requires b > 0 && k > 0
    ensures k * b > 0 && (k * a) % (k * b) == k * (a % b)
  {
    var q, r := a / b, a % b;
    assert a == q * b + r;
    Distribute(k, q, b, r);
    MulGap(b, r, k);
    assert b * k == k * b && r * k == k * r;
    RemainderIsUnique(q, k * r, k * b);
  }

  /** Two intervals inside one window of length `size` do not meet when taken modulo `size`. */
  lemma PositionsApart(size: nat, c1: nat, n1: nat, c2: nat, n2: nat)
    requires size > 0 && c1 + n1 <= c2 && c2 + n2 <= c1 + size
    ensures c1 % size + n1 <= c2 % size || c2 % size + n2 <= c1 % size
  {
    var q, r := c1 / size, c1 % size;
    var base := q * size;
    assert c1 == base + r;
    if c2 - base < size {
      RemainderIsUnique(q, c2 - base, size);
    } else if c2 - base - size < size {
      assert (q + 1) * size == base + size;
      RemainderIsUnique(q + 1, c2 - base - size, size);
    }
  }

  lemma RemainderOfSum(a: nat, d: nat, n: nat)
    requires n > 0
    ensures (a + d) % n == (a % n + d) % n
  {
    var q, r := a / n, a % n;
    var q', r' := (r + d) / n, (r + d) % n;
    assert a == q * n + r;
    assert r + d == q' * n + r';
    assert (q + q') * n == q * n + q' * n;
    assert a + d == (q + q') * n + r';
    RemainderIsUnique(q + q', r', n);
  }

  /** Advancing two congruent cursors by the same amount keeps them congruent. */
  lemma Congruent(n: nat, a: nat, b: nat, d: nat)
    requires n > 0 && a % n == b % n
    ensures (a + d) % n == (b + d) % n
  {
    RemainderOfSum(a, d, n);
    RemainderOfSum(b, d, n);
  }
}
