/** Counting in rounds: division with remainder by a number that is not a constant. */
module Rounds {

  lemma AtLeast(m: nat, x: nat)
    requires x >= 1
    ensures m * x >= m
  {
    assert m * x == m * (x - 1) + m;
    assert m * (x - 1) >= 0;
  }

  lemma DivMod(n: nat, q: nat, r: nat, m: nat)
    requires r < m && n == m * q + r
    ensures n / m == q && n % m == r
  {
    var q', r' := n / m, n % m;
    assert n == m * q' + r';
    if q > q' {
      AtLeast(m, q - q');
    } else if q < q' {
      AtLeast(m, q' - q);
    }
  }

  lemma NextRound(n: nat, m: nat)
    requires m >= 1
    ensures (n + 1) % m == if n % m + 1 < m then n % m + 1 else 0
    ensures (n + 1) / m == if n % m + 1 < m then n / m else n / m + 1
  {
    var q, r := n / m, n % m;
    assert n == m * q + r;
    if r + 1 < m {
      DivMod(n + 1, q, r + 1, m);
    } else {
      assert m * (q + 1) == m * q + m;
      DivMod(n + 1, q + 1, 0, m);
    }
  }

  lemma NextServer(a: nat, n: nat)
    requires n >= 1
    ensures (a % n + 1) % n == (a + 1) % n
  {
    NextRound(a, n);
    if a % n + 1 < n {
      DivMod(a % n + 1, 0, a % n + 1, n);
    } else {
      DivMod(n, 1, 0, n);
    }
  }

  lemma Small(x: nat, m: nat)
    requires x < m
    ensures x % m == x && x / m == 0
  {
    DivMod(x, 0, x, m);
  }

  /** Numbers less than a round apart stand at different places of their rounds. */
  lemma DifferentPlaces(i: nat, n: nat, m: nat)
    requires i < n < i + m
    ensures i % m != n % m
  {
    var p, q := i / m, n / m;
    assert i == m * p + i % m && n == m * q + n % m;
    if i % m == n % m {
      if q > p {
        AtLeast(m, q - p);
      } else {
        AtLeast(m, p - q + 1);
      }
    }
  }

  /** A number one round later stands at the same place. */
  lemma SamePlace(i: nat, m: nat)
    requires m >= 1
    ensures (i + m) % m == i % m
  {
    var p := i / m;
    assert i == m * p + i % m;
    assert m * (p + 1) == m * p + m;
    DivMod(i + m, p + 1, i % m, m);
  }

  /** Places in rounds add up. */
  lemma PlaceSum(a: nat, b: nat, m: nat)
    requires m >= 1
    ensures (a % m + b) % m == (a + b) % m
  {
    var p, r := a / m, a % m;
    var q, s := (r + b) / m, (r + b) % m;
    assert a == m * p + r;
    assert r + b == m * q + s;
    Distribute(m, p, q);
    DivMod(a + b, p + q, s, m);
  }

  lemma Distribute(m: nat, p: nat, q: nat)
    ensures m * (p + q) == m * p + m * q
  {
  }

  /** Places scale. */
  lemma PlaceScale(x: nat, k: nat, m: nat)
    requires m >= 1 && k >= 1
    ensures k * m >= 1 && (k * x) % (k * m) == k * (x % m)
  {
    var q, r := x / m, x % m;
    assert x == m * q + r;
    AtLeast(m, k);
    assert k * x == k * (m * q) + k * r;
    assert k * (m * q) == (k * m) * q;
    ScaleLess(r, m, k);
    DivMod(k * x, q, k * r, k * m);
  }

  lemma ScaleLess(r: nat, m: nat, k: nat)
    requires r < m && k >= 1
    ensures k * r < k * m && m * k == k * m
  {
    AtLeast(k, m - r);
    assert k * (m - r) == k * m - k * r;
  }
}
