/** Quotients and remainders. */
module Numbers {
  lemma Multiple(n: int, d: int)
    requires n > 0
    ensures d >= 1 ==> n * d >= n
    ensures d <= -1 ==> n * d <= -n
  {
    if d >= 1 {
      assert n * (d - 1) >= 0;
    } else if d <= -1 {
      assert n * (d + 1) <= 0;
    }
  }

  /** A number has only one quotient and remainder. */
  lemma Unique(n: int, q: int, m: int, q': int, m': int)
    requires n * q + m == n * q' + m' && 0 <= m < n && 0 <= m' < n
    ensures m == m' && q == q'
  {
    Multiple(n, q - q');
    assert n * (q - q') == n * q - n * q';
  }

  lemma Division(a: int, n: int)
    requires n > 0
    ensures a == n * (a / n) + a % n && 0 <= a % n < n
  {}

  /** Dividing gives the quotient and remainder that are known. */
  lemma Quotient(x: int, n: int, q: int, m: int)
    requires 0 <= m < n && x == n * q + m
    ensures x / n == q && x % n == m
  {
    Division(x, n);
    Unique(n, x / n, x % n, q, m);
  }

  /** A number is in an arithmetic progression exactly if its distance from the first leaves no remainder. */
  lemma Progression(x: int, first: int, k: nat)
    requires k > 0
    ensures x >= first && (x - first) % k == 0 <==> exists i: nat :: x == first + i * k
  {
    if x >= first && (x - first) % k == 0 {
      Division(x - first, k);
      var i := (x - first) / k;
      assert x == first + i * k;
    }
    forall i: nat | x == first + i * k ensures x >= first && (x - first) % k == 0 {
      assert i * k >= 0;
      Quotient(x - first, k, i, 0);
    }
  }
}
