/** Remainders of natural numbers. */
module Remainders {

  lemma RemainderIsUnique(x: nat, n: nat, q: int, r: nat)
    requires r < n && x == q * n + r
    ensures x % n == r
  {
    var q', r' := x / n, x % n;
    assert x == q' * n + r' && (q - q') * n == r' - r && (q' - q) * n == r - r';
    if q - q' >= 1 {
      AtLeastOneTurn(q - q', n);
    } else if q - q' <= -1 {
      AtLeastOneTurn(q' - q, n);
    }
  }

  lemma AtLeastOneTurn(a: int, n: nat)
    requires a >= 1
    ensures a * n >= n
  {
  }

  lemma SmallRemainder(x: nat, n: nat)
    requires x < n
    ensures x % n == x
  {
  }

  /** Going once around. */
  lemma RemainderAroundOnce(x: nat, n: nat)
    requires x < 2 * n
    ensures x % n == if x < n then x else x - n
  {
    if x < n {
      SmallRemainder(x, n);
    } else {
      RemainderIsUnique(x, n, 1, x - n);
    }
  }

  /** Remainders can be counted on from. */
  lemma NextRemainder(k: nat, n: nat)
    requires n > 0
    ensures (k % n + 1) % n == (k + 1) % n
  {
    var q, r := k / n, k % n;
    if r + 1 == n {
      TurnCompleted(k, n, q, r);
    } else {
      RemainderIsUnique(k + 1, n, q, r + 1);
      SmallRemainder(r + 1, n);
    }
  }

  lemma TurnCompleted(k: nat, n: nat, q: nat, r: nat)
    requires n > 0 && r + 1 == n && k == q * n + r
    ensures (k + 1) % n == 0 == (r + 1) % n
  {
    assert (q + 1) * n == q * n + n;
    RemainderIsUnique(k + 1, n, q + 1, 0);
    RemainderIsUnique(n, n, 1, 0);
  }
}
