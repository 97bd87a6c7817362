/** Index arithmetic of the ring buffers. */
module Modular {

  lemma MulBound(n: nat, q: int)
    ensures q >= 1 ==> n * q >= n
    ensures q <= -1 ==> n * q <= 0 - n
    ensures n * 0 == 0
  {
    if q >= 1 {
      assert n * q == n + n * (q - 1);
    } else if q <= -1 {
      assert n * q == 0 - n + n * (q + 1);
    }
  }

  lemma Distribute(n: int, a: int, b: int)
    ensures n * (a + b) == n * a + n * b
    ensures n * (a - b) == n * a - n * b
  {
  }

  /** The remainder is the only one. */
  lemma Unique(q: int, r: nat, n: nat, a: nat)
    requires r < n && a == n * q + r
    ensures a % n == r
  {
    Distribute(n, a / n, q);
    MulBound(n, a / n - q);
  }

  lemma AddMod(a: nat, k: nat, n: nat)
    requires n > 0
    ensures (a % n + k) % n == (a + k) % n
  {
    var m := a % n + k;
    Distribute(n, a / n, m / n);
    Unique(a / n + m / n, m % n, n, a + k);
  }

  lemma Wrap(a: nat, n: nat)
    requires n > 0
    ensures (a + n) % n == a % n
  {
    Distribute(n, a / n, 1);
    Unique(a / n + 1, a % n, n, a + n);
  }

  lemma Small(a: nat, n: nat)
    requires a < n
    ensures a % n == a
  {
    Unique(0, a, n, a);
  }

  /** Two counts less than `n` apart share an index only when they are the same. */
  lemma SameIndex(a: nat, b: nat, n: nat)
    requires a <= b < a + n && a % n == b % n
    ensures a == b
  {
    Distribute(n, b / n, a / n);
    MulBound(n, b / n - a / n);
  }

  // ----- a ring seen from its head

  function Rotated<T>(s: seq<T>, head: nat): (r: seq<T>)
    requires head < |s|
    ensures |r| == |s|
  {
    s[head..] + s[..head]
  }

  lemma RotatedAt<T>(s: seq<T>, head: nat, k: nat)
    requires head < |s| && k < |s|
    ensures (head + k) % |s| < |s| && Rotated(s, head)[k] == s[(head + k) % |s|]
  {
    if head + k < |s| { Small(head + k, |s|); } else { Wrap(head + k - |s|, |s|); Small(head + k - |s|, |s|); }
  }

  lemma RotatedUpdate<T>(s: seq<T>, head: nat, k: nat, v: T)
    requires head < |s| && k < |s|
    ensures (head + k) % |s| < |s| && Rotated(s[(head + k) % |s| := v], head) == Rotated(s, head)[k := v]
  {
    if head + k < |s| { Small(head + k, |s|); } else { Wrap(head + k - |s|, |s|); Small(head + k - |s|, |s|); }
  }

  lemma RotatedNext<T>(s: seq<T>, head: nat)
    requires head < |s|
    ensures (head + 1) % |s| < |s|
    ensures Rotated(s, (head + 1) % |s|) == Rotated(s, head)[1..] + [Rotated(s, head)[0]]
  {
    if head + 1 < |s| { Small(head + 1, |s|); } else { Wrap(0, |s|); Small(0, |s|); }
  }
}
