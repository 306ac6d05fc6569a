/** Capacities of the ring buffers: powers of two within the limit, and index arithmetic on machine words. */
module Capacity {
  import opened Dialect
  import Index

  /** No allocation is larger, and the mirrored buffer maps its capacity twice. */
  const MAX_CAPACITY: nat := 0x4000_0000_0000_0000

  predicate IsPow2(n: nat): (p: bool)
    ensures p ==> n >= 1
  {
    n == 1 || (n > 0 && n % 2 == 0 && IsPow2(n / 2))
  }

  lemma {:induction false} Doubled(n: nat)
    requires IsPow2(n)
    ensures IsPow2(2 * n)
  {
    assert 2 * n / 2 == n && 2 * n % 2 == 0;
  }

  /** The least power of two that is not below `n`. */
  function NextPowerOfTwo(n: nat): (r: nat)
    ensures IsPow2(r) && n <= r && (n >= 1 ==> r < 2 * n)
  {
    if n <= 1 then 1
    else
      var half := NextPowerOfTwo((n + 1) / 2);
      Doubled(half);
      2 * half
  }

  lemma {:induction false} NextIsLeast(n: nat, p: nat)
    requires IsPow2(p) && n <= p
    ensures NextPowerOfTwo(n) <= p
  {
    if n >= 2 {
      NextIsLeast((n + 1) / 2, p / 2);
    }
  }

  /** Round a requested capacity up, and check it against the limit and against what can be allocated. */
  function CheckedCapacity(capacity: nat, limit: Option<nat>, granularity: nat): Option<nat> {
    var rounded := Larger(NextPowerOfTwo(capacity), granularity);
    if (limit.Some? && rounded > limit.value) || rounded > MAX_CAPACITY then None else Some(rounded)
  }

  function Larger(a: nat, b: nat): nat {
    if a < b then b else a
  }

  /** A capacity that is granted is the least admissible one, and only the limits refuse it. */
  lemma GrantedCapacity(capacity: nat, limit: Option<nat>, granularity: nat, p: nat)
    requires IsPow2(granularity)
    ensures var r := CheckedCapacity(capacity, limit, granularity);
            && (r.Some? ==> IsPow2(r.value) && capacity <= r.value && granularity <= r.value <= MAX_CAPACITY && (limit.Some? ==> r.value <= limit.value))
            && (IsPow2(p) && capacity <= p && granularity <= p <= MAX_CAPACITY && (limit.Some? ==> p <= limit.value) ==> r.Some? && r.value <= p)
  {
    if IsPow2(p) && capacity <= p {
      NextIsLeast(capacity, p);
    }
  }

  function GrownCapacity(capacity: nat, limit: Option<nat>): Option<nat> {
    if (limit.Some? && capacity * 2 > limit.value) || capacity * 2 > MAX_CAPACITY then None else Some(capacity * 2)
  }

  /** The next power of two is the double. */
  lemma {:induction false} NextIsDouble(a: nat, b: nat)
    requires IsPow2(a) && IsPow2(b) && a < b
    ensures 2 * a <= b
    decreases a
  {
    if a > 1 {
      NextIsDouble(a / 2, b / 2);
    }
  }

  /** A capacity within the limits that holds `n` bytes. */
  predicate Suffices(c: nat, n: nat, limit: Option<nat>) {
    IsPow2(c) && n <= c <= MAX_CAPACITY && (limit.Some? ==> c <= limit.value)
  }

  /** A buffer that may not be doubled has no sufficient capacity above its own. */
  lemma NoneSuffices(capacity: nat, n: nat, limit: Option<nat>)
    requires IsPow2(capacity) && capacity < n
    requires !(2 * capacity <= MAX_CAPACITY && (limit.Some? ==> 2 * capacity <= limit.value))
    ensures forall c :: !Suffices(c, n, limit)
  {
    forall c ensures !Suffices(c, n, limit) {
      if IsPow2(c) && n <= c {
        NextIsDouble(capacity, c);
      }
    }
  }

  /** Bitwise conjunction of words. */
  function BitAnd(x: nat, y: nat): nat
    decreases x
  {
    if x == 0 then 0 else (x % 2) * (y % 2) + 2 * BitAnd(x / 2, y / 2)
  }

  /** Masking with a power of two less one is the remainder. */
  lemma {:induction false} MaskIsRemainder(x: nat, c: nat)
    requires IsPow2(c)
    ensures BitAnd(x, c - 1) == x % c
    decreases x
  {
    if x == 0 {
    } else if c == 1 {
      NothingMasked(x);
    } else {
      var d := c / 2;
      MaskIsRemainder(x / 2, d);
      assert (c - 1) % 2 == 1 && (c - 1) / 2 == d - 1;
      HalvedRemainder(x, d);
    }
  }

  lemma {:induction false} NothingMasked(x: nat)
    ensures BitAnd(x, 0) == 0
    decreases x
  {
    if x > 0 {
      NothingMasked(x / 2);
    }
  }

  lemma HalvedRemainder(x: nat, d: nat)
    requires d >= 1
    ensures x % (2 * d) == x % 2 + 2 * ((x / 2) % d)
  {
    var q := x / 2 / d;
    assert x / 2 == q * d + (x / 2) % d;
    var r := x % 2 + 2 * ((x / 2) % d);
    assert x == q * (2 * d) + r by {
      assert q * (2 * d) == 2 * (q * d);
    }
    RemainderIs(x, 2 * d, q, r);
  }

  lemma AtLeastOne(d: int, m: nat)
    requires m >= 1
    ensures d >= 1 ==> d * m >= m
    ensures d <= -1 ==> d * m + m <= 0
  {
    if d >= 1 {
      assert (d - 1) * m >= 0;
    } else if d <= -1 {
      assert (-1 - d) * m >= 0;
    }
  }

  lemma RemainderIs(x: int, m: nat, q: int, r: int)
    requires m >= 1 && x == q * m + r && 0 <= r < m
    ensures x % m == r
  {
    var d := x / m - q;
    assert d * m == r - x % m;
    AtLeastOne(d, m);
  }

  /** Reducing by a multiple first changes no remainder. */
  lemma RemainderTwice(x: int, q: nat, c: nat)
    requires c >= 1 && q >= 1
    ensures (x % (q * c)) % c == x % c
  {
    var w, y := x / (q * c), x % (q * c);
    assert x == w * (q * c) + y;
    assert w * (q * c) == (w * q) * c;
    assert y == (y / c) * c + y % c;
    assert (w * q + y / c) * c == (w * q) * c + (y / c) * c;
    RemainderIs(x, c, w * q + y / c, y % c);
  }

  /** A smaller power of two divides a larger one. */
  lemma {:induction false} Pow2Divides(a: nat, b: nat) returns (q: nat)
    requires IsPow2(a) && IsPow2(b) && a <= b
    ensures b == q * a
    decreases b
  {
    if a == 1 {
      q := b;
    } else {
      q := Pow2Divides(a / 2, b / 2);
      assert b == 2 * (q * (a / 2)) == q * (2 * (a / 2));
    }
  }

  lemma WordIsPow2()
    ensures IsPow2(Index.WORD)
  {
    assert IsPow2(0x1_0000);
    Squared(0x1_0000);
    Squared(0x1_0000_0000);
  }

  lemma {:induction false} Product(a: nat, b: nat)
    requires IsPow2(a) && IsPow2(b)
    ensures IsPow2(a * b)
    decreases a
  {
    if a > 1 {
      Product(a / 2, b);
      Doubled(a / 2 * b);
      assert 2 * (a / 2 * b) == (2 * (a / 2)) * b;
    }
  }

  lemma Squared(a: nat)
    requires IsPow2(a)
    ensures IsPow2(a * a)
  {
    Product(a, a);
  }

  function Wrapped(x: int): (w: nat)
    ensures w < Index.WORD
  {
    x % Index.WORD
  }

  /** Wrapping a counter does not move it in the ring. */
  lemma WrapKeepsIndex(x: int, c: nat)
    requires IsPow2(c) && c <= Index.WORD
    ensures Wrapped(x) % c == x % c
  {
    WordIsPow2();
    var q := Pow2Divides(c, Index.WORD);
    RemainderTwice(x, q, c);
  }
}
