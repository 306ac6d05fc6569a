/** Sixty-four-bit masks, bit `i` for byte `i` of a vector. */
module Masks {
  const VECTOR_BYTES: nat := 64

  type Mask = s: seq<bool> | |s| == 64 witness seq(64, _ => false)

  function Zero(): (r: Mask)
    ensures forall i :: 0 <= i < 64 ==> !r[i]
  {
    seq(64, _ => false)
  }

  function Fill(b: bool): (r: Mask)
    ensures forall i :: 0 <= i < 64 ==> r[i] == b
  {
    seq(64, _ => b)
  }

  function And(x: Mask, y: Mask): (r: Mask)
    ensures forall i :: 0 <= i < 64 ==> r[i] == (x[i] && y[i])
  {
    seq(64, i requires 0 <= i < 64 => x[i] && y[i])
  }

  function Or(x: Mask, y: Mask): (r: Mask)
    ensures forall i :: 0 <= i < 64 ==> r[i] == (x[i] || y[i])
  {
    seq(64, i requires 0 <= i < 64 => x[i] || y[i])
  }

  function Xor(x: Mask, y: Mask): (r: Mask)
    ensures forall i :: 0 <= i < 64 ==> r[i] == (x[i] != y[i])
  {
    seq(64, i requires 0 <= i < 64 => x[i] != y[i])
  }

  function Not(x: Mask): (r: Mask)
    ensures forall i :: 0 <= i < 64 ==> r[i] == !x[i]
  {
    seq(64, i requires 0 <= i < 64 => !x[i])
  }

  /** `(x << 1) | carry`. */
  function Shl1(x: Mask, carry: bool): (r: Mask)
    ensures r[0] == carry && forall i :: 1 <= i < 64 ==> r[i] == x[i - 1]
  {
    seq(64, i requires 0 <= i < 64 => if i == 0 then carry else x[i - 1])
  }

  /** `(x >> 1) | (next << 63)`. */
  function Shr1(x: Mask, next: bool): (r: Mask)
    ensures r[63] == next && forall i :: 0 <= i < 63 ==> r[i] == x[i + 1]
  {
    seq(64, i requires 0 <= i < 64 => if i == 63 then next else x[i + 1])
  }

  /** `x << k`. */
  function Shl(x: Mask, k: nat): (r: Mask)
    ensures forall i :: 0 <= i < 64 ==> r[i] == (i >= k && x[i - k])
  {
    seq(64, i requires 0 <= i < 64 => i >= k && x[i - k])
  }

  function Count(x: seq<bool>): (n: nat)
    ensures n <= |x|
  {
    if x == [] then 0 else Count(x[..|x| - 1]) + (if x[|x| - 1] then 1 else 0)
  }

  predicate Parity(x: seq<bool>) {
    x != [] && (Parity(x[..|x| - 1]) != x[|x| - 1])
  }

  /** The XOR of the `width` bits that end at bit `i`, fewer near the low end. */
  predicate WindowParity(x: Mask, i: nat, width: nat)
    requires i < 64
  {
    Parity(x[(if i + 1 < width then 0 else i + 1 - width)..i + 1])
  }

  lemma {:induction false} ParityConcat(a: seq<bool>, b: seq<bool>)
    ensures Parity(a + b) == (Parity(a) != Parity(b))
    decreases |b|
  {
    if b == [] {
      assert a + b == a;
    } else {
      ParityConcat(a, b[..|b| - 1]);
      assert (a + b)[..|a + b| - 1] == a + b[..|b| - 1];
    }
  }

  lemma WindowSplits(q: Mask, i: nat, w: nat)
    requires 1 <= w <= i < 64
    ensures WindowParity(q, i, 2 * w) == (WindowParity(q, i - w, w) != WindowParity(q, i, w))
  {
    hide Parity;
    var lo := if i + 1 < 2 * w then 0 else i + 1 - 2 * w;
    assert q[lo..i + 1] == q[lo..i + 1 - w] + q[i + 1 - w..i + 1];
    ParityConcat(q[lo..i + 1 - w], q[i + 1 - w..i + 1]);
  }

  lemma WindowWhole(q: Mask, i: nat, w: nat)
    requires i < w && i < 64
    ensures WindowParity(q, i, 2 * w) == WindowParity(q, i, w)
  {
  }

  lemma Doubling(q: Mask, x: Mask, w: nat)
    requires w >= 1 && forall i :: 0 <= i < 64 ==> x[i] == WindowParity(q, i, w)
    ensures forall i :: 0 <= i < 64 ==> Xor(x, Shl(x, w))[i] == WindowParity(q, i, 2 * w)
  {
    hide WindowParity;
    forall i | 0 <= i < 64
      ensures Xor(x, Shl(x, w))[i] == WindowParity(q, i, 2 * w)
    {
      if i >= w {
        WindowSplits(q, i, w);
      } else {
        WindowWhole(q, i, w);
      }
    }
  }

  /** Six doubling shifts compute the prefix XOR of all 64 bits. */
  method XorPrefixSum(q0: Mask) returns (q: Mask)
    ensures forall i :: 0 <= i < 64 ==> q[i] == Parity(q0[..i + 1])
  {
    hide WindowParity, Parity;
    q := q0;
    Start(q0);
    Doubling(q0, q, 1);
    q := Xor(q, Shl(q, 1));
    Doubling(q0, q, 2);
    q := Xor(q, Shl(q, 2));
    Doubling(q0, q, 4);
    q := Xor(q, Shl(q, 4));
    Doubling(q0, q, 8);
    q := Xor(q, Shl(q, 8));
    Doubling(q0, q, 16);
    q := Xor(q, Shl(q, 16));
    Doubling(q0, q, 32);
    q := Xor(q, Shl(q, 32));
    Done(q0);
  }

  lemma Start(q: Mask)
    ensures forall i :: 0 <= i < 64 ==> q[i] == WindowParity(q, i, 1)
  {
    forall i | 0 <= i < 64 ensures q[i] == WindowParity(q, i, 1) {
      assert q[i..i + 1] == [q[i]];
      assert [q[i]][..0] == [] && !Parity([]);
    }
  }

  lemma Done(q: Mask)
    ensures forall i :: 0 <= i < 64 ==> WindowParity(q, i, 64) == Parity(q[..i + 1])
  {
  }
}
