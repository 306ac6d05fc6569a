/** Bytes as eight-bit vectors. */
module Bytes8 {
  import opened Dialect

  function Half(x: int): int {
    x / 2
  }

  predicate Low(x: int) {
    x % 2 == 1
  }

  function FromBits(b0: bool, b1: bool, b2: bool, b3: bool, b4: bool, b5: bool, b6: bool, b7: bool): bv8 {
    (if b0 then 0x01 else 0) | (if b1 then 0x02 else 0) | (if b2 then 0x04 else 0) | (if b3 then 0x08 else 0)
    | (if b4 then 0x10 else 0) | (if b5 then 0x20 else 0) | (if b6 then 0x40 else 0) | (if b7 then 0x80 else 0)
  }

  /** A byte as an eight-bit vector, bit by bit from the low end. */
  function Octet(b: byte): bv8 {
    var h0 := b as int;
    var h1 := Half(h0);
    var h2 := Half(h1);
    var h3 := Half(h2);
    var h4 := Half(h3);
    var h5 := Half(h4);
    var h6 := Half(h5);
    var h7 := Half(h6);
    FromBits(Low(h0), Low(h1), Low(h2), Low(h3), Low(h4), Low(h5), Low(h6), Low(h7))
  }

  lemma BitsOf(b0: bool, b1: bool, b2: bool, b3: bool, b4: bool, b5: bool, b6: bool, b7: bool)
    ensures var o := FromBits(b0, b1, b2, b3, b4, b5, b6, b7);
            && (o & 0x01 != 0 <==> b0) && (o & 0x02 != 0 <==> b1) && (o & 0x04 != 0 <==> b2) && (o & 0x08 != 0 <==> b3)
            && (o & 0x10 != 0 <==> b4) && (o & 0x20 != 0 <==> b5) && (o & 0x40 != 0 <==> b6) && (o & 0x80 != 0 <==> b7)
  {
  }

  /** Two numbers with one low bit and one half are one number. */
  lemma SameNumber(x: int, y: int)
    requires Low(x) == Low(y) && Half(x) == Half(y)
    ensures x == y
  {
  }

  lemma HalfRange(x: int, top: int)
    requires 0 <= x < 2 * top
    ensures 0 <= Half(x) < top
  {
  }

  /** Eight halvings use a byte up. */
  lemma UsedUp(x: int)
    requires 0 <= x < 256
    ensures Half(Half(Half(Half(Half(Half(Half(Half(x)))))))) == 0
  {
    hide Half;
    HalfRange(x, 128);
    HalfRange(Half(x), 64);
    HalfRange(Half(Half(x)), 32);
    HalfRange(Half(Half(Half(x))), 16);
    HalfRange(Half(Half(Half(Half(x)))), 8);
    HalfRange(Half(Half(Half(Half(Half(x))))), 4);
    HalfRange(Half(Half(Half(Half(Half(Half(x)))))), 2);
    HalfRange(Half(Half(Half(Half(Half(Half(Half(x))))))), 1);
  }

  lemma Injective(a: byte, b: byte)
    requires Octet(a) == Octet(b)
    ensures a == b
  {
    hide Half, Low, FromBits;
    var (x1, y1) := (Half(a as int), Half(b as int));
    var (x2, y2) := (Half(x1), Half(y1));
    var (x3, y3) := (Half(x2), Half(y2));
    var (x4, y4) := (Half(x3), Half(y3));
    var (x5, y5) := (Half(x4), Half(y4));
    var (x6, y6) := (Half(x5), Half(y5));
    var (x7, y7) := (Half(x6), Half(y6));
    BitsOf(Low(a as int), Low(x1), Low(x2), Low(x3), Low(x4), Low(x5), Low(x6), Low(x7));
    BitsOf(Low(b as int), Low(y1), Low(y2), Low(y3), Low(y4), Low(y5), Low(y6), Low(y7));
    UsedUp(a as int);
    UsedUp(b as int);
    SameNumber(x7, y7);
    SameNumber(x6, y6);
    SameNumber(x5, y5);
    SameNumber(x4, y4);
    SameNumber(x3, y3);
    SameNumber(x2, y2);
    SameNumber(x1, y1);
    SameNumber(a as int, b as int);
  }

  function Octets(s: seq<byte>): (r: seq<bv8>)
    ensures |r| == |s| && forall i :: 0 <= i < |s| ==> r[i] == Octet(s[i])
  {
    seq(|s|, i requires 0 <= i < |s| => Octet(s[i]))
  }

  lemma SameMembers(b: byte, s: seq<byte>)
    ensures Octet(b) in Octets(s) <==> b in s
  {
    hide Octet;
    if Octet(b) in Octets(s) {
      var i :| 0 <= i < |s| && Octets(s)[i] == Octet(b);
      Injective(b, s[i]);
    }
    if b in s {
      var i :| 0 <= i < |s| && s[i] == b;
      assert Octets(s)[i] == Octet(b);
    }
  }
}
