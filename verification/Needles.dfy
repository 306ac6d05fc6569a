/** Eight bytes at a time: the word-wide search for the next structural byte. */
module Needles {
  import opened Dialect
  import opened Bytes8

  const LO: bv64 := 0x0101_0101_0101_0101
  const HI: bv64 := 0x8080_8080_8080_8080

  /** Up to four needle bytes. */
  datatype StructuralNeedles = StructuralNeedles(bytes: seq<byte>) {
    predicate Valid() {
      |bytes| <= 4
    }
  }

  /** A byte in the low lane of a word. */
  function Bits(o: bv8): bv64 {
    o as bv64
  }

  function Pack(b0: bv64, b1: bv64, b2: bv64, b3: bv64, b4: bv64, b5: bv64, b6: bv64, b7: bv64): bv64 {
    b0 | (b1 << 8) | (b2 << 16) | (b3 << 24) | (b4 << 32) | (b5 << 40) | (b6 << 48) | (b7 << 56)
  }

  /** Eight bytes as a little-endian word. */
  function Word(s: seq<bv8>): bv64
    requires |s| == 8
  {
    Pack(Bits(s[0]), Bits(s[1]), Bits(s[2]), Bits(s[3]), Bits(s[4]), Bits(s[5]), Bits(s[6]), Bits(s[7]))
  }

  /** One byte in all eight lanes. */
  function Broadcast(b: bv8): bv64 {
    Word([b, b, b, b, b, b, b, b])
  }

  /** The `haszero` test: sets the high bit of every zero lane, and maybe of lanes above one. */
  function HasZero(x: bv64): bv64 {
    (x - LO) & !x & HI
  }

  function Lane(x: bv64, k: nat): bv64
    requires k < 8
  {
    match k
    case 0 => x & 0xff
    case 1 => (x >> 8) & 0xff
    case 2 => (x >> 16) & 0xff
    case 3 => (x >> 24) & 0xff
    case 4 => (x >> 32) & 0xff
    case 5 => (x >> 40) & 0xff
    case 6 => (x >> 48) & 0xff
    case 7 => (x >> 56) & 0xff
  }

  /** Whether lane `k`'s tag bit is set. */
  predicate Tagged(h: bv64, k: nat)
    requires k < 8
  {
    Lane(h, k) & 0x80 != 0
  }

  lemma Lanes(x: bv64, k: nat)
    requires k < 8 && forall i :: 0 <= i < k ==> Lane(x, i) != 0
    ensures k > 0 ==> x & 0xff != 0
    ensures k > 1 ==> (x >> 8) & 0xff != 0
    ensures k > 2 ==> (x >> 16) & 0xff != 0
    ensures k > 3 ==> (x >> 24) & 0xff != 0
    ensures k > 4 ==> (x >> 32) & 0xff != 0
    ensures k > 5 ==> (x >> 40) & 0xff != 0
    ensures k > 6 ==> (x >> 48) & 0xff != 0
  {
    if k > 0 { assert Lane(x, 0) != 0; }
    if k > 1 { assert Lane(x, 1) != 0; }
    if k > 2 { assert Lane(x, 2) != 0; }
    if k > 3 { assert Lane(x, 3) != 0; }
    if k > 4 { assert Lane(x, 4) != 0; }
    if k > 5 { assert Lane(x, 5) != 0; }
    if k > 6 { assert Lane(x, 6) != 0; }
  }

  /** The borrow of the subtraction starts at a zero lane, so the lowest tag is a true hit. */
  lemma LowestTagIsZeroLane(x: bv64, k: nat)
    requires k < 8 && forall i :: 0 <= i < k ==> Lane(x, i) != 0
    ensures Tagged(HasZero(x), k) <==> Lane(x, k) == 0
  {
    match k
    case 0 =>
    case 1 => Lanes(x, 1);
    case 2 => Lanes(x, 2);
    case 3 => Lanes(x, 3);
    case 4 => Lanes(x, 4);
    case 5 => Lanes(x, 5);
    case 6 => Lanes(x, 6);
    case 7 => Lanes(x, 7);
  }

  /** `trailing_zeros / 8` of a nonzero word of tags. */
  function LowestLane(h: bv64): nat {
    if h & 0xff != 0 then 0
    else if h & 0xff00 != 0 then 1
    else if h & 0xff_0000 != 0 then 2
    else if h & 0xff00_0000 != 0 then 3
    else if h & 0xff_0000_0000 != 0 then 4
    else if h & 0xff00_0000_0000 != 0 then 5
    else if h & 0xff_0000_0000_0000 != 0 then 6
    else 7
  }

  predicate OneLane(x: bv64) {
    x & 0xff == x
  }

  /** A byte occupies the low eight bits only. */
  lemma OctetBits(o: bv8)
    ensures OneLane(Bits(o))
  {
  }

  /** Distinct bytes have distinct bits. */
  lemma BitsInjective(x: bv8, y: bv8)
    ensures Bits(x) == Bits(y) <==> x == y
  {
  }

  lemma PackedLanes(b0: bv64, b1: bv64, b2: bv64, b3: bv64, b4: bv64, b5: bv64, b6: bv64, b7: bv64)
    requires OneLane(b0) && OneLane(b1) && OneLane(b2) && OneLane(b3)
    requires OneLane(b4) && OneLane(b5) && OneLane(b6) && OneLane(b7)
    ensures var w := Pack(b0, b1, b2, b3, b4, b5, b6, b7);
            && Lane(w, 0) == b0 && Lane(w, 1) == b1 && Lane(w, 2) == b2 && Lane(w, 3) == b3
            && Lane(w, 4) == b4 && Lane(w, 5) == b5 && Lane(w, 6) == b6 && Lane(w, 7) == b7
  {
  }

  lemma LaneOfWord(s: seq<bv8>, k: nat)
    requires |s| == 8 && k < 8
    ensures Lane(Word(s), k) == Bits(s[k])
  {
    hide Lane, Pack, Bits, OneLane;
    OctetBits(s[0]); OctetBits(s[1]); OctetBits(s[2]); OctetBits(s[3]);
    OctetBits(s[4]); OctetBits(s[5]); OctetBits(s[6]); OctetBits(s[7]);
    PackedLanes(Bits(s[0]), Bits(s[1]), Bits(s[2]), Bits(s[3]), Bits(s[4]), Bits(s[5]), Bits(s[6]), Bits(s[7]));
  }

  lemma LaneOfBroadcast(n: bv8, k: nat)
    requires k < 8
    ensures Lane(Broadcast(n), k) == Bits(n)
  {
    hide Lane, Word, Bits, Pack;
    var s := [n, n, n, n, n, n, n, n];
    LaneOfWord(s, k);
    assert s[k] == n;
  }

  lemma XorLow(x: bv64, y: bv64)
    ensures (x ^ y) & 0xff == (x & 0xff) ^ (y & 0xff)
    ensures (x & 0xff) ^ (y & 0xff) == 0 <==> x & 0xff == y & 0xff
  {
  }

  lemma XorLanes(x: bv64, y: bv64, k: nat)
    requires k < 8
    ensures Lane(x ^ y, k) == 0 <==> Lane(x, k) == Lane(y, k)
  {
    match k
    case 0 => XorLow(x, y);
    case 1 => assert (x ^ y) >> 8 == (x >> 8) ^ (y >> 8); XorLow(x >> 8, y >> 8);
    case 2 => assert (x ^ y) >> 16 == (x >> 16) ^ (y >> 16); XorLow(x >> 16, y >> 16);
    case 3 => assert (x ^ y) >> 24 == (x >> 24) ^ (y >> 24); XorLow(x >> 24, y >> 24);
    case 4 => assert (x ^ y) >> 32 == (x >> 32) ^ (y >> 32); XorLow(x >> 32, y >> 32);
    case 5 => assert (x ^ y) >> 40 == (x >> 40) ^ (y >> 40); XorLow(x >> 40, y >> 40);
    case 6 => assert (x ^ y) >> 48 == (x >> 48) ^ (y >> 48); XorLow(x >> 48, y >> 48);
    case 7 => assert (x ^ y) >> 56 == (x >> 56) ^ (y >> 56); XorLow(x >> 56, y >> 56);
  }

  lemma XorLanesOf(x: bv64, y: bv64, a: bv64, b: bv64, k: nat)
    requires k < 8 && Lane(x, k) == a && Lane(y, k) == b
    ensures Lane(x ^ y, k) == 0 <==> a == b
  {
    hide *;
    XorLanes(x, y, k);
  }

  /** Comparing a word with a broadcast needle zeroes exactly the lanes that hold it. */
  lemma CompareBits(w: bv64, b: bv64, s: seq<bv8>, n: bv8, k: nat)
    requires |s| == 8 && k < 8 && w == Word(s) && b == Broadcast(n)
    ensures Lane(w ^ b, k) == 0 <==> Bits(s[k]) == Bits(n)
  {
    hide *;
    LaneOfWord(s, k);
    LaneOfBroadcast(n, k);
    XorLanesOf(w, b, Bits(s[k]), Bits(n), k);
  }

  lemma CompareFinds(w: bv64, b: bv64, s: seq<bv8>, n: bv8, k: nat)
    requires |s| == 8 && k < 8 && w == Word(s) && b == Broadcast(n)
    ensures Lane(w ^ b, k) == 0 <==> s[k] == n
  {
    hide *;
    CompareBits(w, b, s, n, k);
    BitsInjective(s[k], n);
  }

  /** Lane `k` of `x` is zero exactly where `s` holds the needle. */
  ghost predicate ZeroWhere(x: bv64, s: seq<bv8>, n: bv8)
    requires |s| == 8
  {
    forall k :: 0 <= k < 8 ==> (Lane(x, k) == 0 <==> s[k] == n)
  }

  lemma CompareZeroes(w: bv64, b: bv64, x: bv64, s: seq<bv8>, n: bv8)
    requires |s| == 8 && w == Word(s) && b == Broadcast(n) && x == w ^ b
    ensures ZeroWhere(x, s, n)
  {
    hide Lane, Word, Broadcast;
    forall k | 0 <= k < 8
      ensures Lane(x, k) == 0 <==> s[k] == n
    {
      CompareFinds(w, b, s, n, k);
    }
  }

  /** Below the first lane that holds one of the needles no lane is tagged; that lane is. */
  ghost predicate TagsFirst(hits: bv64, s: seq<bv8>, needles: seq<bv8>)
    requires |s| == 8
  {
    forall k :: 0 <= k < 8 && (forall i :: 0 <= i < k ==> s[i] !in needles) ==> (Tagged(hits, k) <==> s[k] in needles)
  }

  lemma OneNeedle(x: bv64, s: seq<bv8>, n: bv8)
    requires |s| == 8 && ZeroWhere(x, s, n)
    ensures TagsFirst(HasZero(x), s, [n])
  {
    hide Lane, HasZero, Tagged;
    forall k | 0 <= k < 8 && (forall i :: 0 <= i < k ==> s[i] !in [n])
      ensures Tagged(HasZero(x), k) <==> s[k] in [n]
    {
      forall i | 0 <= i < k ensures Lane(x, i) != 0 {
        assert s[i] !in [n];
      }
      LowestTagIsZeroLane(x, k);
    }
  }

  lemma OrLow(x: bv64, y: bv64)
    ensures ((x | y) & 0xff) & 0x80 != 0 <==> (x & 0xff) & 0x80 != 0 || (y & 0xff) & 0x80 != 0
  {
  }

  lemma TaggedOr(x: bv64, y: bv64, k: nat)
    requires k < 8
    ensures Tagged(x | y, k) <==> Tagged(x, k) || Tagged(y, k)
  {
    match k
    case 0 => OrLow(x, y);
    case 1 => assert (x | y) >> 8 == (x >> 8) | (y >> 8); OrLow(x >> 8, y >> 8);
    case 2 => assert (x | y) >> 16 == (x >> 16) | (y >> 16); OrLow(x >> 16, y >> 16);
    case 3 => assert (x | y) >> 24 == (x >> 24) | (y >> 24); OrLow(x >> 24, y >> 24);
    case 4 => assert (x | y) >> 32 == (x >> 32) | (y >> 32); OrLow(x >> 32, y >> 32);
    case 5 => assert (x | y) >> 40 == (x >> 40) | (y >> 40); OrLow(x >> 40, y >> 40);
    case 6 => assert (x | y) >> 48 == (x >> 48) | (y >> 48); OrLow(x >> 48, y >> 48);
    case 7 => assert (x | y) >> 56 == (x >> 56) | (y >> 56); OrLow(x >> 56, y >> 56);
  }

  lemma MoreNeedles(h: bv64, t: bv64, s: seq<bv8>, needles: seq<bv8>, n: bv8)
    requires |s| == 8 && TagsFirst(h, s, needles) && TagsFirst(t, s, [n])
    ensures TagsFirst(h | t, s, needles + [n])
  {
    hide Tagged;
    forall k | 0 <= k < 8 && (forall i :: 0 <= i < k ==> s[i] !in needles + [n])
      ensures Tagged(h | t, k) <==> s[k] in needles + [n]
    {
      forall i | 0 <= i < k ensures s[i] !in needles && s[i] !in [n] {
        assert s[i] !in needles + [n];
      }
      TaggedOr(h, t, k);
    }
  }

  lemma LowestLaneIsLowest(h: bv64)
    requires h & !HI == 0
    ensures h == 0 ==> forall k :: 0 <= k < 8 ==> !Tagged(h, k)
    ensures h != 0 ==> LowestLane(h) < 8 && Tagged(h, LowestLane(h)) && forall k :: 0 <= k < LowestLane(h) ==> !Tagged(h, k)
  {
  }

  /** The first position of `s` that holds a needle. */
  ghost predicate FirstIn<T>(s: seq<T>, needles: seq<T>, r: Option<nat>) {
    match r
    case Some(k) => k < |s| && s[k] in needles && forall i :: 0 <= i < k ==> s[i] !in needles
    case None => forall i :: 0 <= i < |s| ==> s[i] !in needles
  }

  lemma {:induction false} UntaggedBelow(hits: bv64, s: seq<bv8>, needles: seq<bv8>, k: nat)
    requires |s| == 8 && TagsFirst(hits, s, needles) && k <= 8
    requires forall i :: 0 <= i < k ==> !Tagged(hits, i)
    ensures forall i :: 0 <= i < k ==> s[i] !in needles
  {
    hide Tagged;
    if k > 0 {
      UntaggedBelow(hits, s, needles, k - 1);
    }
  }

  /** One word: the lowest tagged lane of all needles' tags. */
  method MatchLanes(s: seq<bv8>, needles: seq<bv8>) returns (r: Option<nat>)
    requires |s| == 8
    ensures FirstIn(s, needles, r)
  {
    hide Lane, Word, Broadcast, HasZero, Tagged;
    var w := Word(s);
    var hits: bv64 := 0;
    NoTags();
    var m := 0;
    while m < |needles|
      invariant 0 <= m <= |needles|
      invariant hits & !HI == 0
      invariant TagsFirst(hits, s, needles[..m])
    {
      var b := Broadcast(needles[m]);
      var x := w ^ b;
      CompareZeroes(w, b, x, s, needles[m]);
      OneNeedle(x, s, needles[m]);
      TagBits(hits, x);
      MoreNeedles(hits, HasZero(x), s, needles[..m], needles[m]);
      hits := hits | HasZero(x);
      assert needles[..m + 1] == needles[..m] + [needles[m]];
      m := m + 1;
    }
    assert needles[..|needles|] == needles;
    LowestLaneIsLowest(hits);
    if hits == 0 {
      UntaggedBelow(hits, s, needles, 8);
      return None;
    }
    UntaggedBelow(hits, s, needles, LowestLane(hits));
    return Some(LowestLane(hits));
  }

  lemma NoTags()
    ensures forall k :: 0 <= k < 8 ==> !Tagged(0, k)
  {
  }

  lemma TagBits(h: bv64, x: bv64)
    requires h & !HI == 0
    ensures (h | HasZero(x)) & !HI == 0
  {
  }

  lemma NoneInOctets(hay: seq<byte>, needles: seq<byte>, lo: nat, r: Option<nat>)
    requires lo + 8 <= |hay|
    requires FirstIn(Octets(hay[lo..lo + 8]), Octets(needles), r)
    ensures r.Some? ==> r.value < 8
    ensures FirstIn(hay[lo..lo + 8], needles, r)
  {
    hide Octet;
    forall b: byte ensures Octet(b) in Octets(needles) <==> b in needles {
      SameMembers(b, needles);
    }
  }

  /**
   * The search as the hot loop runs it: whole words, then one overlapping word for the tail,
   * or a plain scan below one word. It returns what a naive scan returns.
   */
  method Find(n: StructuralNeedles, hay: seq<byte>) returns (r: Option<nat>)
    requires n.Valid()
    ensures FirstIn(hay, n.bytes, r)
  {
    hide Octet, FromBits, Half, Low;
    if |n.bytes| == 0 {
      return None;
    }
    var pos := 0;
    while pos + 8 <= |hay|
      invariant 0 <= pos <= |hay|
      invariant forall i :: 0 <= i < pos ==> hay[i] !in n.bytes
    {
      var off := MatchLanes(Octets(hay[pos..pos + 8]), Octets(n.bytes));
      NoneInOctets(hay, n.bytes, pos, off);
      assert forall i :: pos <= i < pos + 8 ==> hay[i] == hay[pos..pos + 8][i - pos];
      if off.Some? {
        return Some(pos + off.value);
      }
      pos := pos + 8;
    }
    if pos < |hay| {
      if |hay| >= 8 {
        var start := |hay| - 8;
        var off := MatchLanes(Octets(hay[start..start + 8]), Octets(n.bytes));
        NoneInOctets(hay, n.bytes, start, off);
        assert forall i :: start <= i < start + 8 ==> hay[i] == hay[start..start + 8][i - start];
        if off.Some? {
          assert start + off.value >= pos;
          return Some(start + off.value);
        }
      } else {
        var i := pos;
        while i < |hay|
          invariant pos <= i <= |hay|
          invariant forall k :: 0 <= k < i ==> hay[k] !in n.bytes
        {
          if hay[i] in n.bytes {
            return Some(i);
          }
          i := i + 1;
        }
      }
    }
    return None;
  }
}
