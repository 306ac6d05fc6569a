/** Unicode scalar values as bytes, by shift and tag: what text is, written without the table of admissible bytes. */
module Encoding {
  import opened Dialect
  import opened Utf8

  /** A code point that is no surrogate. */
  predicate Scalar(u: nat) {
    u <= 0x10FFFF && !(0xD800 <= u <= 0xDFFF)
  }

  /** The low six bits, tagged as a continuation. */
  function Continuation(u: nat): byte {
    (0x80 + u % 0x40) as byte
  }

  /** The bytes of one scalar value (section 3 of RFC 3629). */
  function Encode(u: nat): (s: seq<byte>)
    requires Scalar(u)
    ensures |s| >= 1
  {
    if u < 0x80 then [u as byte]
    else if u < 0x800 then [(0xC0 + u / 0x40) as byte, Continuation(u)]
    else if u < 0x10000 then [(0xE0 + u / 0x1000) as byte, Continuation(u / 0x40), Continuation(u)]
    else [(0xF0 + u / 0x40000) as byte, Continuation(u / 0x1000), Continuation(u / 0x40), Continuation(u)]
  }

  predicate Scalars(us: seq<nat>) {
    forall i :: 0 <= i < |us| ==> Scalar(us[i])
  }

  function EncodeAll(us: seq<nat>): seq<byte>
    requires Scalars(us)
  {
    if us == [] then [] else Encode(us[0]) + EncodeAll(us[1..])
  }

  /** The scalar value that two, three or four bytes encode. */
  function Decode(s: seq<byte>): nat
    requires CharLen(s) >= 1
  {
    var k := CharLen(s);
    if k == 1 then s[0] as nat
    else if k == 2 then (s[0] as nat - 0xC0) * 0x40 + (s[1] as nat - 0x80)
    else if k == 3 then (s[0] as nat - 0xE0) * 0x1000 + (s[1] as nat - 0x80) * 0x40 + (s[2] as nat - 0x80)
    else (s[0] as nat - 0xF0) * 0x40000 + (s[1] as nat - 0x80) * 0x1000 + (s[2] as nat - 0x80) * 0x40 + (s[3] as nat - 0x80)
  }

  lemma Digits(a: nat, x: nat)
    requires x < 0x40
    ensures (a * 0x40 + x) % 0x40 == x && (a * 0x40 + x) / 0x40 == a
  {
  }

  lemma TwoBytes(a: nat, b: nat)
    requires 0xC2 <= a <= 0xDF && 0x80 <= b <= 0xBF
    ensures var u := (a - 0xC0) * 0x40 + (b - 0x80);
            0x80 <= u < 0x800 && 0xC0 + u / 0x40 == a && 0x80 + u % 0x40 == b
  {
    Digits(a - 0xC0, b - 0x80);
  }

  lemma ThreeBytes(a: nat, b: nat, c: nat)
    requires 0xE0 <= a <= 0xEF && 0x80 <= b <= 0xBF && 0x80 <= c <= 0xBF && (a == 0xE0 ==> 0xA0 <= b) && (a == 0xED ==> b <= 0x9F)
    ensures var u := (a - 0xE0) * 0x1000 + (b - 0x80) * 0x40 + (c - 0x80);
            && 0x800 <= u < 0x10000 && Scalar(u)
            && 0xE0 + u / 0x1000 == a && 0x80 + u / 0x40 % 0x40 == b && 0x80 + u % 0x40 == c
  {
    var w := (a - 0xE0) * 0x40 + (b - 0x80);
    Digits(a - 0xE0, b - 0x80);
    Digits(w, c - 0x80);
    var u := w * 0x40 + (c - 0x80);
    assert u / 0x1000 == w / 0x40;
  }

  lemma FourBytes(a: nat, b: nat, c: nat, d: nat)
    requires 0xF0 <= a <= 0xF4 && 0x80 <= b <= 0xBF && 0x80 <= c <= 0xBF && 0x80 <= d <= 0xBF && (a == 0xF0 ==> 0x90 <= b) && (a == 0xF4 ==> b <= 0x8F)
    ensures var u := (a - 0xF0) * 0x40000 + (b - 0x80) * 0x1000 + (c - 0x80) * 0x40 + (d - 0x80);
            && 0x10000 <= u <= 0x10FFFF
            && 0xF0 + u / 0x40000 == a && 0x80 + u / 0x1000 % 0x40 == b && 0x80 + u / 0x40 % 0x40 == c && 0x80 + u % 0x40 == d
  {
    var v := (a - 0xF0) * 0x40 + (b - 0x80);
    var w := v * 0x40 + (c - 0x80);
    Digits(a - 0xF0, b - 0x80);
    Digits(v, c - 0x80);
    Digits(w, d - 0x80);
    var u := w * 0x40 + (d - 0x80);
    assert u / 0x1000 == w / 0x40 && u / 0x40000 == v / 0x40;
  }

  /** A character in front is a scalar value, shifted and tagged. */
  lemma CharIsScalar(s: seq<byte>)
    requires CharLen(s) >= 1
    ensures CharLen(s) <= |s| && Scalar(Decode(s)) && Encode(Decode(s)) == s[..CharLen(s)]
  {
    var k := CharLen(s);
    CharBytes(s);
    hide CharLen, Width, Begins, Second;
    if k == 2 {
      TwoBytes(s[0] as nat, s[1] as nat);
    } else if k == 3 {
      ThreeBytes(s[0] as nat, s[1] as nat, s[2] as nat);
    } else if k == 4 {
      FourBytes(s[0] as nat, s[1] as nat, s[2] as nat, s[3] as nat);
    }
  }

  lemma CharBytes(s: seq<byte>)
    requires CharLen(s) >= 1
    ensures 1 <= CharLen(s) <= |s| && CharLen(s) <= 4
    ensures CharLen(s) == 1 ==> s[0] <= 0x7F
    ensures CharLen(s) == 2 ==> 0xC2 <= s[0] <= 0xDF && Tail(s[1])
    ensures CharLen(s) == 3 ==> 0xE0 <= s[0] <= 0xEF && Tail(s[1]) && Tail(s[2]) && (s[0] == 0xE0 ==> 0xA0 <= s[1]) && (s[0] == 0xED ==> s[1] <= 0x9F)
    ensures CharLen(s) == 4 ==> 0xF0 <= s[0] <= 0xF4 && Tail(s[1]) && Tail(s[2]) && Tail(s[3]) && (s[0] == 0xF0 ==> 0x90 <= s[1]) && (s[0] == 0xF4 ==> s[1] <= 0x8F)
  {
  }

  /** A scalar value's bytes are one character, whatever follows. */
  lemma ScalarIsChar(u: nat, more: seq<byte>)
    requires Scalar(u)
    ensures CharLen(Encode(u) + more) == |Encode(u)|
  {
    var s, e := Encode(u) + more, Encode(u);
    assert s[..|e|] == e;
    assert forall i :: 0 <= i < |e| ==> s[i] == e[i];
    LeadIs(u);
  }

  /** The bytes of a scalar value, as the table of admissible bytes has them. */
  lemma LeadIs(u: nat)
    requires Scalar(u)
    ensures var e := Encode(u); Width(e[0]) == |e| && Begins(e, |e|)
  {
  }

  /** Any cut through them is the start of one. */
  lemma CutIsTruncated(u: nat, k: nat)
    requires Scalar(u) && 0 < k < |Encode(u)|
    ensures Truncated(Encode(u)[..k])
  {
    LeadIs(u);
    hide Encode, Scalar;
  }

  /** Text is exactly what encodes some scalar values. */
  lemma {:induction false} WellFormedIffEncoded(s: seq<byte>)
    ensures WellFormed(s) <==> exists us :: Scalars(us) && EncodeAll(us) == s
  {
    if WellFormed(s) {
      var us := Decoded(s);
    }
    if us :| Scalars(us) && EncodeAll(us) == s {
      EncodedIsText(us);
    }
  }

  lemma {:induction false} Decoded(s: seq<byte>) returns (us: seq<nat>)
    requires WellFormed(s)
    ensures Scalars(us) && EncodeAll(us) == s
    decreases |s|
  {
    hide CharLen, Encode, Decode, Scalar;
    if s == [] {
      return [];
    }
    CharIsScalar(s);
    var k := CharLen(s);
    var rest := Decoded(s[k..]);
    us := [Decode(s)] + rest;
    assert us[1..] == rest && s == s[..k] + s[k..];
  }

  lemma {:induction false} EncodedIsText(us: seq<nat>)
    requires Scalars(us)
    ensures WellFormed(EncodeAll(us))
    decreases |us|
  {
    hide CharLen, Encode, Scalar;
    if us != [] {
      var s, rest := EncodeAll(us), EncodeAll(us[1..]);
      EncodedIsText(us[1..]);
      ScalarIsChar(us[0], rest);
      assert s[|Encode(us[0])|..] == rest;
    }
  }

  /** What stops in the middle of a character is a proper prefix of one. */
  lemma TruncatedIffPrefix(s: seq<byte>)
    ensures Truncated(s) <==> s != [] && exists u :: Scalar(u) && s < Encode(u)
  {
    if Truncated(s) {
      var t := Completed(s);
      CharIsScalar(t);
      assert s < Encode(Decode(t));
    }
    if u :| s != [] && Scalar(u) && s < Encode(u) {
      CutIsTruncated(u, |s|);
      assert Truncated(Encode(u)[..|s|]);
    }
  }

  /** Continuations that complete a truncated character. */
  lemma Completed(s: seq<byte>) returns (t: seq<byte>)
    requires Truncated(s)
    ensures s < t && CharLen(t) == |t|
  {
    var second: byte := if s[0] == 0xE0 then 0xA0 else if s[0] == 0xF0 then 0x90 else 0x80;
    t := if |s| == 1 then [s[0], second, 0x80, 0x80][..Width(s[0])]
         else if |s| == 2 then [s[0], s[1], 0x80, 0x80][..Width(s[0])]
         else s + [0x80];
  }
}
