/** Well-formed byte sequences of section 4 of RFC 3629, and their incremental validation. */
module Utf8 {
  import opened Dialect

  predicate Tail(b: byte) {
    0x80 <= b <= 0xBF
  }

  /** How many bytes a lead byte announces; 0 if it cannot lead. */
  function Width(lead: byte): nat {
    if lead <= 0x7F then 1
    else if 0xC2 <= lead <= 0xDF then 2
    else if 0xE0 <= lead <= 0xEF then 3
    else if 0xF0 <= lead <= 0xF4 then 4
    else 0
  }

  /** The second byte a lead byte admits. */
  predicate Second(lead: byte, b: byte) {
    if lead == 0xE0 then 0xA0 <= b <= 0xBF
    else if lead == 0xED then 0x80 <= b <= 0x9F
    else if lead == 0xF0 then 0x90 <= b <= 0xBF
    else if lead == 0xF4 then 0x80 <= b <= 0x8F
    else Tail(b)
  }

  /** The first `k` bytes of `s` can begin the character `s[0]` leads. */
  predicate Begins(s: seq<byte>, k: nat) {
    && k <= |s|
    && (k >= 1 ==> k <= Width(s[0]))
    && (k >= 2 ==> Second(s[0], s[1]))
    && (k >= 3 ==> Tail(s[2]))
    && (k >= 4 ==> Tail(s[3]))
  }

  /** Length of the character at the front of `s`; 0 if there is none. */
  function CharLen(s: seq<byte>): nat {
    if s != [] && Width(s[0]) >= 1 && Begins(s, Width(s[0])) then Width(s[0]) else 0
  }

  /** `s` stops in the middle of a character. */
  predicate Truncated(s: seq<byte>) {
    s != [] && |s| < Width(s[0]) && Begins(s, |s|)
  }

  predicate WellFormed(s: seq<byte>)
    decreases |s|
  {
    s == [] || (CharLen(s) >= 1 && CharLen(s) <= |s| && WellFormed(s[CharLen(s)..]))
  }

  /** The longest well-formed prefix. */
  function ValidUpTo(s: seq<byte>): (n: nat)
    ensures n <= |s|
    ensures WellFormed(s[..n])
    ensures n < |s| ==> CharLen(s[n..]) == 0
    decreases |s|
  {
    if CharLen(s) == 0 then 0
    else
      var k := CharLen(s);
      var n := ValidUpTo(s[k..]);
      Front(s, k + n);
      assert s[..k + n][k..] == s[k..][..n];
      assert s[k + n..] == s[k..][n..];
      k + n
  }

  /** A character at the front stays one when the bytes behind it change. */
  lemma Front(s: seq<byte>, n: nat)
    requires CharLen(s) <= n <= |s|
    ensures CharLen(s) >= 1 ==> CharLen(s[..n]) == CharLen(s)
  {
  }

  datatype Check = Valid(upTo: nat) | Invalid(at: nat)

  /** `validate_chunk`: text may end mid-character, raw bytes are always valid. */
  function ValidateChunk(text: bool, s: seq<byte>): (r: Check)
    ensures r.Valid? ==> r.upTo <= |s| && (text ==> WellFormed(s[..r.upTo]))
    ensures r.Valid? && r.upTo < |s| ==> text && Truncated(s[r.upTo..])
    ensures r.Invalid? ==> text && r.at < |s| && WellFormed(s[..r.at]) && CharLen(s[r.at..]) == 0 && !Truncated(s[r.at..])
  {
    if !text then Valid(|s|)
    else
      var n := ValidUpTo(s);
      if n == |s| || Truncated(s[n..]) then Valid(n) else Invalid(n)
  }

  /** Well-formedness is decided piecewise at a character boundary. */
  lemma {:induction false} Concat(a: seq<byte>, b: seq<byte>)
    requires WellFormed(a)
    ensures WellFormed(a + b) <==> WellFormed(b)
    decreases |a|
  {
    if a == [] {
      assert a + b == b;
    } else {
      var k := CharLen(a);
      Front(a + b, |a|);
      assert (a + b)[..|a|] == a;
      assert (a + b)[k..] == a[k..] + b;
      Concat(a[k..], b);
    }
  }

  /** Bytes that are neither a character nor the start of one stay ill-formed, whatever follows. */
  lemma StuckForever(s: seq<byte>, more: seq<byte>)
    requires s != [] && CharLen(s) == 0 && !Truncated(s)
    ensures CharLen(s + more) == 0 && !WellFormed(s + more)
  {
    if Width(s[0]) >= 1 {
      assert (s + more)[0] == s[0];
    }
  }

  /** The text from `start` on is well-formed up to `at`, and the byte there begins no character. */
  predicate Stuck(data: seq<byte>, start: nat, at: nat) {
    start <= at < |data| && WellFormed(data[start..at]) && CharLen(data[at..]) == 0
  }

  lemma StuckIsBad(data: seq<byte>, start: nat, at: nat)
    requires Stuck(data, start, at)
    ensures !WellFormed(data[start..])
  {
    assert !WellFormed(data[at..]);
    hide WellFormed, CharLen;
    Concat(data[start..at], data[at..]);
    assert data[start..] == data[start..at] + data[at..];
  }

  /** There is only one such byte. */
  lemma StuckOnce(data: seq<byte>, start: nat, at: nat, other: nat)
    requires Stuck(data, start, at) && Stuck(data, start, other)
    ensures at == other
  {
    if at < other {
      NoneBefore(data, start, at, other);
    } else if other < at {
      NoneBefore(data, start, other, at);
    }
  }

  lemma NoneBefore(data: seq<byte>, start: nat, at: nat, other: nat)
    requires start <= at < other <= |data| && WellFormed(data[start..at]) && CharLen(data[at..]) == 0
    ensures !WellFormed(data[start..other])
  {
    var rest := data[at..other];
    Concat(data[start..at], rest);
    assert data[start..other] == data[start..at] + rest;
    assert rest == data[at..][..other - at];
    NoCharInFront(data[at..], other - at);
  }

  lemma NoCharInFront(s: seq<byte>, n: nat)
    requires CharLen(s) == 0 && 0 < n <= |s|
    ensures CharLen(s[..n]) == 0
  {
  }

  lemma StuckBehind(data: seq<byte>, start: nat, p: nat, at: nat)
    requires start <= p <= |data| && WellFormed(data[start..p]) && Stuck(data, p, at)
    ensures Stuck(data, start, at)
  {
    hide WellFormed, CharLen;
    Concat(data[start..p], data[p..at]);
    assert data[start..at] == data[start..p] + data[p..at];
  }

  /** A truncated character is not well-formed by itself, and is shorter than four bytes. */
  lemma TruncatedIsShort(s: seq<byte>)
    requires Truncated(s)
    ensures |s| < 4 && !WellFormed(s)
  {
  }
}
