/** Bytes and the little-endian words the files are made of. */
module Bytes {
  datatype Option<+T> = None | Some(value: T)

  type byte = x: int | 0 <= x < 256

  const U32_LIMIT := 0x1_0000_0000
  const I32_MIN := -0x8000_0000
  const I32_MAX := 0x7FFF_FFFF

  function U32Bytes(n: nat): (b: seq<byte>)
    requires n < U32_LIMIT
    ensures |b| == 4
  {
    [n % 256, n / 256 % 256, n / 65536 % 256, n / 16777216]
  }

  function U32(b: seq<byte>): (n: nat)
    requires |b| == 4
    ensures n < U32_LIMIT
  {
    var (b0: int, b1: int, b2: int, b3: int) := (b[0], b[1], b[2], b[3]);
    b0 + 256 * b1 + 65536 * b2 + 16777216 * b3
  }

  /** A signed 32-bit number in two's complement. */
  function I32Bytes(v: int): (b: seq<byte>)
    requires I32_MIN <= v <= I32_MAX
    ensures |b| == 4
  {
    U32Bytes(if v < 0 then v + U32_LIMIT else v)
  }

  function I32(b: seq<byte>): (v: int)
    requires |b| == 4
    ensures I32_MIN <= v <= I32_MAX
  {
    var n := U32(b);
    if n <= I32_MAX then n else n - U32_LIMIT
  }

  /** Words and their four bytes determine each other. */
  lemma U32Bijection(n: nat, b: seq<byte>)
    requires n < U32_LIMIT && |b| == 4
    ensures U32(b) == n <==> U32Bytes(n) == b
  {
    DigitsOf(n);
    if U32(b) == n { DigitsUnique(b[0], b[1], b[2], b[3]); }
  }

  lemma DigitsOf(n: nat)
    requires n < U32_LIMIT
    ensures U32(U32Bytes(n)) == n
  {
    var q1, q2, q3 := n / 256, n / 65536, n / 16777216;
    assert n == 256 * q1 + n % 256;
    assert q1 == 256 * q2 + q1 % 256 by { assert q2 == q1 / 256; }
    assert q2 == 256 * q3 + q2 % 256 by { assert q3 == q2 / 256; }
  }

  lemma DigitsUnique(b0: byte, b1: byte, b2: byte, b3: byte)
    ensures U32Bytes(U32([b0, b1, b2, b3])) == [b0, b1, b2, b3]
  {
    var n := U32([b0, b1, b2, b3]);
    var (c1: int, c2: int, c3: int) := (b1, b2, b3);
    assert n / 256 == c1 + 256 * c2 + 65536 * c3;
    assert n / 65536 == c2 + 256 * c3;
  }

  lemma I32Bijection(v: int, b: seq<byte>)
    requires I32_MIN <= v <= I32_MAX && |b| == 4
    ensures I32(b) == v <==> I32Bytes(v) == b
  {
    U32Bijection(if v < 0 then v + U32_LIMIT else v, b);
  }

  /** The first byte is the least significant: without it the word is a 256th, and it is the
      remainder. */
  lemma LittleEndian(b: seq<byte>)
    requires |b| == 4
    ensures U32([b[0], 0, 0, 0]) == b[0]
    ensures U32(b[1..] + [0]) == U32(b) / 256 && U32(b) % 256 == b[0]
  {
    var (b0: int, b1: int, b2: int, b3: int) := (b[0], b[1], b[2], b[3]);
    assert b[1..] + [0] == [b[1], b[2], b[3], 0];
    assert U32(b) == 256 * (b1 + 256 * b2 + 65536 * b3) + b0;
  }

  /** Signed and unsigned readings of a word differ by 2^32, and only from 2^31 on. */
  lemma TwosComplement(b: seq<byte>)
    requires |b| == 4
    ensures I32(b) == U32(b) - (if b[3] >= 128 then U32_LIMIT else 0)
  {
  }

  /** `std::string`'s order. */
  predicate LexLess(a: seq<byte>, b: seq<byte>) {
    if b == [] then false
    else if a == [] then true
    else a[0] < b[0] || (a[0] == b[0] && LexLess(a[1..], b[1..]))
  }

  lemma {:induction false} LexOrder(a: seq<byte>, b: seq<byte>, c: seq<byte>)
    ensures !(LexLess(a, b) && LexLess(b, a))
    ensures LexLess(a, b) || LexLess(b, a) || a == b
    ensures LexLess(a, b) && LexLess(b, c) ==> LexLess(a, c)
    decreases |a|
  {
    if a != [] && b != [] {
      LexOrder(a[1..], b[1..], if c == [] then [] else c[1..]);
      assert a == [a[0]] + a[1..] && b == [b[0]] + b[1..];
    }
  }

  /** One of two texts is less when it is where they first differ, or ends there. */
  ghost predicate LessFrom(a: seq<byte>, b: seq<byte>, k: nat) {
    k <= |a| && k < |b| && a[..k] == b[..k] && (k == |a| || a[k] < b[k])
  }

  lemma {:induction false} LexLessIs(a: seq<byte>, b: seq<byte>)
    ensures LexLess(a, b) <==> exists k: nat :: LessFrom(a, b, k)
    decreases |a|
  {
    if b == [] || a == [] {
      assert b != [] ==> LessFrom(a, b, 0);
    } else {
      LexLessIs(a[1..], b[1..]);
      if a[0] < b[0] { assert LessFrom(a, b, 0); }
      if k: nat :| a[0] == b[0] && LessFrom(a[1..], b[1..], k) {
        assert a[..k + 1] == [a[0]] + a[1..][..k] && b[..k + 1] == [b[0]] + b[1..][..k];
        assert LessFrom(a, b, k + 1);
      }
      if k: nat :| LessFrom(a, b, k) {
        if k > 0 {
          assert a[..k][0] == a[0] && b[..k][0] == b[0];
          assert a[1..][..k - 1] == a[..k][1..] && b[1..][..k - 1] == b[..k][1..];
          assert LessFrom(a[1..], b[1..], k - 1);
        }
      }
    }
  }

  /** Of two texts in parts of one length the first parts decide, unless they are the same. */
  lemma {:induction false} LexLessCat(a: seq<byte>, c: seq<byte>, b: seq<byte>, d: seq<byte>)
    requires |a| == |b|
    ensures LexLess(a + c, b + d) <==> LexLess(a, b) || (a == b && LexLess(c, d))
    decreases |a|
  {
    if a == [] {
      assert a + c == c && b + d == d;
    } else {
      assert (a + c)[1..] == a[1..] + c && (b + d)[1..] == b[1..] + d;
      LexLessCat(a[1..], c, b[1..], d);
      assert a == [a[0]] + a[1..] && b == [b[0]] + b[1..];
    }
  }

  ghost predicate Distinct<T>(s: seq<T>) {
    forall i, j :: 0 <= i < j < |s| ==> s[i] != s[j]
  }
}
