/**
  Bytes, fixed-width integers and byte order: what Go's encoding/binary, append and copy do,
  on values, together with the facts every codec of the project builds on.
 */
module Bytes {

  type byte = b: int | 0 <= b < 256
  type Bytes = seq<byte>

  /** Text as bytes, a byte per ASCII character. */
  function Ascii(s: string): (r: Bytes)
    ensures |r| == |s| && forall i :: 0 <= i < |s| ==> r[i] == s[i] as int % 256
  {
    seq(|s|, i requires 0 <= i < |s| => s[i] as int % 256)
  }

  /** 256^e, the number of values `e` bytes can take. */
  function P256(e: nat): (r: nat)
    ensures r > 0
  {
    if e == 0 then 1 else 256 * P256(e - 1)
  }

  // ---------------------------------------------------------------- big endian

  /** The low `k` bytes of `n`, most significant first; higher bytes are cut off as Go's casts do. */
  function BE(n: nat, k: nat): (s: Bytes)
    ensures |s| == k
  {
    if k == 0 then [] else BE(n / 256, k - 1) + [n % 256]
  }

  function FromBE(s: Bytes): nat {
    if s == [] then 0 else FromBE(s[..|s| - 1]) * 256 + s[|s| - 1]
  }

  lemma {:induction false} FromBEOfBE(n: nat, k: nat)
    requires n < P256(k)
    ensures FromBE(BE(n, k)) == n
  {
    if k > 0 {
      QuotientBound(n, P256(k - 1));
      FromBEOfBE(n / 256, k - 1);
      FromBEAppend(BE(n / 256, k - 1), n % 256);
    }
  }

  lemma QuotientBound(n: nat, p: nat)
    requires n < 256 * p
    ensures n / 256 < p && n == 256 * (n / 256) + n % 256
  {
  }

  lemma FromBEAppend(s: Bytes, b: byte)
    ensures FromBE(s + [b]) == FromBE(s) * 256 + b
  {
    assert (s + [b])[..|s|] == s;
  }

  // ------------------------------------------------------------- little endian

  /** The low `k` bytes of `n`, least significant first. */
  function LE(n: nat, k: nat): (s: Bytes)
    ensures |s| == k
  {
    if k == 0 then [] else [n % 256] + LE(n / 256, k - 1)
  }

  function FromLE(s: Bytes): nat {
    if s == [] then 0 else s[0] + 256 * FromLE(s[1..])
  }

  lemma {:induction false} FromLEOfLE(n: nat, k: nat)
    requires n < P256(k)
    ensures FromLE(LE(n, k)) == n
  {
    if k > 0 {
      QuotientBound(n, P256(k - 1));
      FromLEOfLE(n / 256, k - 1);
      FromLEPrepend(n % 256, LE(n / 256, k - 1));
    }
  }

  lemma FromLEPrepend(b: byte, s: Bytes)
    ensures FromLE([b] + s) == b + 256 * FromLE(s)
  {
    assert ([b] + s)[1..] == s;
  }

  lemma {:induction false} FromLEBound(s: Bytes)
    ensures FromLE(s) < P256(|s|)
  {
    if s != [] {
      FromLEBound(s[1..]);
    }
  }

  /** The powers of 256 the codecs use, as numbers. */
  lemma Pow256Table()
    ensures P256(0) == 1 && P256(1) == 0x100 && P256(2) == 0x1_0000
    ensures P256(3) == 0x100_0000 && P256(4) == 0x1_0000_0000
    ensures P256(6) == 0x1_0000_0000_0000 && P256(8) == 0x1_0000_0000_0000_0000
  {
    assert P256(1) == 256 * P256(0);
    assert P256(2) == 256 * P256(1);
    assert P256(3) == 256 * P256(2);
    assert P256(4) == 256 * P256(3);
    assert P256(5) == 256 * P256(4);
    assert P256(6) == 256 * P256(5);
    assert P256(7) == 256 * P256(6);
    assert P256(8) == 256 * P256(7);
  }

  // ------------------------------------------------------------ two's complement

  /** The remainder in 0..d-1, for negative numbers too. */
  function Rem(x: int, d: nat): (r: nat)
    requires d > 0
    ensures r < d
    decreases x < 0, if x < 0 then -x else x
  {
    if x < 0 then Rem(x + d, d) else if x < d then x else Rem(x - d, d)
  }

  /** uintN(v): the value of Go's conversion of a signed integer to `k` unsigned bytes. */
  function Unsigned(v: int, k: nat): (u: nat)
    ensures u < P256(k)
  {
    Rem(v, P256(k))
  }

  /** intN(u): reading `k` unsigned bytes back as a signed integer. */
  function Signed(u: nat, k: nat): int {
    if 2 * u < P256(k) then u else u - P256(k)
  }

  predicate FitsSigned(v: int, k: nat) {
    0 <= 2 * v + P256(k) && 2 * v < P256(k)
  }

  lemma SignedOfUnsigned(v: int, k: nat)
    requires FitsSigned(v, k)
    ensures Signed(Unsigned(v, k), k) == v
  {
    if v < 0 {
      assert Rem(v, P256(k)) == v + P256(k);
    }
  }

  // ------------------------------------------------------------ byte-wise order

  /** bytes.Compare(a, b) < 0. */
  predicate LexLess(a: Bytes, b: Bytes) {
    b != [] && (a == [] || a[0] < b[0] || (a[0] == b[0] && LexLess(a[1..], b[1..])))
  }

  /** Blocks of equal width compare first by the leading block and then by what follows. */
  lemma {:induction false} LexConcat(a: Bytes, b: Bytes, c: Bytes, d: Bytes)
    requires |a| == |c|
    ensures LexLess(a + b, c + d) <==> LexLess(a, c) || (a == c && LexLess(b, d))
  {
    if a == [] {
      assert a + b == b && c + d == d;
    } else {
      assert (a + b)[1..] == a[1..] + b && (c + d)[1..] == c[1..] + d;
      LexConcat(a[1..], b, c[1..], d);
      assert a == [a[0]] + a[1..] && c == [c[0]] + c[1..];
    }
  }

  lemma BlockOrder(a: Bytes, b: Bytes, c: Bytes, d: Bytes)
    requires |a| == |c|
    ensures LexLess(a + b, c + d) <==> LexLess(a, c) || (a == c && LexLess(b, d))
    ensures a + b == c + d <==> a == c && b == d
  {
    LexConcat(a, b, c, d);
    assert (a + b)[..|a|] == a && (c + d)[..|c|] == c && (a + b)[|a|..] == b && (c + d)[|c|..] == d;
  }

  /** Fixed-width big-endian numbers compare as their bytes do. */
  lemma {:induction false} BEOrder(x: nat, y: nat, k: nat)
    requires x < P256(k) && y < P256(k)
    ensures LexLess(BE(x, k), BE(y, k)) <==> x < y
    ensures BE(x, k) == BE(y, k) <==> x == y
  {
    if k == 0 {
    } else {
      BEOrder(x / 256, y / 256, k - 1);
      BlockOrder(BE(x / 256, k - 1), [x % 256], BE(y / 256, k - 1), [y % 256]);
      assert LexLess([x % 256], [y % 256]) <==> x % 256 < y % 256;
    }
  }

  // -------------------------------------------------------------- the write cursor

  /** Go's copy(buf[pos:], src) when it fits: what every encoder does at its moving cursor. */
  method Put(buf: array<byte>, pos: nat, src: Bytes)
    requires pos + |src| <= buf.Length
    modifies buf
    ensures buf[..pos + |src|] == old(buf[..pos]) + src
    ensures buf[pos + |src|..] == old(buf[pos + |src|..])
  {
    forall i | 0 <= i < |src| {
      buf[pos + i] := src[i];
    }
    assert buf[..pos + |src|] == buf[..pos] + src;
  }

  /** copy(buf[pos:], src); pos += len(src) */
  method Append(buf: array<byte>, pos: nat, src: Bytes) returns (next: nat)
    requires pos + |src| <= buf.Length
    modifies buf
    ensures next == pos + |src| && buf[..next] == old(buf[..pos]) + src
  {
    Put(buf, pos, src);
    next := pos + |src|;
  }

  // -------------------------------------------------------------------- reading back

  /** What a reader takes off the front of its input, and what it leaves. */
  datatype Decoded<T> = Bad | Got(value: T, rest: Bytes)
}
