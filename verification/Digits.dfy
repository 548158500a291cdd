/**
  Decimal digits as bytes: Go's strconv parsing, zero padding, and the decimal printer,
  with the arithmetic of concatenating and splitting digit strings.
 */
module Digits {
  import opened Bytes

  function Ten(e: nat): (r: nat)
    ensures r > 0
  {
    if e == 0 then 1 else 10 * Ten(e - 1)
  }

  // ------------------------------------------------------ shifting by decimal places

  /** n * 10^k */
  function Shl(n: nat, k: nat): nat {
    if k == 0 then n else 10 * Shl(n, k - 1)
  }

  /** floor(n / 10^k) */
  function Shr(n: nat, k: nat): nat {
    if k == 0 then n else Shr(n / 10, k - 1)
  }

  /** n mod 10^k */
  function Low(n: nat, k: nat): (r: nat)
    ensures r < Ten(k)
  {
    if k == 0 then 0 else 10 * Low(n / 10, k - 1) + n % 10
  }

  lemma {:induction false} ShrLow(n: nat, k: nat)
    ensures n == Shl(Shr(n, k), k) + Low(n, k)
  {
    if k > 0 {
      ShrLow(n / 10, k - 1);
    }
  }

  lemma {:induction false} LowSmall(n: nat, k: nat)
    ensures Low(n, k) == n <==> n < Ten(k)
  {
    if k > 0 {
      LowSmall(n / 10, k - 1);
    }
  }

  lemma {:induction false} ShlSum(x: nat, y: nat, k: nat)
    ensures Shl(x + y, k) == Shl(x, k) + Shl(y, k)
  {
    if k > 0 {
      ShlSum(x, y, k - 1);
    }
  }

  lemma {:induction false} ShlShl(n: nat, a: nat, b: nat)
    ensures Shl(Shl(n, a), b) == Shl(n, a + b)
  {
    if b > 0 {
      ShlShl(n, a, b - 1);
    }
  }

  lemma {:induction false} ShlOrder(x: nat, y: nat, k: nat)
    ensures x < y <==> Shl(x, k) < Shl(y, k)
    ensures x == y <==> Shl(x, k) == Shl(y, k)
  {
    if k > 0 {
      ShlOrder(x, y, k - 1);
    }
  }

  /** Dividing a shifted number: places cancel against places. */
  lemma {:induction false} ShrShl(n: nat, a: nat, b: nat)
    ensures Shr(Shl(n, a), b) == if a >= b then Shl(n, a - b) else Shr(n, b - a)
  {
    if a > 0 && b > 0 {
      ShrShl(n, a - 1, b - 1);
    }
  }

  lemma {:induction false} ShrSum(x: nat, y: nat, k: nat)
    ensures Shr(Shl(x, k) + y, k) == x + Shr(y, k)
  {
    if k > 0 {
      assert (10 * Shl(x, k - 1) + y) / 10 == Shl(x, k - 1) + y / 10;
      ShrSum(x, y / 10, k - 1);
    }
  }

  /** The three shifts are multiplication, division and remainder by a power of ten. */
  lemma ShiftsAreArithmetic(n: nat, k: nat)
    ensures Shl(n, k) == n * Ten(k) && Shr(n, k) == n / Ten(k) && Low(n, k) == n % Ten(k)
  {
    ShlIsProduct(n, k);
    ShlIsProduct(Shr(n, k), k);
    ShrLow(n, k);
    DivModUnique(n, Shr(n, k), Low(n, k), Ten(k));
  }

  lemma DivModUnique(n: int, q: int, r: int, d: int)
    requires d > 0 && n == q * d + r && 0 <= r < d
    ensures n / d == q && n % d == r
  {
    var j := n / d - q;
    assert n == n / d * d + n % d;
    assert j * d == n / d * d - q * d;
    MulMono(j, d);
  }

  lemma MulMono(j: int, d: int)
    requires d > 0
    ensures j >= 1 ==> j * d >= d
    ensures j <= -1 ==> j * d <= -d
  {
  }

  lemma {:induction false} ShlIsProduct(n: nat, k: nat)
    ensures Shl(n, k) == n * Ten(k)
  {
    if k > 0 {
      ShlIsProduct(n, k - 1);
      var t := Ten(k - 1);
      assert n * (10 * t) == 10 * (n * t);
    }
  }

  // ------------------------------------------------------------------ digit strings

  predicate IsDigit(c: byte) {
    48 <= c <= 57
  }

  predicate AllDigits(s: Bytes) {
    forall i :: 0 <= i < |s| ==> IsDigit(s[i])
  }

  /** The number a digit string denotes. */
  function NatOf(s: Bytes): (n: nat)
    requires AllDigits(s)
  {
    if s == [] then 0 else NatOf(s[..|s| - 1]) * 10 + (s[|s| - 1] - 48)
  }

  lemma {:induction false} NatOfBound(s: Bytes)
    requires AllDigits(s)
    ensures NatOf(s) < Ten(|s|)
  {
    if s == [] {
    } else {
      NatOfBound(s[..|s| - 1]);
    }
  }

  lemma {:induction false} NatOfConcat(a: Bytes, b: Bytes)
    requires AllDigits(a) && AllDigits(b)
    ensures AllDigits(a + b)
    ensures NatOf(a + b) == Shl(NatOf(a), |b|) + NatOf(b)
  {
    if b == [] {
      assert a + b == a;
    } else {
      var b' := b[..|b| - 1];
      assert (a + b)[..|a + b| - 1] == a + b';
      NatOfConcat(a, b');
    }
  }

  /** Digit strings of one width compare as their numbers do: first by the leading part, then by the rest. */
  lemma {:induction false} NatOfOrder(a: Bytes, b: Bytes, c: Bytes, d: Bytes)
    requires AllDigits(a) && AllDigits(b) && AllDigits(c) && AllDigits(d) && |b| == |d|
    ensures AllDigits(a + b) && AllDigits(c + d)
    ensures NatOf(a + b) < NatOf(c + d) <==> NatOf(a) < NatOf(c) || (NatOf(a) == NatOf(c) && NatOf(b) < NatOf(d))
    ensures NatOf(a + b) == NatOf(c + d) <==> NatOf(a) == NatOf(c) && NatOf(b) == NatOf(d)
  {
    if b == [] {
      assert a + b == a && c + d == c;
    } else {
      var b', d' := b[..|b| - 1], d[..|d| - 1];
      assert (a + b)[..|a + b| - 1] == a + b' && (c + d)[..|c + d| - 1] == c + d';
      NatOfOrder(a, b', c, d');
    }
  }

  /** strconv.ParseUint(s, 10, 32) with its error ignored: a syntax error yields zero. */
  function ParseUint(s: Bytes): (n: nat) {
    if s != [] && AllDigits(s) then NatOf(s) else 0
  }

  /** One character that is no digit makes the whole number zero. */
  lemma ParseUintOfText(a: Bytes, c: byte, b: Bytes)
    requires !IsDigit(c)
    ensures ParseUint(a + [c] + b) == 0
  {
    assert (a + [c] + b)[|a|] == c;
  }

  lemma ParseUintBound(s: Bytes)
    ensures ParseUint(s) < Ten(|s|)
  {
    if AllDigits(s) {
      NatOfBound(s);
    }
  }

  // ------------------------------------------------------------------------- zeros

  /** strings.Repeat("0", n). */
  function Zeros(n: nat): (s: Bytes)
    ensures |s| == n && AllDigits(s)
  {
    seq(n, _ => 48)
  }

  lemma {:induction false} NatOfZeros(n: nat)
    ensures NatOf(Zeros(n)) == 0
  {
    if n == 0 {
    } else {
      assert Zeros(n)[..n - 1] == Zeros(n - 1);
      NatOfZeros(n - 1);
    }
  }

  /** strings.TrimLeft(s, "0"). */
  function TrimLeftZeros(s: Bytes): (r: Bytes)
    ensures |r| <= |s| && (AllDigits(s) ==> AllDigits(r))
    ensures r == [] || r[0] != 48
  {
    if s != [] && s[0] == 48 then TrimLeftZeros(s[1..]) else s
  }

  lemma {:induction false} ShlZero(k: nat)
    ensures Shl(0, k) == 0
  {
    if k > 0 {
      ShlZero(k - 1);
    }
  }

  lemma {:induction false} NatOfTrimmed(s: Bytes)
    requires AllDigits(s)
    ensures AllDigits(TrimLeftZeros(s))
    ensures NatOf(TrimLeftZeros(s)) == NatOf(s)
  {
    if s != [] && s[0] == 48 {
      var rest := s[1..];
      NatOfTrimmed(rest);
      NatOfConcat([48], rest);
      assert s == [48] + rest;
      assert NatOf([48]) == 0 by { assert [48][..0] == []; }
      ShlZero(|rest|);
    }
  }

  // ------------------------------------------------------------------------ printing

  /** fmt's %0kd for a number of at most `k` digits. */
  function Padded(n: nat, k: nat): (s: Bytes)
    ensures |s| == k && AllDigits(s)
  {
    if k == 0 then [] else Padded(n / 10, k - 1) + [n % 10 + 48]
  }

  lemma {:induction false} NatOfPadded(n: nat, k: nat)
    requires n < Ten(k)
    ensures NatOf(Padded(n, k)) == n
  {
    if k == 0 {
    } else {
      assert Padded(n, k)[..k - 1] == Padded(n / 10, k - 1);
      NatOfPadded(n / 10, k - 1);
    }
  }

  /** A digit string is determined by its width and its number. */
  lemma {:induction false} PaddedOfNatOf(s: Bytes)
    requires AllDigits(s)
    ensures Padded(NatOf(s), |s|) == s
  {
    if s == [] {
    } else {
      PaddedOfNatOf(s[..|s| - 1]);
      assert s == s[..|s| - 1] + [s[|s| - 1]];
    }
  }

  /** fmt's %d for a natural number. */
  function Shown(n: nat): (s: Bytes)
    ensures s != [] && AllDigits(s)
  {
    if n < 10 then [n + 48] else Shown(n / 10) + [n % 10 + 48]
  }

  lemma {:induction false} NatOfShown(n: nat)
    ensures NatOf(Shown(n)) == n
  {
    if n < 10 {
      assert Shown(n)[..0] == [];
    } else {
      NatOfShown(n / 10);
      assert Shown(n)[..|Shown(n)| - 1] == Shown(n / 10);
    }
  }
}
