/**
  What the DECIMAL encoding means: a reference decoder, exactness of the round trip on every numeral and
  every metadata word, and agreement of byte order with numeric order.
 */
module DecimalTheorems {
  import opened Bytes
  import opened Digits
  import opened Decimal

  // -------------------------------------------------------------------- the decoder

  /** Each group is read as a big-endian number and printed in its full width of digits. */
  function Unpack(r: Bytes, g: Groups): (d: Bytes)
    requires |r| == ByteCount(g)
    ensures |d| == DigitCount(g) && AllDigits(d)
  {
    if g == [] then []
    else Padded(FromBE(r[..GroupBytes(g[0])]), g[0]) + Unpack(r[GroupBytes(g[0])..], g[1..])
  }

  /** A decoded DECIMAL: its sign and all its digits, the last Scale of them after the point. */
  datatype Number = Number(neg: bool, digits: Bytes)

  /** The sign is the top bit of the first byte; a negative number is read through the complement. */
  function DecodeDecimal(r: Bytes, meta: Meta): (n: Number)
    requires |r| == BinSize(meta)
    ensures AllDigits(n.digits) && |n.digits| == IntDigits(meta) + Scale(meta)
  {
    LayoutCounts(meta);
    var neg := r[0] < 128;
    Number(neg, Unpack(Masked(neg, FlipSign(r)), Layout(meta)))
  }

  /** The bytes MySQL takes for a column of precision p (10 when not given) and scale s: four for every nine digits before
      and after the point, and for the rest the widths below. */
  const REST_BYTES: seq<nat> := [0, 1, 1, 2, 2, 3, 3, 4, 4]

  function DecimalSize(meta: Meta): nat {
    var p, s := if meta < 256 then 10 else meta / 256, meta % 256;
    var i := if p < s then 0 else p - s;
    4 * (i / 9) + REST_BYTES[i % 9] + 4 * (s / 9) + REST_BYTES[s % 9]
  }

  lemma DecimalSizeIsBinSize(meta: Meta)
    ensures DecimalSize(meta) == BinSize(meta)
  {
    RestBytes(IntDigits(meta) % 9);
    RestBytes(Scale(meta) % 9);
  }

  lemma RestBytes(k: nat)
    requires k < 9
    ensures REST_BYTES[k] == GroupBytes(k)
  {
  }

  // -------------------------------------------------------------- numerals and values

  /** [-]digits[.digits] */
  predicate Numeral(s: Bytes) {
    AllDigits(IntPart(s)) && AllDigits(FracPart(s))
  }

  /** The number a numeral denotes is Unscaled / 10^Places. */
  function Unscaled(s: Bytes): nat
    requires Numeral(s)
  {
    Shl(NatOf(IntPart(s)), Places(s)) + NatOf(FracPart(s))
  }

  function Places(s: Bytes): nat {
    |FracPart(s)|
  }

  /** |v| * 10^scale, over the denominator 10^Places. */
  function Scaled(s: Bytes, meta: Meta): nat
    requires Numeral(s)
  {
    Shl(Unscaled(s), Scale(meta))
  }

  /** The number the column keeps: floor(|v| * 10^scale), modulo the digits there are. */
  function Kept(s: Bytes, meta: Meta): nat
    requires Numeral(s)
  {
    Low(Shr(Scaled(s, meta), Places(s)), IntDigits(meta) + Scale(meta))
  }

  predicate ValidGroups(g: Groups) {
    forall i :: 0 <= i < |g| ==> 0 < g[i] <= 9
  }

  lemma LayoutValid(meta: Meta)
    ensures ValidGroups(Layout(meta)) && Layout(meta) != []
  {
    LayoutCounts(meta);
  }

  // ------------------------------------------------------------------------ exactness

  lemma {:induction false} UnpackOfPack(d: Bytes, g: Groups)
    requires ValidGroups(g) && |d| == DigitCount(g) && AllDigits(d)
    ensures Unpack(Pack(d, g), g) == d
  {
    if g == [] {
    } else {
      var head, tail := d[..g[0]], d[g[0]..];
      UnpackOfPack(tail, g[1..]);
      PackHead(head, tail, g);
      assert d == head + tail;
      FromBEOfBE(NatOf(head), GroupBytes(g[0]));
      PaddedOfNatOf(head);
      var r := Pack(d, g);
      assert r[..GroupBytes(g[0])] == BE(NatOf(head), GroupBytes(g[0]));
      assert r[GroupBytes(g[0])..] == Pack(tail, g[1..]);
    }
  }

  lemma PackHead(h: Bytes, t: Bytes, g: Groups)
    requires ValidGroups(g) && g != [] && |h| == g[0] && |t| == DigitCount(g[1..]) && AllDigits(h)
    ensures NatOf(h) < P256(GroupBytes(g[0]))
    ensures Pack(h + t, g) == BE(NatOf(h), GroupBytes(g[0])) + Pack(t, g[1..])
  {
    GroupValueFits(h);
    assert (h + t)[..g[0]] == h && (h + t)[g[0]..] == t;
  }

  /** The first byte of any packed number has its top bit free for the sign. */
  lemma TopBitFree(d: Bytes, g: Groups)
    requires ValidGroups(g) && g != [] && |d| == DigitCount(g)
    ensures ByteCount(g) > 0 && Pack(d, g)[0] < 128
  {
    var k := g[0];
    GroupHeadroom(k);
    ParseUintBound(d[..k]);
    TopByte(ParseUint(d[..k]), GroupBytes(k));
  }

  lemma {:induction false} TopByte(n: nat, k: nat)
    requires k > 0 && 2 * n < P256(k)
    ensures BE(n, k)[0] < 128
  {
    if k == 1 {
    } else {
      TopByte(n / 256, k - 1);
    }
  }

  lemma UnsignedOfSigned(neg: bool, raw: Bytes)
    requires raw != [] && raw[0] < 128
    ensures var r := FlipSign(Masked(neg, raw));
            |r| == |raw| && (r[0] < 128 <==> neg) && Masked(neg, FlipSign(r)) == raw
  {
    var m := Masked(neg, raw);
    var r := FlipSign(m);
    assert FlipSign(r) == m;
    assert Masked(neg, m) == raw;
  }

  /** Truncating or padding the integer digits on the left is reduction modulo a power of ten. */
  lemma {:induction false} PadIntValue(d: Bytes, n: nat)
    requires AllDigits(d)
    ensures AllDigits(PadInt(d, n)) && NatOf(PadInt(d, n)) == Low(NatOf(d), n)
  {
    hide Low, NatOf;
    NatOfNothing();
    if n == 0 {
      LowNothing(NatOf(d));
    } else if d == [] {
      PadIntValue([], n - 1);
      PadIntStep([], ZERO, n);
    } else {
      var d', last := d[..|d| - 1], d[|d| - 1];
      PadIntValue(d', n - 1);
      PadIntStep(d', last, n);
      NatOfLast(d', last);
      assert d == d' + [last];
    }
  }

  lemma NatOfNothing()
    ensures NatOf([]) == 0
  {
  }

  lemma LowNothing(x: nat)
    ensures Low(x, 0) == 0
  {
  }

  lemma PadIntStep(d: Bytes, last: byte, n: nat)
    requires n > 0 && AllDigits(d) && IsDigit(last) && AllDigits(PadInt(d, n - 1))
    requires NatOf(PadInt(d, n - 1)) == Low(NatOf(d), n - 1)
    ensures AllDigits(PadInt(d, n - 1) + [last])
    ensures NatOf(PadInt(d, n - 1) + [last]) == Low(10 * NatOf(d) + (last - 48), n)
  {
    hide NatOf, Low, PadInt;
    NatOfLast(PadInt(d, n - 1), last);
    LowLast(NatOf(d), last - 48, n);
  }

  lemma LowLast(x: nat, c: nat, n: nat)
    requires n > 0 && c < 10
    ensures Low(10 * x + c, n) == 10 * Low(x, n - 1) + c
  {
    assert (10 * x + c) / 10 == x && (10 * x + c) % 10 == c;
  }

  lemma NatOfLast(d: Bytes, c: byte)
    requires AllDigits(d) && IsDigit(c)
    ensures AllDigits(d + [c]) && NatOf(d + [c]) == 10 * NatOf(d) + (c - 48)
  {
    assert (d + [c])[..|d|] == d;
  }

  lemma {:induction false} PrefixValue(d: Bytes, n: nat)
    requires AllDigits(d) && n <= |d|
    ensures NatOf(d[..n]) == Shr(NatOf(d), |d| - n)
  {
    if n == |d| {
      assert d[..n] == d;
    } else {
      var d' := d[..|d| - 1];
      assert d'[..n] == d[..n];
      assert NatOf(d) / 10 == NatOf(d');
      PrefixValue(d', n);
    }
  }

  /** Truncating or padding the fraction on the right is scaling, rounded down. */
  lemma PadFracValue(d: Bytes, n: nat)
    requires AllDigits(d)
    ensures AllDigits(PadFrac(d, n)) && NatOf(PadFrac(d, n)) == Shr(Shl(NatOf(d), n), |d|)
  {
    hide NatOf, Shl, Shr;
    ShrShl(NatOf(d), n, |d|);
    if |d| >= n {
      PrefixValue(d, n);
      assert PadFrac(d, n) == d[..n];
      ShlNothing(NatOf(d));
      ShrNothing(NatOf(d));
    } else {
      NatOfZeros(n - |d|);
      NatOfConcat(d, Zeros(n - |d|));
    }
  }

  /** Keeping n integer digits before a fraction of fixed width keeps n + width digits of the whole number. */
  lemma {:induction false} LowBeforeFraction(a: nat, f: Bytes, n: nat)
    requires AllDigits(f)
    ensures Low(Shl(a, |f|) + NatOf(f), n + |f|) == Shl(Low(a, n), |f|) + NatOf(f)
  {
    if f == [] {
    } else {
      var f', last := f[..|f| - 1], f[|f| - 1];
      LowBeforeFraction(a, f', n);
      var x := Shl(a, |f|) + NatOf(f);
      assert x == 10 * (Shl(a, |f'|) + NatOf(f')) + (last - 48);
      assert x / 10 == Shl(a, |f'|) + NatOf(f') && x % 10 == last - 48;
    }
  }

  lemma StrippedValue(s: Bytes)
    requires Numeral(s)
    ensures AllDigits(StrippedInt(s)) && NatOf(StrippedInt(s)) == NatOf(IntPart(s))
  {
    NatOfTrimmed(IntPart(s));
    assert NatOf([ZERO]) == 0 by { assert [ZERO][..0] == []; }
  }

  /** floor(|v| * 10^scale) is the integer part shifted, plus the scaled fraction. */
  lemma ScaledParts(s: Bytes, meta: Meta)
    requires Numeral(s)
    ensures Shr(Scaled(s, meta), Places(s))
         == Shl(NatOf(IntPart(s)), Scale(meta)) + Shr(Shl(NatOf(FracPart(s)), Scale(meta)), Places(s))
  {
    var a, f, p, c := NatOf(IntPart(s)), NatOf(FracPart(s)), Places(s), Scale(meta);
    ShlSum(Shl(a, p), f, c);
    ShlShl(a, p, c);
    ShlShl(a, c, p);
    ShrSum(Shl(a, c), Shl(f, c), p);
  }

  /** The digits stored denote the number kept. */
  lemma StoredValue(s: Bytes, meta: Meta)
    requires Numeral(s)
    ensures AllDigits(StoredDigits(s, meta)) && NatOf(StoredDigits(s, meta)) == Kept(s, meta)
  {
    var i, c := IntDigits(meta), Scale(meta);
    var whole, frac := PadInt(StrippedInt(s), i), PadFrac(FracPart(s), c);
    StrippedValue(s);
    PadIntValue(StrippedInt(s), i);
    PadFracValue(FracPart(s), c);
    NatOfConcat(whole, frac);
    ScaledParts(s, meta);
    LowBeforeFraction(NatOf(IntPart(s)), frac, i);
  }

  /** DECIMAL exactness: for every numeral and every metadata word the decoder returns the sign and
      floor(|v| * 10^s) modulo 10^(integer digits + s). */
  lemma DecimalExact(s: Bytes, meta: Meta)
    requires Numeral(s)
    ensures var n := DecodeDecimal(DecimalBytes(s, meta), meta);
            n.neg == Negative(s) && NatOf(n.digits) == Kept(s, meta) && n.digits == StoredDigits(s, meta)
  {
    var g, d := Layout(meta), StoredDigits(s, meta);
    LayoutValid(meta);
    LayoutCounts(meta);
    StoredValue(s, meta);
    TopBitFree(d, g);
    UnsignedOfSigned(Negative(s), Pack(d, g));
    UnpackOfPack(d, g);
  }

  /** The same in plain arithmetic: |v| is Unscaled / 10^Places, and the decoder returns floor(|v| * 10^s) modulo
      10^(integer digits + s). */
  lemma DecimalFloor(s: Bytes, meta: Meta)
    requires Numeral(s)
    ensures NatOf(DecodeDecimal(DecimalBytes(s, meta), meta).digits)
         == Unscaled(s) * Ten(Scale(meta)) / Ten(Places(s)) % Ten(IntDigits(meta) + Scale(meta))
  {
    hide DecimalBytes, DecodeDecimal, Unscaled, Places, Numeral, Ten, Shl, Shr, Low;
    DecimalExact(s, meta);
    var x := Scaled(s, meta);
    ShiftsAreArithmetic(Unscaled(s), Scale(meta));
    ShiftsAreArithmetic(x, Places(s));
    ShiftsAreArithmetic(Shr(x, Places(s)), IntDigits(meta) + Scale(meta));
  }

  /** A numeral fits a column when no digit is lost on either side. */
  predicate Fits(s: Bytes, meta: Meta)
    requires Numeral(s)
  {
    && Low(Scaled(s, meta), Places(s)) == 0
    && Shr(Scaled(s, meta), Places(s)) < Ten(IntDigits(meta) + Scale(meta))
  }

  /** A numeral comes back as the same number, decoded / 10^scale == unscaled / 10^places, exactly when it fits. */
  lemma DecimalRoundTripIffFits(s: Bytes, meta: Meta)
    requires Numeral(s)
    ensures Fits(s, meta) <==>
            Shl(NatOf(DecodeDecimal(DecimalBytes(s, meta), meta).digits), Places(s)) == Shl(Unscaled(s), Scale(meta))
    ensures DecodeDecimal(DecimalBytes(s, meta), meta).neg == Negative(s)
  {
    DecimalExact(s, meta);
    FloorExact(Scaled(s, meta), Places(s), IntDigits(meta) + Scale(meta));
  }

  /** Cutting p places below and keeping m digits loses nothing exactly when there was nothing to lose. */
  lemma FloorExact(x: nat, p: nat, m: nat)
    ensures Low(x, p) == 0 && Shr(x, p) < Ten(m) <==> Shl(Low(Shr(x, p), m), p) == x
  {
    var k := Low(Shr(x, p), m);
    ShrLow(x, p);
    LowSmall(Shr(x, p), m);
    ShrSum(k, 0, p);
    ShrZero(p);
  }

  lemma {:induction false} ShrZero(k: nat)
    ensures Shr(0, k) == 0
  {
    if k > 0 {
      ShrZero(k - 1);
    }
  }

  // --------------------------------------------------------------------- byte order

  lemma {:induction false} PackOrder(d: Bytes, e: Bytes, g: Groups)
    requires ValidGroups(g) && |d| == |e| == DigitCount(g) && AllDigits(d) && AllDigits(e)
    ensures LexLess(Pack(d, g), Pack(e, g)) <==> NatOf(d) < NatOf(e)
    ensures Pack(d, g) == Pack(e, g) <==> NatOf(d) == NatOf(e)
  {
    if g == [] {
    } else {
      var k, b := g[0], GroupBytes(g[0]);
      var dh, dt, eh, et := d[..k], d[k..], e[..k], e[k..];
      assert d == dh + dt && e == eh + et;
      PackOrder(dt, et, g[1..]);
      PackHead(dh, dt, g);
      PackHead(eh, et, g);
      BEOrder(NatOf(dh), NatOf(eh), b);
      BlockOrder(BE(NatOf(dh), b), Pack(dt, g[1..]), BE(NatOf(eh), b), Pack(et, g[1..]));
      NatOfOrder(dh, dt, eh, et);
    }
  }

  /** Complementing every byte reverses the order. */
  lemma {:induction false} MaskedOrder(a: Bytes, b: Bytes)
    requires |a| == |b|
    ensures LexLess(Masked(true, a), Masked(true, b)) <==> LexLess(b, a)
  {
    if a == [] {
    } else {
      MaskedOrder(a[1..], b[1..]);
      assert Masked(true, a)[1..] == Masked(true, a[1..]) && Masked(true, b)[1..] == Masked(true, b[1..]);
    }
  }

  lemma FlipSignOrder(a: Bytes, b: Bytes)
    requires a != [] && b != []
    ensures (a[0] < 128 <==> b[0] < 128) ==> (LexLess(FlipSign(a), FlipSign(b)) <==> LexLess(a, b))
    ensures a[0] >= 128 && b[0] < 128 ==> LexLess(FlipSign(a), FlipSign(b)) && !LexLess(FlipSign(b), FlipSign(a))
  {
    assert FlipSign(a)[1..] == a[1..] && FlipSign(b)[1..] == b[1..];
  }

  /** Where a stored number stands: negative numbers below, and -0 directly below 0. */
  function Rank(neg: bool, n: nat): int {
    if neg then -(n as int) - 1 else n
  }

  /** DECIMAL bytes are order-preserving: at one column type, comparing the bytes compares the numbers kept. */
  lemma DecimalOrder(s: Bytes, t: Bytes, meta: Meta)
    requires Numeral(s) && Numeral(t)
    ensures LexLess(DecimalBytes(s, meta), DecimalBytes(t, meta))
       <==> Rank(Negative(s), Kept(s, meta)) < Rank(Negative(t), Kept(t, meta))
  {
    var g, d, e := Layout(meta), StoredDigits(s, meta), StoredDigits(t, meta);
    LayoutValid(meta);
    LayoutCounts(meta);
    StoredValue(s, meta);
    StoredValue(t, meta);
    TopBitFree(d, g);
    TopBitFree(e, g);
    PackOrder(d, e, g);
    PackOrder(e, d, g);
    MaskedOrder(Pack(d, g), Pack(e, g));
    FlipSignOrder(Masked(Negative(s), Pack(d, g)), Masked(Negative(t), Pack(e, g)));
    FlipSignOrder(Masked(Negative(t), Pack(e, g)), Masked(Negative(s), Pack(d, g)));
  }

  /** The signed value of a numeral over the common denominator 10^(own places + other places). */
  function Crossed(s: Bytes, other: nat): int
    requires Numeral(s)
  {
    var u := Shl(Unscaled(s), other);
    if Negative(s) then -(u as int) else u
  }

  /** For numerals that fit, byte order is numeric order, with -0 just below 0. */
  lemma DecimalOrderIsNumericOrder(s: Bytes, t: Bytes, meta: Meta)
    requires Numeral(s) && Numeral(t) && Fits(s, meta) && Fits(t, meta)
    ensures LexLess(DecimalBytes(s, meta), DecimalBytes(t, meta))
       <==> Crossed(s, Places(t)) < Crossed(t, Places(s))
            || (Unscaled(s) == 0 && Unscaled(t) == 0 && Negative(s) && !Negative(t))
  {
    DecimalOrder(s, t, meta);
    FitsScales(s, meta);
    FitsScales(t, meta);
    var c, p, q := Scale(meta), Places(s), Places(t);
    CompareFractions(Unscaled(s), p, Kept(s, meta), Unscaled(t), q, Kept(t, meta), c);
    ShlOrder(0, Unscaled(s), q);
    ShlOrder(0, Unscaled(t), p);
    ShlZero(p);
    ShlZero(q);
  }

  lemma FitsScales(s: Bytes, meta: Meta)
    requires Numeral(s) && Fits(s, meta)
    ensures Shl(Kept(s, meta), Places(s)) == Shl(Unscaled(s), Scale(meta))
  {
    ShrLow(Scaled(s, meta), Places(s));
    LowSmall(Shr(Scaled(s, meta), Places(s)), IntDigits(meta) + Scale(meta));
  }

  /** k1/10^c == u1/10^p and k2/10^c == u2/10^q, so k1 and k2 compare as u1*10^q and u2*10^p do. */
  lemma CompareFractions(u1: nat, p: nat, k1: nat, u2: nat, q: nat, k2: nat, c: nat)
    requires Shl(k1, p) == Shl(u1, c) && Shl(k2, q) == Shl(u2, c)
    ensures k1 < k2 <==> Shl(u1, q) < Shl(u2, p)
    ensures k1 == k2 <==> Shl(u1, q) == Shl(u2, p)
  {
    var n, a, b := p + q, Shl(u1, q), Shl(u2, p);
    CommonScale(k1, u1, p, q, c, n);
    CommonScale(k2, u2, q, p, c, n);
    ShlOrder(k1, k2, n);
    ShlOrder(a, b, c);
  }

  lemma {:induction false} CommonScale(k: nat, u: nat, p: nat, q: nat, c: nat, n: nat)
    requires Shl(k, p) == Shl(u, c) && n == p + q
    ensures Shl(k, n) == Shl(Shl(u, q), c)
  {
    if q > 0 {
      CommonScale(k, u, p, q - 1, c, n - 1);
      ShlTimesTen(Shl(u, q - 1), c);
    }
  }

  lemma {:induction false} ShlTimesTen(x: nat, c: nat)
    ensures Shl(10 * x, c) == 10 * Shl(x, c)
  {
    if c > 0 {
      ShlTimesTen(x, c - 1);
    }
  }

  // ------------------------------------------------------------------- canonical text

  function WholeText(x: Bytes): (t: Bytes)
    requires AllDigits(x)
    ensures t != [] && AllDigits(t)
  {
    var t := TrimLeftZeros(x);
    if t == [] then [ZERO] else t
  }

  /** A numeral from its sign, integer part and fraction. */
  function Joined(neg: bool, whole: Bytes, frac: Bytes): Bytes {
    (if neg then [MINUS] else []) + whole + (if frac == [] then [] else [DOT] + frac)
  }

  /** The text the decoder prints for a number of a column. */
  function DecimalText(n: Number, meta: Meta): Bytes
    requires AllDigits(n.digits) && |n.digits| == IntDigits(meta) + Scale(meta)
  {
    Joined(n.neg, WholeText(n.digits[..IntDigits(meta)]), n.digits[IntDigits(meta)..])
  }

  lemma {:induction false} IndexOfFirst(d: Bytes, rest: Bytes)
    requires AllDigits(d) && (rest == [] || rest[0] == DOT)
    ensures IndexOf(d + rest, DOT) == |d|
  {
    if d == [] {
      assert d + rest == rest;
    } else {
      assert (d + rest)[1..] == d[1..] + rest;
      IndexOfFirst(d[1..], rest);
    }
  }

  /** Stripping the leading zeros of a digit string and padding it back gives the string again. */
  lemma RestoreZeros(x: Bytes)
    requires AllDigits(x)
    ensures PadInt(WholeText(x), |x|) == x
  {
    NatOfTrimmed(x);
    assert NatOf([ZERO]) == 0 by { assert [ZERO][..0] == []; }
    PadIntValue(WholeText(x), |x|);
    NatOfBound(x);
    LowSmall(NatOf(x), |x|);
    PaddedOfNatOf(x);
    PaddedOfNatOf(PadInt(WholeText(x), |x|));
  }

  lemma {:induction false} WholeTextIdempotent(x: Bytes)
    requires AllDigits(x)
    ensures WholeText(WholeText(x)) == WholeText(x)
  {
    var t := TrimLeftZeros(x);
    if t == [] {
      assert TrimLeftZeros([ZERO]) == [] by { assert [ZERO][1..] == []; }
    } else {
      assert TrimLeftZeros(t) == t;
    }
  }

  /** Splitting a printed numeral finds its sign, its integer part and its fraction. */
  lemma TextParts(neg: bool, whole: Bytes, frac: Bytes)
    requires AllDigits(whole) && whole != []
    ensures var s := Joined(neg, whole, frac); Negative(s) == neg && IntPart(s) == whole && FracPart(s) == frac
  {
    hide IndexOf;
    var tail := if frac == [] then [] else [DOT] + frac;
    MagnitudeOf(neg, whole, frac, tail);
    IndexOfFirst(whole, tail);
    SplitAt(whole, tail);
  }

  lemma MagnitudeOf(neg: bool, whole: Bytes, frac: Bytes, tail: Bytes)
    requires AllDigits(whole) && whole != [] && tail == if frac == [] then [] else [DOT] + frac
    ensures var s := Joined(neg, whole, frac); Negative(s) == neg && Magnitude(s) == whole + tail
  {
    var s := Joined(neg, whole, frac);
    assert s == (if neg then [MINUS] else []) + (whole + tail);
    assert (whole + tail)[0] == whole[0] && IsDigit(whole[0]);
    if neg {
      assert s[1..] == whole + tail;
    }
  }

  lemma SplitAt(a: Bytes, b: Bytes)
    ensures (a + b)[..|a|] == a && (b != [] ==> (a + b)[|a| + 1..] == b[1..])
  {
  }

  lemma StoredOfParts(s: Bytes, x: Bytes, frac: Bytes, meta: Meta)
    requires AllDigits(x) && |x| == IntDigits(meta) && |frac| == Scale(meta)
    requires IntPart(s) == WholeText(x) && FracPart(s) == frac
    ensures StoredDigits(s, meta) == x + frac
  {
    WholeTextIdempotent(x);
    RestoreZeros(x);
  }

  /** The canonical text of any sign and digits that fill the column comes back from the bytes unchanged. */
  lemma DecimalTextRoundTrip(neg: bool, x: Bytes, frac: Bytes, meta: Meta)
    requires AllDigits(x) && AllDigits(frac) && |x| == IntDigits(meta) && |frac| == Scale(meta)
    ensures var s := Joined(neg, WholeText(x), frac);
            DecimalText(DecodeDecimal(DecimalBytes(s, meta), meta), meta) == s
  {
    var s := Joined(neg, WholeText(x), frac);
    DecimalPartsRoundTrip(neg, x, frac, s, meta);
    assert (x + frac)[..|x|] == x && (x + frac)[|x|..] == frac;
  }

  lemma DecimalPartsRoundTrip(neg: bool, x: Bytes, frac: Bytes, s: Bytes, meta: Meta)
    requires AllDigits(x) && AllDigits(frac) && |x| == IntDigits(meta) && |frac| == Scale(meta)
    requires s == Joined(neg, WholeText(x), frac)
    ensures DecodeDecimal(DecimalBytes(s, meta), meta) == Number(neg, x + frac)
  {
    TextParts(neg, WholeText(x), frac);
    StoredOfParts(s, x, frac, meta);
    DecimalExact(s, meta);
  }

  // --------------------------------------------------------------------- numeric equality

  /** A decimal number, unscaled / 10^places, without trailing zeros and without a negative zero. */
  datatype Ratio = Ratio(neg: bool, unscaled: nat, places: nat)

  function Reduced(neg: bool, u: nat, p: nat): Ratio
    decreases p
  {
    if p > 0 && u % 10 == 0 then Reduced(neg, u / 10, p - 1) else Ratio(neg && u != 0, u, p)
  }

  /** The number a numeral denotes: "5", "5.0" and "05.00" are one number. */
  function ValueOf(s: Bytes): Ratio
    requires Numeral(s)
  {
    Reduced(Negative(s), Unscaled(s), Places(s))
  }

  lemma ShlCancel(u: nat, a: nat, v: nat, b: nat)
    requires Shl(u, b) == Shl(v, a) && a <= b
    ensures Shl(u, b - a) == v
  {
    hide Shl;
    ShlShl(u, b - a, a);
    ShlOrder(Shl(u, b - a), v, a);
  }

  lemma ReduceOnce(u: nat, p: nat, v: nat, q: nat)
    requires p > 0 && u % 10 == 0
    ensures Shl(u, q) == Shl(v, p) <==> Shl(u / 10, q) == Shl(v, p - 1)
  {
    ShlTimesTen(u / 10, q);
  }

  /** Reduced numbers are equal exactly when the fractions are: u / 10^p == v / 10^q with the same sign, or both zero. */
  lemma {:induction false} ReducedIff(m: bool, u: nat, p: nat, n: bool, v: nat, q: nat)
    ensures Reduced(m, u, p) == Reduced(n, v, q) <==> Shl(u, q) == Shl(v, p) && (m == n || u == 0)
    decreases p + q
  {
    hide Shl;
    if p > 0 && u % 10 == 0 {
      ReduceOnce(u, p, v, q);
      ReducedIff(m, u / 10, p - 1, n, v, q);
    } else if q > 0 && v % 10 == 0 {
      ReduceOnce(v, q, u, p);
      ReducedIff(m, u, p, n, v / 10, q - 1);
      ZeroTogether(u, p, v, q);
    } else {
      IrreducibleIff(u, p, v, q);
      ZeroTogether(u, p, v, q);
    }
  }

  lemma ZeroTogether(u: nat, p: nat, v: nat, q: nat)
    ensures Shl(u, q) == Shl(v, p) ==> (u == 0 <==> v == 0)
  {
    hide Shl;
    ShlZero(q);
    ShlZero(p);
    ShlOrder(0, u, q);
    ShlOrder(0, v, p);
  }

  lemma ShrNothing(u: nat)
    ensures Shr(u, 0) == u
  {
  }

  lemma ShlNothing(u: nat)
    ensures Shl(u, 0) == u
  {
  }

  lemma ShlDivides(u: nat, k: int)
    ensures k > 0 ==> Shl(u, k) % 10 == 0
  {
  }

  lemma IrreducibleIff(u: nat, p: nat, v: nat, q: nat)
    requires !(p > 0 && u % 10 == 0) && !(q > 0 && v % 10 == 0)
    ensures Shl(u, q) == Shl(v, p) <==> u == v && p == q
  {
    hide Shl;
    ShlNothing(u);
    ShlNothing(v);
    ShlDivides(u, q - p);
    ShlDivides(v, p - q);
    if Shl(u, q) == Shl(v, p) {
      if p <= q {
        ShlCancel(u, p, v, q);
      } else {
        ShlCancel(v, q, u, p);
      }
    }
  }

  /** The text the decoder prints for what was stored. */
  function SettledText(s: Bytes, meta: Meta): Bytes {
    DecimalText(DecodeDecimal(DecimalBytes(s, meta), meta), meta)
  }

  lemma TextValue(n: Number, meta: Meta)
    requires AllDigits(n.digits) && |n.digits| == IntDigits(meta) + Scale(meta)
    ensures var t := DecimalText(n, meta);
            Numeral(t) && Negative(t) == n.neg && Places(t) == Scale(meta) && Unscaled(t) == NatOf(n.digits)
  {
    hide Joined, NatOf, Shl, IntPart, FracPart, Negative, TrimLeftZeros;
    var x, frac := n.digits[..IntDigits(meta)], n.digits[IntDigits(meta)..];
    TextParts(n.neg, WholeText(x), frac);
    NatOfTrimmed(x);
    NatOfZero();
    NatOfNothing();
    assert x + frac == n.digits;
    NatOfConcat(x, frac);
  }

  lemma NatOfZero()
    ensures NatOf([ZERO]) == 0
  {
    assert [ZERO][..0] == [];
  }

  /** Storing a numeral and printing it again gives a numeral of the same value exactly when it fits. */
  lemma SettledValueIffFits(s: Bytes, meta: Meta)
    requires Numeral(s)
    ensures Numeral(SettledText(s, meta))
    ensures ValueOf(SettledText(s, meta)) == ValueOf(s) <==> Fits(s, meta)
  {
    hide DecimalBytes, DecodeDecimal, DecimalText, Fits, Numeral, Unscaled, Places, Negative, NatOf, Reduced, Shl;
    var n := DecodeDecimal(DecimalBytes(s, meta), meta);
    TextValue(n, meta);
    DecimalRoundTripIffFits(s, meta);
    ReducedIff(n.neg, NatOf(n.digits), Scale(meta), Negative(s), Unscaled(s), Places(s));
  }

  // ------------------------------------------------------------------- bytes at fixed inputs

  /** A metadata word is the precision and the scale, in this order. */
  lemma MetaWord(p: nat, s: nat)
    requires p < 256 && s < 256
    ensures Scale(p * 256 + s) == s
    ensures IntDigits(p * 256 + s) == if p == 0 then (if s <= 10 then 10 - s else 0) else if s <= p then p - s else 0
  {
    var meta := p * 256 + s;
    assert meta / 256 == p && meta % 256 == s;
  }

  /** The stored digits of a numeral that fills its column. */
  lemma StoredExactly(neg: bool, whole: Bytes, frac: Bytes, meta: Meta)
    requires AllDigits(whole) && whole != [] && whole[0] != ZERO && |whole| == IntDigits(meta) && |frac| == Scale(meta)
    ensures var s := Joined(neg, whole, frac); Negative(s) == neg && StoredDigits(s, meta) == whole + frac
  {
    TextParts(neg, whole, frac);
    assert TrimLeftZeros(whole) == whole;
    PadIntForm(whole, |whole|);
    assert whole[0..] == whole && frac[..|frac|] == frac;
  }

  lemma {:induction false} NatOfSnoc(d: Bytes, c: byte, n: nat)
    requires AllDigits(d) && IsDigit(c) && NatOf(d) == n
    ensures AllDigits(d + [c]) && NatOf(d + [c]) == 10 * n + (c - 48)
  {
    hide NatOf;
    NatOfLast(d, c);
  }

  lemma NineDigits()
    ensures AllDigits([50, 51, 52, 53, 54, 55, 56, 57, 48]) && NatOf([50, 51, 52, 53, 54, 55, 56, 57, 48]) == 234567890
  {
    hide NatOf;
    NatOfNothing();
    NatOfSnoc([], 50, 0);
    NatOfSnoc([] + [50], 51, 2);
    NatOfSnoc([] + [50] + [51], 52, 23);
    NatOfSnoc([] + [50] + [51] + [52], 53, 234);
    NatOfSnoc([] + [50] + [51] + [52] + [53], 54, 2345);
    NatOfSnoc([] + [50] + [51] + [52] + [53] + [54], 55, 23456);
    NatOfSnoc([] + [50] + [51] + [52] + [53] + [54] + [55], 56, 234567);
    NatOfSnoc([] + [50] + [51] + [52] + [53] + [54] + [55] + [56], 57, 2345678);
    NatOfSnoc([] + [50] + [51] + [52] + [53] + [54] + [55] + [56] + [57], 48, 23456789);
    assert [] + [50] + [51] + [52] + [53] + [54] + [55] + [56] + [57] + [48] == [50, 51, 52, 53, 54, 55, 56, 57, 48];
  }

  lemma FourDigits()
    ensures AllDigits([49, 50, 51, 52]) && NatOf([49, 50, 51, 52]) == 1234 && NatOf([49]) == 1
  {
    hide NatOf;
    NatOfNothing();
    NatOfSnoc([], 49, 0);
    NatOfSnoc([] + [49], 50, 1);
    NatOfSnoc([] + [49] + [50], 51, 12);
    NatOfSnoc([] + [49] + [50] + [51], 52, 123);
    assert [] + [49] + [50] + [51] + [52] == [49, 50, 51, 52] && [] + [49] == [49];
  }

  lemma ExampleLayout()
    ensures Layout(14 * 256 + 4) == [1, 9, 4] && IntDigits(14 * 256 + 4) == 10 && Scale(14 * 256 + 4) == 4
  {
    MetaWord(14, 4);
    assert Nines(1) == [9] && Nines(0) == [];
  }

  /** One group more at the end. */
  lemma {:induction false} PackMore(d: Bytes, g: Groups, c: Bytes)
    requires |d| == DigitCount(g) && 0 < |c| <= 9
    ensures DigitCount(g + [|c|]) == |d + c|
    ensures Pack(d + c, g + [|c|]) == Pack(d, g) + BE(ParseUint(c), GroupBytes(|c|))
  {
    hide BE, ParseUint, Pack, DigitCount;
    LeadCounts(|c|);
    CountConcat(g, [|c|]);
    PackOne(c);
    PackConcat(d, c, g, [|c|]);
  }

  lemma ExamplePacked()
    ensures DigitCount([1, 9, 4]) == 14
    ensures Pack([49] + [50, 51, 52, 53, 54, 55, 56, 57, 48] + [49, 50, 51, 52], [1, 9, 4])
         == [0x01] + [0x0D, 0xFB, 0x38, 0xD2] + [0x04, 0xD2]
  {
    hide NatOf, BE, Pack, DigitCount;
    NineDigits();
    FourDigits();
    UnrollBE(1, 1);
    UnrollBE(234567890, 4);
    UnrollBE(1234, 2);
    var a, b, c := [49], [50, 51, 52, 53, 54, 55, 56, 57, 48], [49, 50, 51, 52];
    PackOne(a);
    PackMore(a, [1], b);
    PackMore(a + b, [1] + [9], c);
    assert [1] + [9] + [4] == [1, 9, 4];
  }

  lemma ExampleText()
    ensures var whole, frac := [49, 50, 51, 52, 53, 54, 55, 56, 57, 48], [49, 50, 51, 52];
            && Ascii("1234567890.1234") == Joined(false, whole, frac) && Ascii("-1234567890.1234") == Joined(true, whole, frac)
            && whole + frac == [49] + [50, 51, 52, 53, 54, 55, 56, 57, 48] + [49, 50, 51, 52]
  {
  }

  lemma ExampleSigned()
    ensures var raw: Bytes := [0x01] + [0x0D, 0xFB, 0x38, 0xD2] + [0x04, 0xD2];
            && FlipSign(Masked(false, raw)) == [0x81, 0x0D, 0xFB, 0x38, 0xD2, 0x04, 0xD2]
            && FlipSign(Masked(true, raw)) == [0x7E, 0xF2, 0x04, 0xC7, 0x2D, 0xFB, 0x2D]
  {
    var raw: Bytes := [0x01] + [0x0D, 0xFB, 0x38, 0xD2] + [0x04, 0xD2];
    assert raw == [0x01, 0x0D, 0xFB, 0x38, 0xD2, 0x04, 0xD2];
    assert Masked(true, raw) == [0xFE, 0xF2, 0x04, 0xC7, 0x2D, 0xFB, 0x2D];
  }

  /** The example of the MySQL documentation: 1234567890.1234 and its negative in DECIMAL(14,4). */
  lemma DocumentedExample()
    ensures DecimalBytes(Ascii("1234567890.1234"), 14 * 256 + 4) == [0x81, 0x0D, 0xFB, 0x38, 0xD2, 0x04, 0xD2]
    ensures DecimalBytes(Ascii("-1234567890.1234"), 14 * 256 + 4) == [0x7E, 0xF2, 0x04, 0xC7, 0x2D, 0xFB, 0x2D]
  {
    hide Pack, StoredDigits, Layout, Ascii, Masked, FlipSign, Joined, Negative;
    ExampleText();
    ExampleLayout();
    ExamplePacked();
    ExampleSigned();
    StoredExactly(false, [49, 50, 51, 52, 53, 54, 55, 56, 57, 48], [49, 50, 51, 52], 14 * 256 + 4);
    StoredExactly(true, [49, 50, 51, 52, 53, 54, 55, 56, 57, 48], [49, 50, 51, 52], 14 * 256 + 4);
  }

  /** The server's own DECIMAL(10,2) takes five bytes whatever the text. */
  lemma ServerDecimalWidth(s: Bytes)
    ensures |DecimalBytes(s, 10 * 256 + 2)| == 5
  {
    hide DecimalBytes;
    MetaWord(10, 2);
  }
}
