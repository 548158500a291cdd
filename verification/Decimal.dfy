/**
  MySQL DECIMAL values in row images (pkg/replication/binlog_encoder.go, encodeDecimal): nine decimal
  digits per four bytes, shorter groups compressed at both ends, negative numbers complemented, and the
  top bit of the first byte flipped.  The decoder is the reference the encoder claims to reverse.
 */
module Decimal {
  import opened Bytes
  import opened Digits

  const MINUS: byte := 45
  const DOT: byte := 46
  const ZERO: byte := 48

  type Meta = m: nat | m < 0x1_0000

  // --------------------------------------------------------------------- storage layout

  /** The decimalCompressedBytes table: bytes taken by a group of `k` digits. */
  function GroupBytes(k: nat): (n: nat)
    ensures n <= 4
  {
    if k == 0 then 0 else if k <= 2 then 1 else if k <= 4 then 2 else if k <= 6 then 3 else 4
  }

  /** Every group fits its bytes with the top bit to spare. */
  lemma GroupHeadroom(k: nat)
    requires 0 < k <= 9
    ensures GroupBytes(k) > 0
    ensures 2 * Ten(k) <= P256(GroupBytes(k))
  {
    Pow256Table();
    assert Ten(1) == 10 && Ten(2) == 100 && Ten(3) == 1000;
    assert Ten(4) == 10 * Ten(3) && Ten(5) == 10 * Ten(4) && Ten(6) == 10 * Ten(5);
    assert Ten(7) == 10 * Ten(6) && Ten(8) == 10 * Ten(7) && Ten(9) == 10 * Ten(8);
  }

  /** The table is the narrowest that leaves the top bit free: no group could do with a byte less. */
  lemma GroupBytesMinimal(k: nat)
    requires 0 < k <= 9
    ensures P256(GroupBytes(k) - 1) < 2 * Ten(k) <= P256(GroupBytes(k))
  {
    GroupHeadroom(k);
    Pow256Table();
    assert Ten(1) == 10 && Ten(2) == 100 && Ten(3) == 1000;
    assert Ten(4) == 10 * Ten(3) && Ten(5) == 10 * Ten(4) && Ten(6) == 10 * Ten(5);
    assert Ten(7) == 10 * Ten(6) && Ten(8) == 10 * Ten(7) && Ten(9) == 10 * Ten(8);
  }

  /** The digit counts of the groups, left to right. */
  type Groups = seq<nat>

  function Lead(k: nat): (g: Groups)
  {
    if k == 0 then [] else [k]
  }

  function Nines(n: nat): (g: Groups)
    ensures |g| == n
  {
    seq(n, _ => 9)
  }

  function DigitCount(g: Groups): nat {
    if g == [] then 0 else g[0] + DigitCount(g[1..])
  }

  function ByteCount(g: Groups): nat {
    if g == [] then 0 else GroupBytes(g[0]) + ByteCount(g[1..])
  }

  lemma {:induction false} CountConcat(a: Groups, b: Groups)
    ensures DigitCount(a + b) == DigitCount(a) + DigitCount(b)
    ensures ByteCount(a + b) == ByteCount(a) + ByteCount(b)
  {
    if a == [] {
      assert a + b == b;
    } else {
      assert (a + b)[1..] == a[1..] + b;
      CountConcat(a[1..], b);
    }
  }

  lemma {:induction false} CountNines(n: nat)
    ensures DigitCount(Nines(n)) == 9 * n && ByteCount(Nines(n)) == 4 * n
  {
    if n == 0 {
    } else {
      assert Nines(n)[1..] == Nines(n - 1);
      CountNines(n - 1);
    }
  }

  function Scale(meta: Meta): nat {
    meta % 256
  }

  function IntDigits(meta: Meta): nat {
    var precision := if meta / 256 == 0 then 10 else meta / 256;
    if precision < Scale(meta) then 0 else precision - Scale(meta)
  }

  function IntGroups(digits: nat): Groups {
    Lead(digits % 9) + Nines(digits / 9)
  }

  function FracGroups(digits: nat): Groups {
    Nines(digits / 9) + Lead(digits % 9)
  }

  function Layout(meta: Meta): Groups {
    IntGroups(IntDigits(meta)) + FracGroups(Scale(meta))
  }

  /** binSize as the source computes it. */
  function BinSize(meta: Meta): nat {
    IntDigits(meta) / 9 * 4 + GroupBytes(IntDigits(meta) % 9) + Scale(meta) / 9 * 4 + GroupBytes(Scale(meta) % 9)
  }

  /** The layout holds exactly the integer and fraction digits in exactly binSize bytes, and binSize is never 0. */
  lemma LayoutCounts(meta: Meta)
    ensures DigitCount(Layout(meta)) == IntDigits(meta) + Scale(meta)
    ensures ByteCount(Layout(meta)) == BinSize(meta)
    ensures BinSize(meta) > 0
    ensures IntDigits(meta) + Scale(meta) > 0
  {
    var i, s := IntDigits(meta), Scale(meta);
    CountNines(i / 9);
    CountNines(s / 9);
    LeadCounts(i % 9);
    LeadCounts(s % 9);
    CountConcat(Lead(i % 9), Nines(i / 9));
    CountConcat(Nines(s / 9), Lead(s % 9));
    CountConcat(IntGroups(i), FracGroups(s));
    if i % 9 > 0 {
      GroupHeadroom(i % 9);
    }
    if s % 9 > 0 {
      GroupHeadroom(s % 9);
    }
  }

  lemma LeadCounts(k: nat)
    ensures DigitCount(Lead(k)) == k && ByteCount(Lead(k)) == GroupBytes(k)
  {
    if k > 0 {
      assert [k][1..] == [];
    }
  }

  // --------------------------------------------------------------------------- text

  /** strings.IndexByte, with |s| standing for "absent". */
  function IndexOf(s: Bytes, c: byte): (i: nat)
    ensures i <= |s|
    ensures i < |s| ==> s[i] == c
    ensures forall j :: 0 <= j < i ==> s[j] != c
  {
    if s == [] || s[0] == c then 0 else 1 + IndexOf(s[1..], c)
  }

  predicate Negative(s: Bytes) {
    s != [] && s[0] == MINUS
  }

  function Magnitude(s: Bytes): Bytes {
    if Negative(s) then s[1..] else s
  }

  function IntPart(s: Bytes): Bytes {
    var m := Magnitude(s);
    m[..IndexOf(m, DOT)]
  }

  function FracPart(s: Bytes): Bytes {
    var m := Magnitude(s);
    var i := IndexOf(m, DOT);
    if i < |m| then m[i + 1..] else []
  }

  /** The integer part without leading zeros, but never empty. */
  function StrippedInt(s: Bytes): (r: Bytes) {
    var t := TrimLeftZeros(IntPart(s));
    if t == [] then [ZERO] else t
  }

  /** The last `n` digits, with zeros in front when there are fewer. */
  function PadInt(d: Bytes, n: nat): (r: Bytes)
    ensures |r| == n
  {
    if n == 0 then []
    else if d == [] then PadInt([], n - 1) + [ZERO]
    else PadInt(d[..|d| - 1], n - 1) + [d[|d| - 1]]
  }

  /** How the source pads: cut on the left when too long, else prepend zeros. */
  lemma {:induction false} PadIntForm(d: Bytes, n: nat)
    ensures PadInt(d, n) == if n == 0 then [] else if |d| >= n then d[|d| - n..] else Zeros(n - |d|) + d
  {
    if n == 0 {
    } else if d == [] {
      PadIntForm([], n - 1);
      assert Zeros(n) + d == Zeros(n - 1) + [ZERO];
      assert n == 1 ==> Zeros(0) == [];
    } else {
      PadIntForm(d[..|d| - 1], n - 1);
    }
  }

  function PadFrac(digits: Bytes, n: nat): (r: Bytes)
    ensures |r| == n
  {
    if n == 0 then []
    else if |digits| >= n then digits[..n]
    else digits + Zeros(n - |digits|)
  }

  /** The digits that are stored: the padded integer part followed by the padded fraction. */
  function StoredDigits(s: Bytes, meta: Meta): (d: Bytes)
    ensures |d| == IntDigits(meta) + Scale(meta)
  {
    PadInt(StrippedInt(s), IntDigits(meta)) + PadFrac(FracPart(s), Scale(meta))
  }

  // -------------------------------------------------------------------- specification

  function Masked(neg: bool, s: Bytes): (r: Bytes)
    ensures |r| == |s|
  {
    if neg then seq(|s|, i requires 0 <= i < |s| => 255 - s[i]) else s
  }

  lemma MaskedConcat(neg: bool, a: Bytes, b: Bytes)
    ensures Masked(neg, a + b) == Masked(neg, a) + Masked(neg, b)
  {
  }

  function FlipTop(b: byte): byte {
    if b >= 128 then b - 128 else b + 128
  }

  function FlipSign(s: Bytes): (r: Bytes)
    ensures |r| == |s|
  {
    if s == [] then [] else [FlipTop(s[0])] + s[1..]
  }

  /** Each group of digits as a big-endian number. */
  function Pack(d: Bytes, g: Groups): (r: Bytes)
    requires |d| == DigitCount(g)
    ensures |r| == ByteCount(g)
  {
    if g == [] then []
    else BE(ParseUint(d[..g[0]]), GroupBytes(g[0])) + Pack(d[g[0]..], g[1..])
  }

  function DecimalBytes(s: Bytes, meta: Meta): (r: Bytes)
    ensures |r| == BinSize(meta)
  {
    LayoutCounts(meta);
    FlipSign(Masked(Negative(s), Pack(StoredDigits(s, meta), Layout(meta))))
  }

  lemma {:induction false} PackConcat(d: Bytes, e: Bytes, g: Groups, h: Groups)
    requires |d| == DigitCount(g) && |e| == DigitCount(h)
    requires |d + e| == DigitCount(g + h)
    ensures Pack(d + e, g + h) == Pack(d, g) + Pack(e, h)
  {
    if g == [] {
      assert d + e == e && g + h == h;
    } else {
      var k, d', g' := g[0], d[g[0]..], g[1..];
      assert (g + h)[0] == k && (g + h)[1..] == g' + h;
      assert (d + e)[..k] == d[..k] && (d + e)[k..] == d' + e;
      PackConcat(d', e, g', h);
      PackStep(d + e, g + h);
      PackStep(d, g);
    }
  }

  lemma PackStep(d: Bytes, g: Groups)
    requires |d| == DigitCount(g) && g != []
    ensures Pack(d, g) == BE(ParseUint(d[..g[0]]), GroupBytes(g[0])) + Pack(d[g[0]..], g[1..])
  {
  }

  lemma PackOne(d: Bytes)
    requires 0 < |d| <= 9
    ensures DigitCount(Lead(|d|)) == |d|
    ensures Pack(d, Lead(|d|)) == BE(ParseUint(d), GroupBytes(|d|))
  {
    LeadCounts(|d|);
    assert d[..|d|] == d && d[|d|..] == [];
    assert [|d|][1..] == [];
  }

  // ------------------------------------------------------------------- the encoder

  /** encodeDecimalValue: a group's bytes written through the mask, size by size. */
  method PutDecimalValue(buf: array<byte>, pos: nat, value: nat, size: nat, neg: bool)
    requires 0 < size <= 4 && pos + size <= buf.Length
    requires value < 0x1_0000_0000
    modifies buf
    ensures buf[..pos + size] == old(buf[..pos]) + Masked(neg, BE(value, size))
    ensures buf[pos + size..] == old(buf[pos + size..])
  {
    var b3, b2, b1, b0 := value / 0x100_0000 % 256, value / 0x1_0000 % 256, value / 0x100 % 256, value % 256;
    var group: Bytes :=
      match size
      case 1 => [b0]
      case 2 => [b1, b0]
      case 3 => [b2, b1, b0]
      case _ => [b3, b2, b1, b0];
    UnrollBE(value, size);
    Put(buf, pos, Masked(neg, group));
  }

  lemma UnrollBE(v: nat, size: nat)
    requires 0 < size <= 4
    ensures size == 1 ==> BE(v, size) == [v % 256]
    ensures size == 2 ==> BE(v, size) == [v / 0x100 % 256, v % 256]
    ensures size == 3 ==> BE(v, size) == [v / 0x1_0000 % 256, v / 0x100 % 256, v % 256]
    ensures size == 4 ==> BE(v, size) == [v / 0x100_0000 % 256, v / 0x1_0000 % 256, v / 0x100 % 256, v % 256]
  {
    assert v / 256 / 256 == v / 0x1_0000 && v / 256 / 256 / 256 == v / 0x100_0000;
    assert BE(v / 0x100_0000, 1) == [v / 0x100_0000 % 256];
    assert BE(v / 0x1_0000, 1) == [v / 0x1_0000 % 256];
    assert BE(v / 0x100, 1) == [v / 0x100 % 256];
    assert BE(v / 0x1_0000, 2) == BE(v / 0x100_0000, 1) + [v / 0x1_0000 % 256];
    assert BE(v / 0x100, 2) == BE(v / 0x1_0000, 1) + [v / 0x100 % 256];
    assert BE(v / 0x100, 3) == BE(v / 0x1_0000, 2) + [v / 0x100 % 256];
  }

  lemma GroupValueFits(d: Bytes)
    requires 0 < |d| <= 9
    ensures ParseUint(d) < P256(GroupBytes(|d|))
    ensures ParseUint(d) < 0x1_0000_0000
  {
    ParseUintBound(d);
    GroupHeadroom(|d|);
    Pow256Table();
  }

  /** What the buffer holds so far: the digits `done`, laid out in the groups `g`, through the mask. */
  ghost predicate Holds(prefix: Bytes, neg: bool, done: Bytes, g: Groups) {
    |done| == DigitCount(g) && |prefix| == ByteCount(g) && prefix == Masked(neg, Pack(done, g))
  }

  lemma HoldsMore(prefix: Bytes, neg: bool, done: Bytes, g: Groups, d: Bytes)
    requires 0 < |d| <= 9 && Holds(prefix, neg, done, g)
    ensures Holds(prefix + Masked(neg, BE(ParseUint(d), GroupBytes(|d|))), neg, done + d, g + [|d|])
  {
    PackOne(d);
    CountConcat(g, [|d|]);
    LeadCounts(|d|);
    PackConcat(done, d, g, [|d|]);
    MaskedConcat(neg, Pack(done, g), Pack(d, [|d|]));
  }

  /** One compressed or full group of digits written at the cursor; nothing for an empty one. */
  method PutGroup(buf: array<byte>, pos: nat, d: Bytes, neg: bool, ghost done: Bytes, ghost g: Groups)
    returns (next: nat)
    requires |d| <= 9 && pos + GroupBytes(|d|) <= buf.Length && Holds(buf[..pos], neg, done, g)
    modifies buf
    ensures next == pos + GroupBytes(|d|) && Holds(buf[..next], neg, done + d, g + Lead(|d|))
  {
    if |d| == 0 {
      assert done + d == done && g + Lead(0) == g;
      return pos;
    }
    GroupHeadroom(|d|);
    GroupValueFits(d);
    HoldsMore(buf[..pos], neg, done, g, d);
    PutDecimalValue(buf, pos, ParseUint(d), GroupBytes(|d|), neg);
    next := pos + GroupBytes(|d|);
  }

  /** The loops over uncompressed groups: nine digits and four bytes at a time. */
  method PutNines(buf: array<byte>, start: nat, d: Bytes, neg: bool, ghost done: Bytes, ghost g: Groups)
    returns (pos: nat)
    requires |d| % 9 == 0 && start + |d| / 9 * 4 <= buf.Length && Holds(buf[..start], neg, done, g)
    modifies buf
    ensures pos == start + |d| / 9 * 4 && Holds(buf[..pos], neg, done + d, g + Nines(|d| / 9))
  {
    var n := |d| / 9;
    pos := start;
    assert done + d[..0] == done && g + Nines(0) == g;
    for i := 0 to n
      invariant pos == start + 4 * i
      invariant Holds(buf[..pos], neg, done + d[..9 * i], g + Nines(i))
    {
      assert done + d[..9 * i] + d[9 * i..9 * i + 9] == done + d[..9 * (i + 1)];
      assert g + Nines(i) + Lead(9) == g + Nines(i + 1);
      pos := PutGroup(buf, pos, d[9 * i..9 * i + 9], neg, done + d[..9 * i], g + Nines(i));
    }
    assert d[..9 * n] == d;
  }

  /** encodeDecimal: the write cursor ends exactly at binSize, then the sign bit is flipped. */
  method EncodeDecimal(s: Bytes, meta: Meta) returns (r: Bytes)
    ensures r == DecimalBytes(s, meta)
  {
    var neg := Negative(s);
    var digits, n := StrippedInt(s), IntDigits(meta);
    var whole := if n == 0 then [] else if |digits| >= n then digits[|digits| - n..] else Zeros(n - |digits|) + digits;
    PadIntForm(digits, n);
    var frac := PadFrac(FracPart(s), Scale(meta));
    LayoutCounts(meta);
    var buf := new byte[BinSize(meta)];
    var pos := PutIntegral(buf, whole, neg);
    pos := PutFractional(buf, pos, frac, neg, whole, IntGroups(|whole|));
    assert buf[..pos] == buf[..];
    FlipFirst(buf);
    r := buf[..];
  }

  /** buf[0] ^= 0x80 */
  method FlipFirst(buf: array<byte>)
    requires buf.Length > 0
    modifies buf
    ensures buf[..] == FlipSign(old(buf[..]))
  {
    buf[0] := FlipTop(buf[0]);
    assert buf[..] == [buf[0]] + old(buf[..])[1..];
  }

  /** The integral digits: the compressed leading group, then the full groups. */
  method PutIntegral(buf: array<byte>, whole: Bytes, neg: bool) returns (pos: nat)
    requires |whole| / 9 * 4 + GroupBytes(|whole| % 9) <= buf.Length
    modifies buf
    ensures pos == |whole| / 9 * 4 + GroupBytes(|whole| % 9)
    ensures Holds(buf[..pos], neg, whole, IntGroups(|whole|))
  {
    var c := |whole| % 9;
    var lead, rest := whole[..c], whole[c..];
    assert [] + lead == lead && lead + rest == whole && [] + Lead(c) == Lead(c);
    pos := PutGroup(buf, 0, lead, neg, [], []);
    pos := PutNines(buf, pos, rest, neg, lead, Lead(c));
  }

  /** The fractional digits: the full groups, then the compressed rest. */
  method PutFractional(buf: array<byte>, start: nat, frac: Bytes, neg: bool, ghost done: Bytes, ghost g: Groups)
    returns (pos: nat)
    requires start + |frac| / 9 * 4 + GroupBytes(|frac| % 9) <= buf.Length && Holds(buf[..start], neg, done, g)
    modifies buf
    ensures pos == start + |frac| / 9 * 4 + GroupBytes(|frac| % 9)
    ensures Holds(buf[..pos], neg, done + frac, g + FracGroups(|frac|))
  {
    hide Holds;
    var n := |frac| / 9;
    var nines, rest := frac[..9 * n], frac[9 * n..];
    pos := PutNines(buf, start, nines, neg, done, g);
    pos := PutGroup(buf, pos, rest, neg, done + nines, g + Nines(n));
    assert done + nines + rest == done + frac;
    assert g + Nines(n) + Lead(|rest|) == g + FracGroups(|frac|);
  }
}
