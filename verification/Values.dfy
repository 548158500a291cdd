/**
  Single values in row images (pkg/replication/binlog_encoder.go, encodeValue and the per-type encoders) for
  the column types the streamer produces, with the decoder they are the reverse of.
 */
module Values {
  import opened Bytes
  import opened Digits
  import opened Decimal
  import opened DecimalTheorems
  import opened Scanning

  // ------------------------------------------------------------------- column types

  const TINY: byte := 1
  const SHORT: byte := 2
  const LONG: byte := 3
  const FLOAT: byte := 4
  const DOUBLE: byte := 5
  const LONGLONG: byte := 8
  const DATE: byte := 10
  const TIME: byte := 11
  const DATETIME: byte := 12
  const VARCHAR: byte := 15
  const BIT: byte := 16
  const JSON: byte := 245
  const NEWDECIMAL: byte := 246
  const BLOB: byte := 252
  const VAR_STRING: byte := 253
  const STRING: byte := 254

  /** The Go values a row can hold; floats are their bit patterns, strings are bytes. */
  datatype Value =
    | Int8(i: int)
    | Int16(i: int)
    | Int32(i: int)
    | Int64(i: int)
    | Float32(bits: nat)
    | Float64(bits: nat)
    | Str(s: Bytes)

  /** Values whose Go type bounds them. */
  predicate Typed(v: Value) {
    match v
    case Int8(i) => FitsSigned(i, 1)
    case Int16(i) => FitsSigned(i, 2)
    case Int32(i) => FitsSigned(i, 4)
    case Int64(i) => FitsSigned(i, 8)
    case Float32(b) => b < P256(4)
    case Float64(b) => b < P256(8)
    case Str(_) => true
  }

  // ----------------------------------------------------------------- leaf encoders

  function LittleInt(v: int, k: nat): Bytes {
    LE(Unsigned(v, k), k)
  }

  /** A length in `k` little-endian bytes, then the data; a longer length is cut off as byte(length) does. */
  function Prefixed(k: nat, s: Bytes): Bytes {
    LE(|s|, k) + s
  }

  const DATE_SEPS: Bytes := [DASH, DASH]
  const TIME_SEPS: Bytes := [COLON, COLON]
  const DATETIME_SEPS: Bytes := [DASH, DASH, BLANK, COLON, COLON]

  function DateNumber(vs: seq<int>): int
    requires |vs| == 3
  {
    vs[0] * 16 * 32 + vs[1] * 32 + vs[2]
  }

  function ClockNumber(vs: seq<int>): int
    requires |vs| == 3
  {
    vs[0] * 10_000 + vs[1] * 100 + vs[2]
  }

  function DatetimeNumber(vs: seq<int>): int
    requires |vs| == 6
  {
    ClockNumber(vs[..3]) * 1_000_000 + ClockNumber(vs[3..])
  }

  /** The length-prefix width of a CHAR/VARCHAR column with maximum length `max`. */
  function LengthWidth(max: nat): nat {
    if max < 256 then 1 else 2
  }

  function FixedStringMax(meta: Meta): nat {
    if meta >= 256 then meta % 256 else meta
  }

  function BlobWidth(meta: Meta): nat {
    if 1 <= meta <= 4 then meta else 2
  }

  /** The bytes of a BIT column: its metadata counts whole bytes and single bits. */
  function BitBytes(meta: Meta): nat {
    (meta / 256 * 8 + meta % 256 + 7) / 8
  }

  /** The pairs of value and column type whose encoding needs no float conversion and no %v formatting. */
  predicate Encodable(v: Value, t: byte) {
    if t in {TINY, SHORT, LONG, LONGLONG} then true
    else if t == FLOAT then !v.Float64?
    else if t == DOUBLE then !v.Float32?
    else if t == BIT then true
    else t in {DATE, TIME, DATETIME, NEWDECIMAL, VARCHAR, VAR_STRING, STRING, BLOB, JSON} && v.Str?
  }

  function EncodeValue(v: Value, t: byte, meta: Meta): Bytes
    requires Encodable(v, t)
  {
    if t == TINY then
      LittleInt(if v.Int8? || v.Int16? || v.Int32? || v.Int64? then v.i else 0, 1)
    else if t == SHORT then
      LittleInt(if v.Int16? || v.Int32? || v.Int64? then v.i else 0, 2)
    else if t == LONG then
      LittleInt(if v.Int32? || v.Int64? then v.i else 0, 4)
    else if t == LONGLONG then
      LittleInt(if v.Int32? || v.Int64? then v.i else 0, 8)
    else if t == FLOAT then
      LE(if v.Float32? then v.bits else 0, 4)
    else if t == DOUBLE then
      LE(if v.Float64? then v.bits else 0, 8)
    else if t == NEWDECIMAL then
      DecimalBytes(v.s, meta)
    else if t == DATE then
      LittleInt(DateNumber(ScanFields(v.s, DATE_SEPS)), 3)
    else if t == TIME then
      LittleInt(ClockNumber(ScanFields(v.s, TIME_SEPS)), 3)
    else if t == DATETIME then
      LittleInt(DatetimeNumber(ScanFields(v.s, DATETIME_SEPS)), 8)
    else if t == VARCHAR || t == VAR_STRING then
      Prefixed(LengthWidth(meta), v.s)
    else if t == STRING then
      Prefixed(LengthWidth(FixedStringMax(meta)), v.s)
    else if t == BLOB then
      Prefixed(BlobWidth(meta), v.s)
    else if t == JSON then
      Prefixed(meta, v.s)
    else
      // BIT: only integers have bits to write; anything else, text included, counts as zero
      BE(Unsigned(if v.Int64? then v.i else 0, BitBytes(meta)), BitBytes(meta))
  }

  // ---------------------------------------------------------------------- the decoder

  function Take(s: Bytes, k: nat): Decoded<Bytes> {
    if |s| < k then Bad else Got(s[..k], s[k..])
  }

  function TakePrefixed(s: Bytes, k: nat): Decoded<Value> {
    if |s| < k then Bad
    else
      var n := FromLE(s[..k]);
      if |s| < k + n then Bad else Got(Str(s[k..k + n]), s[k + n..])
  }

  function DateOf(n: nat): Bytes {
    PrintFields([n / 512, n / 32 % 16, n % 32], [4, 2, 2], DATE_SEPS)
  }

  function ClockOf(n: nat): Bytes {
    PrintFields([n / 10_000, n / 100 % 100, n % 100], [2, 2, 2], TIME_SEPS)
  }

  function DatetimeOf(n: nat): Bytes {
    var d, c := n / 1_000_000, n % 1_000_000;
    PrintFields([d / 10_000, d / 100 % 100, d % 100, c / 10_000, c / 100 % 100, c % 100],
                [4, 2, 2, 2, 2, 2], DATETIME_SEPS)
  }

  /** How many bytes a fixed-width column takes, by the type codes of the MySQL protocol: TINY (1), SHORT (2), LONG (3),
      FLOAT (4), DOUBLE (5), LONGLONG (8), DATE (10), TIME (11), DATETIME (12), DECIMAL (246). */
  function FixedWidth(t: byte, meta: Meta): nat {
    if t == 1 then 1
    else if t == 2 then 2
    else if t == 3 || t == 4 then 4
    else if t == 8 || t == 5 || t == 12 then 8
    else if t == 10 || t == 11 then 3
    else DecimalSize(meta)
  }

  predicate IsFixed(t: byte) {
    t in {1, 2, 3, 4, 8, 5, 12, 10, 11, 246}
  }

  function DecodeFixed(b: Bytes, t: byte, meta: Meta): Value
    requires IsFixed(t) && |b| == FixedWidth(t, meta)
  {
    if t == 1 then Int8(Signed(FromLE(b), 1))
    else if t == 2 then Int16(Signed(FromLE(b), 2))
    else if t == 3 then Int32(Signed(FromLE(b), 4))
    else if t == 8 then Int64(Signed(FromLE(b), 8))
    else if t == 4 then Float32(FromLE(b))
    else if t == 5 then Float64(FromLE(b))
    else if t == 10 then Str(DateOf(FromLE(b)))
    else if t == 11 then Str(ClockOf(FromLE(b)))
    else if t == 12 then Str(DatetimeOf(FromLE(b)))
    else
      DecimalSizeIsBinSize(meta);
      Str(DecimalText(DecodeDecimal(b, meta), meta))
  }

  predicate IsPrefixed(t: byte) {
    t in {15, 253, 254, 252, 245}
  }

  /** The width of the length prefix of a variable-width column: one byte for CHAR (254), the metadata for BLOB (252) and
      JSON (245), and for VARCHAR (15, 253) one byte up to a declared length of 255 and two beyond. */
  function PrefixWidth(t: byte, meta: Meta): nat {
    if t == 254 then 1
    else if t == 252 then (if 1 <= meta <= 4 then meta else 2)
    else if t == 245 then meta
    else if meta <= 255 then 1 else 2
  }

  /** Reads one value off the front of `s`, knowing only the column's type and metadata. */
  function DecodeValue(s: Bytes, t: byte, meta: Meta): Decoded<Value> {
    if IsFixed(t) then
      match Take(s, FixedWidth(t, meta))
      case Bad => Bad
      case Got(b, rest) => Got(DecodeFixed(b, t, meta), rest)
    else if IsPrefixed(t) then TakePrefixed(s, PrefixWidth(t, meta))
    else Bad
  }

  // ---------------------------------------------------------------- representability

  predicate IsDate(s: Bytes, y: nat, m: nat, d: nat) {
    y <= 9999 && m <= 15 && d <= 31 && s == PrintFields([y, m, d], [4, 2, 2], DATE_SEPS)
  }

  predicate IsClock(s: Bytes, h: nat, m: nat, c: nat) {
    h <= 99 && m <= 99 && c <= 99 && s == PrintFields([h, m, c], [2, 2, 2], TIME_SEPS)
  }

  predicate IsDatetime(s: Bytes, vs: seq<nat>) {
    |vs| == 6 && PrintedAs(vs, [4, 2, 2, 2, 2, 2]) && s == PrintFields(vs, [4, 2, 2, 2, 2, 2], DATETIME_SEPS)
  }

  /** The values a column of type `t` and metadata `meta` can hold without loss. */
  ghost predicate Representable(v: Value, t: byte, meta: Meta) {
    && Typed(v)
    && if t == TINY then v.Int8?
       else if t == SHORT then v.Int16?
       else if t == LONG then v.Int32?
       else if t == LONGLONG then v.Int64?
       else if t == FLOAT then v.Float32?
       else if t == DOUBLE then v.Float64?
       else if t == DATE then v.Str? && exists y, m, d :: IsDate(v.s, y, m, d)
       else if t == TIME then v.Str? && exists h, m, c :: IsClock(v.s, h, m, c)
       else if t == DATETIME then v.Str? && exists vs :: IsDatetime(v.s, vs)
       else if t == NEWDECIMAL then v.Str? && Numeral(v.s) && Fits(v.s, meta)
       else IsPrefixed(t) && v.Str? && |v.s| < P256(PrefixWidth(t, meta))
  }

  /** The length prefix is the narrowest that can say every length up to the declared maximum. */
  lemma LengthWidthMinimal(max: nat)
    requires max < 0x1_0000
    ensures max < P256(LengthWidth(max)) && (LengthWidth(max) > 1 ==> P256(LengthWidth(max) - 1) <= max)
  {
    Pow256Table();
  }

  /** Every text up to the declared maximum of its column is representable: 65535 bytes at most for VARCHAR, 255 for CHAR;
      TEXT takes what its two length bytes can say and JSON what its four can. */
  lemma TextLimits(s: Bytes, meta: Meta)
    ensures |s| <= meta ==> Representable(Str(s), VAR_STRING, meta) && Representable(Str(s), VARCHAR, meta)
    ensures |s| <= 255 <==> Representable(Str(s), STRING, meta)
    ensures |s| <= 65535 <==> Representable(Str(s), BLOB, 2)
    ensures |s| <= 0xFFFF_FFFF <==> Representable(Str(s), JSON, 4)
  {
    Pow256Table();
  }

  // --------------------------------------------------------------------- what values mean

  /** The data a column holds: numbers, floats as bit patterns, text. */
  datatype Datum =
    | DNull
    | DInt(i: int)
    | DNumber(r: Ratio)
    | DFloat(bits: nat)
    | DText(s: Bytes)

  /** The number a numeral denotes; other text stands for itself. */
  function NumberOf(s: Bytes): Datum {
    if Numeral(s) then DNumber(ValueOf(s)) else DText(s)
  }

  function DatumOf(v: Value, t: byte): Datum {
    match v
    case Int8(i) => DInt(i)
    case Int16(i) => DInt(i)
    case Int32(i) => DInt(i)
    case Int64(i) => DInt(i)
    case Float32(b) => DFloat(b)
    case Float64(b) => DFloat(b)
    case Str(s) => if t == NEWDECIMAL then NumberOf(s) else DText(s)
  }

  /** What the decoder returns for a value: a decimal in the places of its column, any other value unchanged. */
  function Settled(v: Value, t: byte, meta: Meta): Value {
    if t == NEWDECIMAL && v.Str? then Str(SettledText(v.s, meta)) else v
  }

  lemma SettledDatum(v: Value, t: byte, meta: Meta)
    requires Representable(v, t, meta)
    ensures DatumOf(Settled(v, t, meta), t) == DatumOf(v, t)
  {
    hide SettledText, Numeral, Fits, ValueOf;
    if t == NEWDECIMAL {
      SettledValueIffFits(v.s, meta);
    }
  }

  // ----------------------------------------------------------------------- round trip

  lemma IntRoundTrip(v: int, k: nat)
    requires FitsSigned(v, k)
    ensures Signed(FromLE(LittleInt(v, k)), k) == v
  {
    FromLEOfLE(Unsigned(v, k), k);
    SignedOfUnsigned(v, k);
  }

  lemma SmallUnsigned(n: nat, k: nat)
    requires n < P256(k)
    ensures Unsigned(n, k) == n && FromLE(LittleInt(n, k)) == n
  {
    FromLEOfLE(n, k);
  }

  lemma DateDigits(y: nat, m: nat, d: nat)
    requires m <= 15 && d <= 31
    ensures var n := y * 512 + m * 32 + d; n / 512 == y && n / 32 % 16 == m && n % 32 == d
  {
    var n := y * 512 + m * 32 + d;
    assert n == 32 * (16 * y + m) + d;
    assert n / 32 == 16 * y + m;
  }

  lemma DateRoundTrip(s: Bytes, y: nat, m: nat, d: nat)
    requires IsDate(s, y, m, d)
    ensures DateOf(FromLE(LittleInt(DateNumber(ScanFields(s, DATE_SEPS)), 3))) == s
  {
    hide PrintFields, ScanFields, Padded;
    SmallTenTable();
    ScanOfPrint([y, m, d], [4, 2, 2], DATE_SEPS, []);
    assert s + [] == s;
    Pow256Table();
    SmallUnsigned(y * 512 + m * 32 + d, 3);
    DateDigits(y, m, d);
  }

  lemma SmallTenTable()
    ensures Ten(2) == 100 && Ten(4) == 10_000
  {
    assert Ten(4) == 10 * Ten(3) && Ten(3) == 10 * Ten(2) && Ten(2) == 10 * Ten(1) && Ten(1) == 10;
  }

  lemma ClockDigits(h: nat, m: nat, c: nat)
    requires m <= 99 && c <= 99
    ensures var n := h * 10_000 + m * 100 + c; n / 10_000 == h && n / 100 % 100 == m && n % 100 == c
  {
  }

  lemma ClockRoundTrip(s: Bytes, h: nat, m: nat, c: nat)
    requires IsClock(s, h, m, c)
    ensures ClockOf(FromLE(LittleInt(ClockNumber(ScanFields(s, TIME_SEPS)), 3))) == s
  {
    hide PrintFields, ScanFields, Padded;
    SmallTenTable();
    ScanOfPrint([h, m, c], [2, 2, 2], TIME_SEPS, []);
    assert s + [] == s;
    Pow256Table();
    SmallUnsigned(h * 10_000 + m * 100 + c, 3);
    ClockDigits(h, m, c);
  }

  lemma DatetimeRoundTrip(s: Bytes, vs: seq<nat>)
    requires IsDatetime(s, vs)
    ensures DatetimeOf(FromLE(LittleInt(DatetimeNumber(ScanFields(s, DATETIME_SEPS)), 8))) == s
  {
    hide PrintFields, ScanFields, Padded, DatetimeOf, LittleInt;
    ScanOfPrint(vs, [4, 2, 2, 2, 2, 2], DATETIME_SEPS, []);
    assert s + [] == s;
    DatetimeFields(vs);
    assert vs[..3] == [vs[0], vs[1], vs[2]] && vs[3..] == [vs[3], vs[4], vs[5]];
    DatetimeDigits(vs[0], vs[1], vs[2], vs[3], vs[4], vs[5]);
    assert vs == [vs[0], vs[1], vs[2], vs[3], vs[4], vs[5]];
  }

  lemma DatetimeDigits(y: nat, mo: nat, d: nat, h: nat, mi: nat, c: nat)
    requires y < 10_000 && mo < 100 && d < 100 && h < 100 && mi < 100 && c < 100
    ensures DatetimeOf(FromLE(LittleInt((y * 10_000 + mo * 100 + d) * 1_000_000 + (h * 10_000 + mi * 100 + c), 8)))
         == PrintFields([y, mo, d, h, mi, c], [4, 2, 2, 2, 2, 2], DATETIME_SEPS)
  {
    var date, clock := y * 10_000 + mo * 100 + d, h * 10_000 + mi * 100 + c;
    var n := date * 1_000_000 + clock;
    hide PrintFields, Padded, LittleInt;
    assert date < 100_000_000 && clock < 1_000_000;
    DatetimeFits(date, clock);
    SmallUnsigned(n, 8);
    ClockDigits(y, mo, d);
    ClockDigits(h, mi, c);
  }

  lemma DatetimeFits(date: nat, clock: nat)
    requires date < 100_000_000 && clock < 1_000_000
    ensures var n := date * 1_000_000 + clock; n < P256(8) && n / 1_000_000 == date && n % 1_000_000 == clock
  {
    Pow256Table();
  }

  lemma DatetimeFields(vs: seq<nat>)
    requires |vs| == 6 && PrintedAs(vs, [4, 2, 2, 2, 2, 2])
    ensures vs[0] < 10_000 && vs[1] < 100 && vs[2] < 100 && vs[3] < 100 && vs[4] < 100 && vs[5] < 100
  {
    SmallTenTable();
    var w := [4, 2, 2, 2, 2, 2];
    assert w[0] == 4 && w[1] == 2 && w[2] == 2 && w[3] == 2 && w[4] == 2 && w[5] == 2;
  }

  /** A length prefix of `k` bytes delimits a text, whatever follows, exactly when the length fits the prefix. */
  lemma PrefixedRoundTrip(s: Bytes, k: nat, rest: Bytes)
    ensures TakePrefixed(Prefixed(k, s) + rest, k) == Got(Str(s), rest) <==> |s| < P256(k)
  {
    hide LE, FromLE;
    var p := LE(|s|, k) + s + rest;
    assert p[..k] == LE(|s|, k);
    if |s| < P256(k) {
      FromLEOfLE(|s|, k);
      assert p[k..k + |s|] == s && p[k + |s|..] == rest;
    } else {
      FromLEBound(LE(|s|, k));
    }
  }

  /** A text of 65536 bytes does not fit the two bytes that TEXT columns have for its length. */
  lemma LongTextIsLost()
    ensures var s: Bytes := seq(0x1_0000, _ => 120);
            TakePrefixed(EncodeValue(Str(s), BLOB, 2), 2) != Got(Str(s), [])
  {
    hide TakePrefixed, Prefixed, P256;
    var s: Bytes := seq(0x1_0000, _ => 120);
    Pow256Table();
    PrefixedRoundTrip(s, 2, []);
    assert Prefixed(2, s) + [] == Prefixed(2, s);
  }

  lemma RepresentableEncodable(v: Value, t: byte, meta: Meta)
    requires Representable(v, t, meta)
    ensures Encodable(v, t)
  {
  }

  lemma FixedRoundTrip(v: Value, t: byte, meta: Meta)
    requires Representable(v, t, meta) && IsFixed(t) && Encodable(v, t)
    ensures |EncodeValue(v, t, meta)| == FixedWidth(t, meta)
    ensures DecodeFixed(EncodeValue(v, t, meta), t, meta) == Settled(v, t, meta)
  {
    if t == TINY {
      IntRoundTrip(v.i, 1);
    } else if t == SHORT {
      IntRoundTrip(v.i, 2);
    } else if t == LONG {
      IntRoundTrip(v.i, 4);
    } else if t == LONGLONG {
      IntRoundTrip(v.i, 8);
    } else if t == FLOAT {
      FromLEOfLE(v.bits, 4);
    } else if t == DOUBLE {
      FromLEOfLE(v.bits, 8);
    } else {
      TextFixedRoundTrip(v, t, meta);
    }
  }

  lemma TextFixedRoundTrip(v: Value, t: byte, meta: Meta)
    requires Representable(v, t, meta) && t in {DATE, TIME, DATETIME, NEWDECIMAL} && Encodable(v, t)
    ensures |EncodeValue(v, t, meta)| == FixedWidth(t, meta)
    ensures DecodeFixed(EncodeValue(v, t, meta), t, meta) == Settled(v, t, meta)
  {
    hide DecimalBytes, DecodeDecimal, DecimalText, BinSize, DecimalSize, Numeral, Fits;
    if t == DATE {
      var y, m, d :| IsDate(v.s, y, m, d);
      DateRoundTrip(v.s, y, m, d);
    } else if t == TIME {
      var h, m, c :| IsClock(v.s, h, m, c);
      ClockRoundTrip(v.s, h, m, c);
    } else if t == DATETIME {
      var vs :| IsDatetime(v.s, vs);
      DatetimeRoundTrip(v.s, vs);
    } else {
      DecimalSizeIsBinSize(meta);
    }
  }

  /** Every value encoding is self-delimiting: it decodes to the value, a decimal in the places of its column, and leaves
      exactly what followed; the datum is the same. */
  lemma ValueRoundTrip(v: Value, t: byte, meta: Meta, rest: Bytes)
    requires Representable(v, t, meta) && Encodable(v, t)
    ensures DecodeValue(EncodeValue(v, t, meta) + rest, t, meta) == Got(Settled(v, t, meta), rest)
    ensures DatumOf(Settled(v, t, meta), t) == DatumOf(v, t)
  {
    var e := EncodeValue(v, t, meta);
    SettledDatum(v, t, meta);
    if IsFixed(t) {
      FixedRoundTrip(v, t, meta);
      assert (e + rest)[..|e|] == e && (e + rest)[|e|..] == rest;
    } else {
      PrefixedRoundTrip(v.s, PrefixWidth(t, meta), rest);
    }
  }

  /** A decimal in canonical text comes back as the same text. */
  lemma CanonicalDecimalSettled(neg: bool, x: Bytes, frac: Bytes, meta: Meta)
    requires AllDigits(x) && AllDigits(frac) && |x| == IntDigits(meta) && |frac| == Scale(meta)
    ensures var v := Str(Joined(neg, WholeText(x), frac)); Settled(v, NEWDECIMAL, meta) == v
  {
    DecimalTextRoundTrip(neg, x, frac, meta);
  }

  /** Fractional seconds and a zone offset behind the seconds are dropped: the bytes are those of the text without them, so
      the whole text survives exactly when there are none. */
  lemma DatetimeSuffixDropped(vs: seq<nat>, s: Bytes, suffix: Bytes, meta: Meta)
    requires IsDatetime(s, vs) && (suffix == [] || !IsDigit(suffix[0]))
    ensures |EncodeValue(Str(s + suffix), DATETIME, meta)| == 8
    ensures DecodeFixed(EncodeValue(Str(s + suffix), DATETIME, meta), DATETIME, meta) == Str(s)
    ensures DecodeFixed(EncodeValue(Str(s + suffix), DATETIME, meta), DATETIME, meta) == Str(s + suffix) <==> suffix == []
  {
    hide PrintFields, ScanFields, DatetimeOf, DatetimeNumber, PrintedAs;
    ScanOfPrint(vs, [4, 2, 2, 2, 2, 2], DATETIME_SEPS, suffix);
    ScanOfPrint(vs, [4, 2, 2, 2, 2, 2], DATETIME_SEPS, []);
    assert s + [] == s;
    DatetimeRoundTrip(s, vs);
    assert |s + suffix| == |s| + |suffix|;
  }

  /** A BIT column of b bytes and r bits holds an integer of its width, high byte first; text leaves all its bits clear. */
  lemma BitValues(i: nat, s: Bytes, bytes: nat, bits: nat)
    requires bytes < 256 && bits < 256
    ensures var n := bytes + (bits + 7) / 8;
            && |EncodeValue(Int64(i), BIT, bytes * 256 + bits)| == n
            && (i < P256(n) ==> FromBE(EncodeValue(Int64(i), BIT, bytes * 256 + bits)) == i)
            && FromBE(EncodeValue(Str(s), BIT, bytes * 256 + bits)) == 0
  {
    var n, meta := bytes + (bits + 7) / 8, bytes * 256 + bits;
    assert meta / 256 == bytes && meta % 256 == bits;
    assert BitBytes(meta) == n;
    if i < P256(n) {
      FromBEOfBE(i, n);
    }
    FromBEOfBE(0, n);
  }

  /** What a narrower or wider Go integer leaves in a column: its low bytes; TINY takes every width, SHORT all but the
      narrowest, LONG and LONGLONG the two widest, and a width that is not taken counts as zero. */
  lemma IntegersWrap(v: Value, t: byte, meta: Meta)
    requires (v.Int8? || v.Int16? || v.Int32? || v.Int64?) && t in {1, 2, 3, 8}
    ensures var k := if t == 3 then 4 else t;
            var taken := t == 1 || (!v.Int8? && (t == 2 || !v.Int16?));
            && Encodable(v, t) && |EncodeValue(v, t, meta)| == k
            && FromLE(EncodeValue(v, t, meta)) == Rem(if taken then v.i else 0, P256(k))
  {
    var k := if t == 3 then 4 else t;
    FromLEOfLE(Unsigned(v.i, k), k);
    FromLEOfLE(Unsigned(0, k), k);
  }
}
