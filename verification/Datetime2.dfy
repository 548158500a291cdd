/**
  DATETIME2 packing (pkg/replication/binlog_encoder.go, encodeDatetime2): year, month, day, hour, minute and
  second in five big-endian bytes, followed by zero bytes for the declared fractional digits.
 */
module Datetime2 {
  import opened Bytes
  import opened Decimal

  /** The fields of a Go time.Time with a year of at most four digits. */
  datatype DateTime = DateTime(year: nat, month: nat, day: nat, hour: nat, minute: nat, second: nat)

  predicate Valid(t: DateTime) {
    t.year <= 9999 && 1 <= t.month <= 12 && 1 <= t.day <= 31 && t.hour <= 23 && t.minute <= 59 && t.second <= 59
  }

  const INT_OFS: nat := 0x80_0000_0000

  /** The packed fields; every `|` of the source joins bits that do not overlap. */
  function Fields(t: DateTime): nat {
    ((t.year * 13 + t.month) * 32 + t.day) * 0x2_0000 + (t.hour * 0x1000 + t.minute * 64 + t.second)
  }

  function FracBytes(meta: Meta): nat {
    (meta + 1) % 0x1_0000 / 2
  }

  function Datetime2Bytes(t: DateTime, meta: Meta): Bytes {
    BE(Fields(t) + INT_OFS, 5) + seq(FracBytes(meta), _ => 0)
  }

  method EncodeDatetime2(t: DateTime, meta: Meta) returns (r: Bytes)
    requires Valid(t)
    ensures r == Datetime2Bytes(t, meta)
  {
    var buf := new byte[5 + FracBytes(meta)](_ => 0);
    var n := Fields(t) + INT_OFS;
    buf[0] := n / 0x1_0000_0000 % 256;
    buf[1] := n / 0x100_0000 % 256;
    buf[2] := n / 0x1_0000 % 256;
    buf[3] := n / 0x100 % 256;
    buf[4] := n % 256;
    UnrollFive(n);
    r := buf[..];
  }

  lemma UnrollFive(n: nat)
    ensures BE(n, 5)
         == [n / 0x1_0000_0000 % 256, n / 0x100_0000 % 256, n / 0x1_0000 % 256, n / 0x100 % 256, n % 256]
  {
    var n1 := n / 256;
    UnrollBE(n1, 4);
    assert n1 / 0x100_0000 == n / 0x1_0000_0000 && n1 / 0x1_0000 == n / 0x100_0000 && n1 / 0x100 == n / 0x1_0000;
    assert BE(n, 5) == BE(n1, 4) + [n % 256];
  }

  /** The reference decoder: strip the offset 2^39, then unpack from the low bits up. */
  function DecodeDatetime2(s: Bytes): DateTime
    requires |s| >= 5 && FromBE(s[..5]) >= 0x80_0000_0000
  {
    var n := FromBE(s[..5]) - 0x80_0000_0000;
    var ymd, hms := n / 0x2_0000, n % 0x2_0000;
    var ym := ymd / 32;
    DateTime(ym / 13, ym % 13, ymd % 32, hms / 0x1000, hms / 64 % 64, hms % 64)
  }

  lemma FieldsBound(t: DateTime)
    requires Valid(t)
    ensures Fields(t) < INT_OFS
  {
    assert t.year * 13 + t.month < 0x2_0000;
  }

  lemma Width5()
    ensures P256(5) == 0x100_0000_0000
  {
    Pow256Table();
    assert P256(5) == 256 * P256(4);
  }

  lemma ClockFields(h: nat, m: nat, c: nat)
    requires h < 32 && m < 64 && c < 64
    ensures var n := h * 0x1000 + m * 64 + c; n < 0x2_0000 && n / 0x1000 == h && n / 64 % 64 == m && n % 64 == c
  {
    var n := h * 0x1000 + m * 64 + c;
    assert n / 64 == h * 64 + m;
  }

  lemma DayFields(y: nat, m: nat, d: nat, clock: nat)
    requires m < 13 && d < 32 && clock < 0x2_0000
    ensures var n := ((y * 13 + m) * 32 + d) * 0x2_0000 + clock;
            n % 0x2_0000 == clock && n / 0x2_0000 % 32 == d
            && n / 0x2_0000 / 32 / 13 == y && n / 0x2_0000 / 32 % 13 == m
  {
    var ymd := (y * 13 + m) * 32 + d;
    assert (ymd * 0x2_0000 + clock) / 0x2_0000 == ymd;
    assert ymd / 32 == y * 13 + m;
  }

  /** The five bytes never overflow 40 bits and decode to the same six fields. */
  lemma Datetime2RoundTrip(t: DateTime, meta: Meta)
    requires Valid(t)
    ensures Fields(t) + INT_OFS < P256(5)
    ensures FromBE(Datetime2Bytes(t, meta)[..5]) >= 0x80_0000_0000
    ensures |Datetime2Bytes(t, meta)| == 5 + (if meta == 65535 then 0 else (meta + 1) / 2)
    ensures DecodeDatetime2(Datetime2Bytes(t, meta)) == t
  {
    FieldsBound(t);
    Width5();
    var n := Fields(t) + INT_OFS;
    FromBEOfBE(n, 5);
    assert Datetime2Bytes(t, meta)[..5] == BE(n, 5);
    var clock := t.hour * 0x1000 + t.minute * 64 + t.second;
    ClockFields(t.hour, t.minute, t.second);
    DayFields(t.year, t.month, t.day, clock);
  }

  /** Earlier in time, field by field. */
  predicate Before(a: DateTime, b: DateTime) {
    if a.year != b.year then a.year < b.year
    else if a.month != b.month then a.month < b.month
    else if a.day != b.day then a.day < b.day
    else if a.hour != b.hour then a.hour < b.hour
    else if a.minute != b.minute then a.minute < b.minute
    else a.second < b.second
  }

  lemma FieldsOrder(a: DateTime, b: DateTime)
    requires Valid(a) && Valid(b)
    ensures Fields(a) < Fields(b) <==> Before(a, b)
  {
    ClockFields(a.hour, a.minute, a.second);
    ClockFields(b.hour, b.minute, b.second);
  }

  /** Comparing the bytes compares the times. */
  lemma Datetime2Order(a: DateTime, b: DateTime, meta: Meta)
    requires Valid(a) && Valid(b)
    ensures LexLess(Datetime2Bytes(a, meta), Datetime2Bytes(b, meta)) <==> Before(a, b)
  {
    FieldsBound(a);
    FieldsBound(b);
    Width5();
    var x, y := BE(Fields(a) + INT_OFS, 5), BE(Fields(b) + INT_OFS, 5);
    var zeros: Bytes := seq(FracBytes(meta), _ => 0);
    BEOrder(Fields(a) + INT_OFS, Fields(b) + INT_OFS, 5);
    LexConcat(x, zeros, y, zeros);
    LexIrreflexive(zeros);
    FieldsOrder(a, b);
  }

  lemma {:induction false} LexIrreflexive(s: Bytes)
    ensures !LexLess(s, s)
  {
    if s != [] {
      LexIrreflexive(s[1..]);
    }
  }
}
