/**
  The part of fmt.Sscanf the encoders rely on: "%d" fields between literal separators, where the fields
  after the first failure keep their zero value.
 */
module Scanning {
  import opened Bytes
  import opened Digits

  const DASH: byte := 45
  const COLON: byte := 58
  const BLANK: byte := 32

  predicate IsBlank(c: byte) {
    c == 32 || c == 9
  }

  function SkipBlanks(s: Bytes): (r: Bytes)
    ensures |r| <= |s|
  {
    if s != [] && IsBlank(s[0]) then SkipBlanks(s[1..]) else s
  }

  /** The number of leading digits. */
  function DigitRun(s: Bytes): (n: nat)
    ensures n <= |s| && AllDigits(s[..n])
    ensures n < |s| ==> !IsDigit(s[n])
  {
    if s != [] && IsDigit(s[0]) then
      var n := DigitRun(s[1..]);
      assert s[..1 + n] == [s[0]] + s[1..][..n];
      1 + n
    else 0
  }

  datatype Scanned = Failed | Scanned(value: int, rest: Bytes)

  /** "%d" into a 64-bit integer: blanks, an optional sign, then at least one digit, in range. */
  function ScanInt(s: Bytes): Scanned {
    var t := SkipBlanks(s);
    var signed := t != [] && (t[0] == 43 || t[0] == 45);
    var d := if signed then t[1..] else t;
    var n := DigitRun(d);
    var v := if signed && t[0] == 45 then -(NatOf(d[..n]) as int) else NatOf(d[..n]);
    if n == 0 || !InRange(v) then Failed
    else Scanned(v, d[n..])
  }

  /** Matching the literal between two fields; a blank in the format takes one or more blanks. */
  function MatchSep(s: Bytes, sep: byte): Scanned {
    if s == [] then Failed
    else if sep == BLANK then (if IsBlank(s[0]) then Scanned(0, SkipBlanks(s)) else Failed)
    else if s[0] == sep then Scanned(0, s[1..])
    else Failed
  }

  /** Sscanf(s, "%d<sep>%d<sep>..."): one value per field. */
  function ScanFields(s: Bytes, seps: Bytes): (vs: seq<int>)
    ensures |vs| == |seps| + 1
    decreases |seps|
  {
    match ScanInt(s)
    case Failed => seq(|seps| + 1, _ => 0)
    case Scanned(v, rest) =>
      if seps == [] then [v]
      else
        match MatchSep(rest, seps[0])
        case Failed => [v] + seq(|seps|, _ => 0)
        case Scanned(_, rest') => [v] + ScanFields(rest', seps[1..])
  }

  /** Fields printed in a fixed width with the separators between them. */
  function PrintFields(vs: seq<nat>, widths: seq<nat>, seps: Bytes): Bytes
    requires |vs| == |widths| == |seps| + 1
    decreases |seps|
  {
    if seps == [] then Padded(vs[0], widths[0])
    else Padded(vs[0], widths[0]) + [seps[0]] + PrintFields(vs[1..], widths[1..], seps[1..])
  }

  lemma {:induction false} DigitRunOf(d: Bytes, rest: Bytes)
    requires AllDigits(d) && (rest == [] || !IsDigit(rest[0]))
    ensures DigitRun(d + rest) == |d|
  {
    if d == [] {
      assert d + rest == rest;
    } else {
      assert (d + rest)[1..] == d[1..] + rest;
      DigitRunOf(d[1..], rest);
    }
  }

  /** The numbers a 64-bit scan accepts. */
  predicate InRange(v: int) {
    -0x8000_0000_0000_0000 <= v < 0x8000_0000_0000_0000
  }

  /** Reading back a zero-padded number. */
  lemma ScanPadded(n: nat, k: nat, rest: Bytes)
    requires 0 < k && n < Ten(k) && InRange(n) && (rest == [] || !IsDigit(rest[0]))
    ensures ScanInt(Padded(n, k) + rest) == Scanned(n, rest)
  {
    NatOfPadded(n, k);
    ScanDigits(Padded(n, k), rest);
  }

  lemma ScanDigits(d: Bytes, rest: Bytes)
    requires d != [] && AllDigits(d) && InRange(NatOf(d)) && (rest == [] || !IsDigit(rest[0]))
    ensures ScanInt(d + rest) == Scanned(NatOf(d), rest)
  {
    hide NatOf;
    var s := d + rest;
    assert s[0] == d[0];
    assert SkipBlanks(s) == s;
    DigitRunOf(d, rest);
    assert s[..|d|] == d && s[|d|..] == rest;
  }

  /** The decimal text of an integer. */
  function IntText(v: int): (s: Bytes)
    ensures s != []
  {
    if v < 0 then [DASH] + Shown(-v) else Shown(v)
  }

  /** Scanning inverts printing for every 64-bit integer; a larger one fails. */
  lemma ScanOfIntText(v: int)
    ensures ScanInt(IntText(v)) == if InRange(v) then Scanned(v, []) else Failed
  {
    hide NatOf, Shown;
    var d := Shown(if v < 0 then -v else v);
    NatOfShown(if v < 0 then -v else v);
    var s := IntText(v);
    assert SkipBlanks(s) == s;
    assert d + [] == d;
    DigitRunOf(d, []);
    assert d[..|d|] == d && d[|d|..] == [];
    if v < 0 {
      assert s[1..] == d;
    }
  }

  predicate PrintedAs(vs: seq<nat>, widths: seq<nat>) {
    |vs| == |widths| && forall i :: 0 <= i < |vs| ==> 0 < widths[i] && vs[i] < Ten(widths[i]) && InRange(vs[i])
  }

  predicate IsSep(c: byte) {
    c == DASH || c == COLON || c == BLANK
  }

  /** Scanning inverts printing, whatever other text follows the last field. */
  lemma {:induction false} ScanOfPrint(vs: seq<nat>, widths: seq<nat>, seps: Bytes, rest: Bytes)
    requires PrintedAs(vs, widths) && |vs| == |seps| + 1 && (rest == [] || !IsDigit(rest[0]))
    requires forall i :: 0 <= i < |seps| ==> IsSep(seps[i])
    ensures ScanFields(PrintFields(vs, widths, seps) + rest, seps) == vs
    decreases |seps|
  {
    hide Padded, ScanInt;
    if seps == [] {
      ScanPadded(vs[0], widths[0], rest);
    } else {
      var tail := PrintFields(vs[1..], widths[1..], seps[1..]);
      var more := [seps[0]] + (tail + rest);
      assert IsSep(seps[0]);
      assert PrintFields(vs, widths, seps) + rest == Padded(vs[0], widths[0]) + more;
      ScanPadded(vs[0], widths[0], more);
      FirstIsDigit(vs[1..], widths[1..], seps[1..]);
      assert more[1..] == tail + rest;
      assert SkipBlanks(tail + rest) == tail + rest;
      assert MatchSep(more, seps[0]) == Scanned(0, tail + rest);
      ScanOfPrint(vs[1..], widths[1..], seps[1..], rest);
    }
  }

  lemma FirstIsDigit(vs: seq<nat>, widths: seq<nat>, seps: Bytes)
    requires PrintedAs(vs, widths) && |vs| == |seps| + 1
    ensures var p := PrintFields(vs, widths, seps); p != [] && IsDigit(p[0])
  {
    assert PrintFields(vs, widths, seps)[0] == Padded(vs[0], widths[0])[0];
  }

  /** Text that does not start with a blank, a sign or a digit leaves every field zero. */
  lemma ScanOfOther(s: Bytes, seps: Bytes)
    requires s == [] || !(IsBlank(s[0]) || IsDigit(s[0]) || s[0] == 43 || s[0] == 45)
    ensures ScanFields(s, seps) == seq(|seps| + 1, _ => 0)
  {
  }
}
