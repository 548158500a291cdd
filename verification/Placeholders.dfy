/**
  Placeholder numbering: the generator's convertPlaceholders (pkg/sqlrewrite/pg_generator.go), the fallback
  rewriter's own version and the parameter recount of RewritePrepared (pkg/sqlrewrite/rewriter.go).
 */
module Placeholders {

  // ------------------------------------------------------------------- decimal numbers

  predicate IsDigit(c: char) {
    '0' <= c <= '9'
  }

  predicate AllDigits(s: string) {
    forall i :: 0 <= i < |s| ==> IsDigit(s[i])
  }

  /** fmt's %d. */
  function Dec(n: nat): (s: string)
    ensures s != "" && AllDigits(s)
  {
    if n < 10 then [n as char + '0'] else Dec(n / 10) + [(n % 10) as char + '0']
  }

  function DigitValue(c: char): nat
    requires IsDigit(c)
  {
    (c - '0') as nat
  }

  /** Reading on: the number `n` followed by the digits of `s`. */
  function ReadOn(n: nat, s: string): nat
    requires AllDigits(s)
    decreases |s|
  {
    if s == "" then n else ReadOn(10 * n + DigitValue(s[0]), s[1..])
  }

  lemma {:induction false} ReadOnConcat(n: nat, a: string, b: string)
    requires AllDigits(a) && AllDigits(b)
    ensures AllDigits(a + b) && ReadOn(n, a + b) == ReadOn(ReadOn(n, a), b)
    decreases |a|
  {
    if a == "" {
      assert a + b == b;
    } else {
      assert (a + b)[1..] == a[1..] + b;
      ReadOnConcat(10 * n + DigitValue(a[0]), a[1..], b);
    }
  }

  /** Parsing inverts printing. */
  lemma {:induction false} ReadDec(n: nat)
    ensures ReadOn(0, Dec(n)) == n
  {
    if n < 10 {
      assert Dec(n)[1..] == "";
    } else {
      ReadDec(n / 10);
      var last := [(n % 10) as char + '0'];
      ReadOnConcat(0, Dec(n / 10), last);
      assert last[1..] == "";
    }
  }

  lemma {:induction false} ReadOnGrows(n: nat, s: string)
    requires AllDigits(s)
    ensures ReadOn(n, s) >= n && (n > 0 && s != "" ==> ReadOn(n, s) > n)
    decreases |s|
  {
    if s != "" {
      ReadOnGrows(10 * n + DigitValue(s[0]), s[1..]);
    }
  }

  /** The digits at the front of a text. */
  function DigitPrefix(s: string): (d: string)
    ensures AllDigits(d) && d <= s
  {
    if s != "" && IsDigit(s[0]) then [s[0]] + DigitPrefix(s[1..]) else ""
  }

  lemma {:induction false} DigitPrefixConcat(a: string, b: string)
    requires AllDigits(a)
    ensures DigitPrefix(a + b) == a + DigitPrefix(b)
  {
    if a == "" {
      assert a + b == b;
    } else {
      assert (a + b)[1..] == a[1..] + b;
      DigitPrefixConcat(a[1..], b);
    }
  }

  // -------------------------------------------------------------------- the generator

  datatype Quote = Outside | Inside(q: char)

  /** The scanner's flags before a character. */
  datatype Mode = Mode(quote: Quote, escaped: bool)

  const START: Mode := Mode(Outside, false)

  predicate IsQuote(c: char) {
    c == '\'' || c == '\"'
  }

  function NextMode(m: Mode, c: char): Mode {
    if m.escaped then m.(escaped := false)
    else if c == '\\' then m.(escaped := true)
    else if IsQuote(c) then
      match m.quote
      case Outside => m.(quote := Inside(c))
      case Inside(q) => if c == q then m.(quote := Outside) else m
    else m
  }

  predicate IsPlaceholder(m: Mode, c: char) {
    !m.escaped && m.quote == Outside && c == '?'
  }

  /** The rewritten rest of a statement, `n` placeholders having been numbered before it. */
  function Numbered(s: string, m: Mode, n: nat): string
    decreases |s|
  {
    if s == "" then ""
    else if IsPlaceholder(m, s[0]) then "$" + Dec(n + 1) + Numbered(s[1..], NextMode(m, s[0]), n + 1)
    else [s[0]] + Numbered(s[1..], NextMode(m, s[0]), n)
  }

  function Count(s: string, m: Mode): nat
    decreases |s|
  {
    if s == "" then 0
    else (if IsPlaceholder(m, s[0]) then 1 else 0) + Count(s[1..], NextMode(m, s[0]))
  }

  /** What one character adds to the output and to the count. */
  function StepText(m: Mode, c: char, n: nat): string {
    if IsPlaceholder(m, c) then "$" + Dec(n + 1) else [c]
  }

  function StepCount(m: Mode, c: char): nat {
    if IsPlaceholder(m, c) then 1 else 0
  }

  lemma NumberedStep(sql: string, i: nat, m: Mode, n: nat)
    requires i < |sql|
    ensures Numbered(sql[i..], m, n)
         == StepText(m, sql[i], n) + Numbered(sql[i + 1..], NextMode(m, sql[i]), n + StepCount(m, sql[i]))
    ensures Count(sql[i..], m) == StepCount(m, sql[i]) + Count(sql[i + 1..], NextMode(m, sql[i]))
  {
    assert sql[i..][0] == sql[i] && sql[i..][1..] == sql[i + 1..];
  }

  method ConvertPlaceholders(sql: string) returns (result: string, paramCount: nat)
    ensures result == Numbered(sql, START, 0) && paramCount == Count(sql, START)
  {
    hide Numbered, Count, Dec;
    result, paramCount := "", 0;
    var inString, stringChar, escaped := false, '\0', false;
    ghost var m := START;
    assert sql[0..] == sql;
    for i := 0 to |sql|
      invariant m == Mode(if inString then Inside(stringChar) else Outside, escaped)
      invariant result + Numbered(sql[i..], m, paramCount) == Numbered(sql, START, 0)
      invariant paramCount + Count(sql[i..], m) == Count(sql, START)
    {
      var ch := sql[i];
      NumberedStep(sql, i, m, paramCount);
      ghost var done, text, next := result, StepText(m, ch, paramCount), NextMode(m, ch);
      if escaped {
        result := result + [ch];
        escaped := false;
      } else if ch == '\\' {
        result := result + [ch];
        escaped := true;
      } else if ch == '\'' || ch == '\"' {
        if !inString {
          inString, stringChar := true, ch;
        } else if ch == stringChar {
          inString, stringChar := false, '\0';
        }
        result := result + [ch];
      } else if !inString && ch == '?' {
        paramCount := paramCount + 1;
        result := result + ("$" + Dec(paramCount));
      } else {
        result := result + [ch];
      }
      assert result == done + text;
      m := next;
    }
    NumberedEmpty(sql[|sql|..], m, paramCount);
  }

  lemma NumberedEmpty(s: string, m: Mode, n: nat)
    requires s == ""
    ensures Numbered(s, m, n) == "" && Count(s, m) == 0
  {
  }

  // ---------------------------------------------------------- what the numbering means

  /** The flags before position `i`, from the text before it alone. */
  function ModeAt(s: string, i: nat): Mode
    requires i <= |s|
  {
    if i == 0 then START else NextMode(ModeAt(s, i - 1), s[i - 1])
  }

  /** How many placeholders stand before position `i`. */
  function Rank(s: string, i: nat): nat
    requires i <= |s|
  {
    if i == 0 then 0 else Rank(s, i - 1) + (if IsPlaceholder(ModeAt(s, i - 1), s[i - 1]) then 1 else 0)
  }

  /** The image of character `i`: the placeholder of rank r becomes $(r+1), anything else stays. */
  function Piece(s: string, i: nat): string
    requires i < |s|
  {
    if IsPlaceholder(ModeAt(s, i), s[i]) then "$" + Dec(Rank(s, i) + 1) else [s[i]]
  }

  function PiecesFrom(s: string, i: nat): string
    requires i <= |s|
    decreases |s| - i
  {
    if i == |s| then "" else Piece(s, i) + PiecesFrom(s, i + 1)
  }

  /** Character by character: the i-th unquoted, unescaped question mark becomes $i, everything else is unchanged, and
      the count is exact. */
  lemma {:induction false} NumberingByPosition(s: string, i: nat)
    requires i <= |s|
    ensures Numbered(s[i..], ModeAt(s, i), Rank(s, i)) == PiecesFrom(s, i)
    ensures Rank(s, i) + Count(s[i..], ModeAt(s, i)) == Rank(s, |s|)
    decreases |s| - i
  {
    if i < |s| {
      NumberingByPosition(s, i + 1);
      assert s[i..][1..] == s[i + 1..] && s[i..][0] == s[i];
    }
  }

  function Occurrences(s: string, c: char): nat {
    if s == "" then 0 else Occurrences(s[..|s| - 1], c) + (if s[|s| - 1] == c then 1 else 0)
  }

  /** In text with one kind of quote and no backslash, a question mark is a placeholder exactly behind an even number of
      quotes; this holds for single quotes and for double quotes. */
  lemma {:induction false} PlaceholderByParity(s: string, q: char, i: nat)
    requires i <= |s| && '\\' !in s
    requires (q == '\'' && '\"' !in s) || (q == '\"' && '\'' !in s)
    ensures ModeAt(s, i) == Mode(if Occurrences(s[..i], q) % 2 == 0 then Outside else Inside(q), false)
    ensures i < |s| ==> (IsPlaceholder(ModeAt(s, i), s[i]) <==> s[i] == '?' && Occurrences(s[..i], q) % 2 == 0)
  {
    if i > 0 {
      PlaceholderByParity(s, q, i - 1);
      assert s[..i][..i - 1] == s[..i - 1] && s[..i][i - 1] == s[i - 1];
    }
  }

  function TrailingBackslashes(s: string): nat {
    if s != "" && s[|s| - 1] == '\\' then 1 + TrailingBackslashes(s[..|s| - 1]) else 0
  }

  /** A character is escaped exactly behind an odd number of backslashes in a row, inside and outside strings. */
  lemma {:induction false} EscapedByParity(s: string, i: nat)
    requires i <= |s|
    ensures ModeAt(s, i).escaped <==> TrailingBackslashes(s[..i]) % 2 == 1
  {
    if i > 0 {
      EscapedByParity(s, i - 1);
      assert s[..i][..i - 1] == s[..i - 1] && s[..i][i - 1] == s[i - 1];
    }
  }

  /** Inside a string the other kind of quote is an ordinary character. */
  lemma OtherQuoteInert(s: string, i: nat, q: char)
    requires i < |s| && ModeAt(s, i) == Mode(Inside(q), false) && s[i] != q && s[i] != '\\'
    ensures ModeAt(s, i + 1) == ModeAt(s, i)
  {
  }

  /** Undoing the numbering needs no quote state: in the output of a '$'-free text the k-th '$' starts $k. */
  function Undo(t: string, n: nat): string
    decreases |t|
  {
    if t == "" then ""
    else if t[0] == '$' && 1 + |Dec(n + 1)| <= |t| then "?" + Undo(t[1 + |Dec(n + 1)|..], n + 1)
    else [t[0]] + Undo(t[1..], n)
  }

  lemma {:induction false} UndoNumbered(s: string, m: Mode, n: nat)
    requires '$' !in s
    ensures Undo(Numbered(s, m, n), n) == s
    decreases |s|
  {
    if s != "" {
      var m' := NextMode(m, s[0]);
      assert '$' !in s[1..];
      if IsPlaceholder(m, s[0]) {
        UndoNumbered(s[1..], m', n + 1);
        var t, tail := Numbered(s, m, n), Numbered(s[1..], m', n + 1);
        assert t == "$" + Dec(n + 1) + tail;
        assert t[1 + |Dec(n + 1)|..] == tail;
      } else {
        UndoNumbered(s[1..], m', n);
        assert Numbered(s, m, n)[1..] == Numbered(s[1..], m', n);
      }
      assert s == [s[0]] + s[1..];
    }
  }

  // ------------------------------------------------------------------- the fallback

  /** The fallback's scan: a doubled quote inside a string is taken in one step. */
  function FallbackNumbered(s: string, quote: Quote, n: nat): string
    decreases |s|
  {
    if s == "" then ""
    else if quote == Outside && IsQuote(s[0]) then [s[0]] + FallbackNumbered(s[1..], Inside(s[0]), n)
    else if quote == Inside(s[0]) then
      if |s| > 1 && s[1] == s[0] then [s[0], s[0]] + FallbackNumbered(s[2..], quote, n)
      else [s[0]] + FallbackNumbered(s[1..], Outside, n)
    else if quote == Outside && s[0] == '?' then "$" + Dec(n + 1) + FallbackNumbered(s[1..], quote, n + 1)
    else [s[0]] + FallbackNumbered(s[1..], quote, n)
  }

  lemma {:induction false} NoQuestionMark(s: string, quote: Quote, n: nat)
    requires '?' !in s
    ensures FallbackNumbered(s, quote, n) == s
    decreases |s|
  {
    if s != "" {
      assert s == [s[0]] + s[1..] && '?' !in s[1..];
      if quote == Outside && IsQuote(s[0]) {
        NoQuestionMark(s[1..], Inside(s[0]), n);
      } else if quote == Inside(s[0]) && |s| > 1 && s[1] == s[0] {
        assert s == [s[0], s[0]] + s[2..] && '?' !in s[2..];
        NoQuestionMark(s[2..], quote, n);
      } else if quote == Inside(s[0]) {
        NoQuestionMark(s[1..], Outside, n);
      } else {
        NoQuestionMark(s[1..], quote, n);
      }
    }
  }

  /** One step of the fallback's loop: the text written, the quote state and count after it, and the characters read. */
  datatype FallbackStep = FallbackStep(text: string, quote: Quote, n: nat, width: nat)

  function StepFallback(sql: string, i: nat, quote: Quote, n: nat): (r: FallbackStep)
    requires i < |sql|
    ensures 1 <= r.width <= |sql| - i
  {
    var c := sql[i];
    if quote == Outside && IsQuote(c) then FallbackStep([c], Inside(c), n, 1)
    else if quote == Inside(c) then
      if i + 1 < |sql| && sql[i + 1] == c then FallbackStep([c, c], quote, n, 2)
      else FallbackStep([c], Outside, n, 1)
    else if quote == Outside && c == '?' then FallbackStep("$" + Dec(n + 1), quote, n + 1, 1)
    else FallbackStep([c], quote, n, 1)
  }

  /** The output so far, and the rest still to come, make up the whole. */
  predicate RewrittenTo(sql: string, result: string, i: nat, quote: Quote, n: nat)
    requires i <= |sql|
  {
    result + FallbackNumbered(sql[i..], quote, n) == FallbackNumbered(sql, Outside, 0)
  }

  lemma FallbackAdvance(sql: string, result: string, i: nat, quote: Quote, n: nat)
    requires i < |sql| && RewrittenTo(sql, result, i, quote, n)
    ensures var r := StepFallback(sql, i, quote, n); RewrittenTo(sql, result + r.text, i + r.width, r.quote, r.n)
  {
    hide Dec;
    var s, r := sql[i..], StepFallback(sql, i, quote, n);
    var rest := FallbackNumbered(s[r.width..], r.quote, r.n);
    assert s[r.width..] == sql[i + r.width..] && s[0] == sql[i] && (|s| > 1 ==> s[1] == sql[i + 1]);
    assert FallbackNumbered(s, quote, n) == r.text + rest;
    assert result + (r.text + rest) == result + r.text + rest;
  }

  lemma FallbackStart(sql: string)
    ensures RewrittenTo(sql, "", 0, Outside, 0)
  {
    assert sql[0..] == sql;
  }

  lemma FallbackEnd(sql: string, result: string, quote: Quote, n: nat)
    requires RewrittenTo(sql, result, |sql|, quote, n)
    ensures result == FallbackNumbered(sql, Outside, 0)
  {
    FallbackEmpty(sql[|sql|..], quote, n);
  }

  method FallbackConvert(sql: string) returns (result: string)
    ensures result == FallbackNumbered(sql, Outside, 0)
  {
    if '?' !in sql {
      NoQuestionMark(sql, Outside, 0);
      return sql;
    }
    hide FallbackNumbered, Dec, RewrittenTo;
    result := "";
    var paramNum, inString, stringChar := 0, false, '\0';
    var i := 0;
    FallbackStart(sql);
    while i < |sql|
      invariant 0 <= i <= |sql|
      invariant RewrittenTo(sql, result, i, if inString then Inside(stringChar) else Outside, paramNum)
    {
      var c := sql[i];
      FallbackAdvance(sql, result, i, if inString then Inside(stringChar) else Outside, paramNum);
      if !inString && (c == '\'' || c == '\"') {
        inString, stringChar := true, c;
        result := result + [c];
      } else if inString && c == stringChar {
        if i + 1 < |sql| && sql[i + 1] == stringChar {
          assert result + [c, c] == result + [c] + [c];
          result := result + [c] + [c];
          i := i + 1;
        } else {
          inString := false;
          result := result + [c];
        }
      } else if !inString && c == '?' {
        paramNum := paramNum + 1;
        result := result + ("$" + Dec(paramNum));
      } else {
        result := result + [c];
      }
      i := i + 1;
    }
    FallbackEnd(sql, result, if inString then Inside(stringChar) else Outside, paramNum);
  }

  lemma FallbackEmpty(s: string, quote: Quote, n: nat)
    requires s == ""
    ensures FallbackNumbered(s, quote, n) == ""
  {
  }

  /** Without backslashes the two implementations agree, doubled quotes included. */
  lemma {:induction false} FallbackAgrees(s: string, quote: Quote, n: nat)
    requires '\\' !in s && (quote.Inside? ==> IsQuote(quote.q))
    ensures FallbackNumbered(s, quote, n) == Numbered(s, Mode(quote, false), n)
    decreases |s|
  {
    if s != "" {
      var c, m := s[0], Mode(quote, false);
      assert c != '\\' && '\\' !in s[1..];
      var m' := NextMode(m, c);
      if quote == Inside(c) && |s| > 1 && s[1] == c {
        assert '\\' !in s[2..] && s[1..][1..] == s[2..];
        FallbackAgrees(s[2..], quote, n);
        assert Numbered(s, m, n) == [c] + Numbered(s[1..], Mode(Outside, false), n);
        assert Numbered(s[1..], Mode(Outside, false), n) == [c] + Numbered(s[2..], m, n);
      } else {
        FallbackAgrees(s[1..], m'.quote, if IsPlaceholder(m, c) then n + 1 else n);
      }
    }
  }

  /** With a backslash they can differ: the generator treats the next character as escaped, the fallback does not. */
  lemma FallbackDiffersOnBackslash()
    ensures FallbackNumbered("\\?", Outside, 0) != Numbered("\\?", START, 0)
  {
    var s := "\\?";
    assert s[1..] == "?" && "?"[1..] == "";
    assert Numbered("?", Mode(Outside, true), 0) == "?" + "";
    assert FallbackNumbered("?", Outside, 0) == "$" + Dec(1) + "";
  }

  // --------------------------------------------------------------------- the recount

  function Max(a: nat, b: nat): nat {
    if a < b then b else a
  }

  /** The number after a '$' at the front of `t`, or 0. */
  function ReadParam(t: string): nat {
    if t != "" && t[0] == '$' then ReadOn(0, DigitPrefix(t[1..])) else 0
  }

  /** The highest $n in a text. */
  function Recount(t: string): nat {
    if t == "" then 0 else Max(ReadParam(t), Recount(t[1..]))
  }

  /** The counting loops of RewritePrepared. */
  method CountParams(t: string) returns (paramCount: nat)
    ensures paramCount == Recount(t)
  {
    paramCount := 0;
    for i := 0 to |t|
      invariant Max(paramCount, Recount(t[i..])) == Recount(t)
    {
      assert t[i..][0] == t[i] && t[i..][1..] == t[i + 1..];
      if t[i] == '$' && i + 1 < |t| && IsDigit(t[i + 1]) {
        var num := ParseRun(t, i + 1);
        if num > paramCount {
          paramCount := num;
        }
      } else if t[i] == '$' {
        assert DigitPrefix(t[i + 1..]) == "";
      }
    }
    assert t[|t|..] == "";
  }

  method ParseRun(t: string, start: nat) returns (num: nat)
    requires start <= |t|
    ensures num == ReadOn(0, DigitPrefix(t[start..]))
  {
    num := 0;
    var j := start;
    while j < |t| && IsDigit(t[j])
      invariant start <= j <= |t|
      invariant ReadOn(num, DigitPrefix(t[j..])) == ReadOn(0, DigitPrefix(t[start..]))
    {
      assert t[j..][0] == t[j] && t[j..][1..] == t[j + 1..];
      assert DigitPrefix(t[j..]) == [t[j]] + DigitPrefix(t[j + 1..]);
      num := num * 10 + DigitValue(t[j]);
      j := j + 1;
    }
    assert DigitPrefix(t[j..]) == "";
  }

  /** What the recount reads for placeholder number `n` when `rest` follows it in the original text. */
  function ReadFor(n: nat, rest: string): nat {
    ReadOn(n, DigitPrefix(rest))
  }

  /** The largest number read for any placeholder and at any dollar sign of the original text. */
  function MaxRead(s: string, m: Mode, n: nat): nat
    decreases |s|
  {
    if s == "" then 0
    else if IsPlaceholder(m, s[0]) then Max(ReadFor(n + 1, s[1..]), MaxRead(s[1..], NextMode(m, s[0]), n + 1))
    else Max(ReadLiteral(s), MaxRead(s[1..], NextMode(m, s[0]), n))
  }

  /** What the recount reads at a dollar sign of the original text. */
  function ReadLiteral(s: string): nat
    requires s != ""
  {
    if s[0] == '$' then ReadFor(0, s[1..]) else 0
  }

  /** Rewriting does not change which digits come first. */
  lemma {:induction false} SameDigitPrefix(s: string, m: Mode, n: nat)
    ensures DigitPrefix(Numbered(s, m, n)) == DigitPrefix(s)
    decreases |s|
  {
    if s != "" {
      if IsPlaceholder(m, s[0]) {
        assert Numbered(s, m, n)[0] == '$';
      } else {
        SameDigitPrefix(s[1..], NextMode(m, s[0]), n);
        assert Numbered(s, m, n)[1..] == Numbered(s[1..], NextMode(m, s[0]), n);
      }
    }
  }

  /** Text without a '$' contributes nothing to the recount. */
  lemma {:induction false} RecountSkip(a: string, b: string)
    requires '$' !in a
    ensures Recount(a + b) == Recount(b)
  {
    if a == "" {
      assert a + b == b;
    } else {
      assert (a + b)[1..] == a[1..] + b && '$' !in a[1..] && (a + b)[0] == a[0];
      RecountSkip(a[1..], b);
    }
  }

  lemma RecountChar(c: char, rest: string)
    ensures Recount([c] + rest) == Max(if c == '$' then ReadOn(0, DigitPrefix(rest)) else 0, Recount(rest))
  {
    assert ([c] + rest)[1..] == rest;
  }

  lemma {:induction false} RecountOfNumbered(s: string, m: Mode, n: nat)
    ensures Recount(Numbered(s, m, n)) == MaxRead(s, m, n)
    decreases |s|
  {
    hide Recount, Dec, DigitPrefix;
    if s == "" {
      RecountEmpty(Numbered(s, m, n));
    } else {
      var m' := NextMode(m, s[0]);
      if IsPlaceholder(m, s[0]) {
        var tail := Numbered(s[1..], m', n + 1);
        RecountOfNumbered(s[1..], m', n + 1);
        SameDigitPrefix(s[1..], m', n + 1);
        RecountParam(n + 1, tail);
      } else {
        RecountOfNumbered(s[1..], m', n);
        SameDigitPrefix(s[1..], m', n);
        RecountChar(s[0], Numbered(s[1..], m', n));
      }
    }
  }

  lemma RecountEmpty(t: string)
    requires t == ""
    ensures Recount(t) == 0
  {
  }

  /** A number and what follows it: the recount reads the digits of both. */
  lemma RecountParam(n: nat, tail: string)
    ensures Recount("$" + Dec(n) + tail) == Max(ReadOn(n, DigitPrefix(tail)), Recount(tail))
  {
    hide Dec;
    var d := Dec(n);
    var t := "$" + d + tail;
    assert t[0] == '$' && t[1..] == d + tail;
    assert '$' !in d by { assert forall i :: 0 <= i < |d| ==> IsDigit(d[i]); }
    RecountSkip(d, tail);
    DigitPrefixConcat(d, tail);
    ReadOnConcat(0, d, DigitPrefix(tail));
    ReadDec(n);
  }

  /** No placeholder is followed by digits that make its number read larger than the limit, and no dollar sign of the
      original text is followed by a larger number. */
  predicate ReadsWithin(s: string, m: Mode, n: nat, limit: nat)
    decreases |s|
  {
    s == "" || ((if IsPlaceholder(m, s[0]) then ReadFor(n + 1, s[1..]) else ReadLiteral(s)) <= limit
                && ReadsWithin(s[1..], NextMode(m, s[0]), if IsPlaceholder(m, s[0]) then n + 1 else n, limit))
  }

  lemma {:induction false} MaxReadBounds(s: string, m: Mode, n: nat, limit: nat)
    ensures MaxRead(s, m, n) <= limit <==> ReadsWithin(s, m, n, limit)
    ensures Count(s, m) > 0 ==> MaxRead(s, m, n) >= n + Count(s, m)
    decreases |s|
  {
    if s != "" {
      MaxReadBounds(s[1..], NextMode(m, s[0]), if IsPlaceholder(m, s[0]) then n + 1 else n, limit);
      ReadOnGrows(n + 1, DigitPrefix(s[1..]));
    }
  }

  /** For every text the recount equals the number of placeholders converted, exactly when no placeholder runs into digits
      that read beyond that number and no dollar sign of the text carries a larger number. */
  lemma RecountIsCount(sql: string)
    ensures Recount(Numbered(sql, START, 0)) == Count(sql, START)
       <==> ReadsWithin(sql, START, 0, Count(sql, START))
  {
    RecountOfNumbered(sql, START, 0);
    MaxReadBounds(sql, START, 0, Count(sql, START));
  }

  /** No converted question mark is directly followed by a digit. */
  predicate NoDigitAfter(s: string, m: Mode)
    decreases |s|
  {
    s == "" || ((IsPlaceholder(m, s[0]) && |s| > 1 ==> !IsDigit(s[1])) && NoDigitAfter(s[1..], NextMode(m, s[0])))
  }

  lemma {:induction false} NoDigitReadsWithin(s: string, m: Mode, n: nat)
    requires NoDigitAfter(s, m) && '$' !in s
    ensures ReadsWithin(s, m, n, n + Count(s, m))
    decreases |s|
  {
    if s != "" {
      NoDigitReadsWithin(s[1..], NextMode(m, s[0]), if IsPlaceholder(m, s[0]) then n + 1 else n);
      if IsPlaceholder(m, s[0]) {
        assert DigitPrefix(s[1..]) == "";
      }
    }
  }

  lemma RecountWithoutDigits(sql: string)
    requires '$' !in sql && NoDigitAfter(sql, START)
    ensures Recount(Numbered(sql, START, 0)) == Count(sql, START)
  {
    NoDigitReadsWithin(sql, START, 0);
    RecountIsCount(sql);
  }

  /** "?5" has one placeholder and is recounted as fifteen. */
  lemma RecountCanBeWrong()
    ensures Count("?5", START) == 1 && Recount(Numbered("?5", START, 0)) == 15
  {
    var s := "?5";
    assert s[1..] == "5" && "5"[1..] == "";
    RecountOfNumbered(s, START, 0);
    assert DigitPrefix("5") == "5" + "";
    assert ReadOn(1, "5") == ReadOn(15, "");
    assert MaxRead("5", START, 1) == MaxRead("", START, 1);
  }

  /** A literal '$9' is recounted as nine parameters although there is none. */
  lemma RecountReadsLiterals()
    ensures Count("$9", START) == 0 && Recount(Numbered("$9", START, 0)) == 9
  {
    var s := "$9";
    assert s[1..] == "9" && "9"[1..] == "";
    RecountOfNumbered(s, START, 0);
    assert DigitPrefix("9") == "9" + "";
    assert ReadOn(0, "9") == ReadOn(9, "");
    assert MaxRead("9", START, 0) == Max(0, MaxRead("", START, 0));
  }
}
