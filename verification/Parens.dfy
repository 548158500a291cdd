/**
  Parenthesis removal in FROM clauses (pkg/sqlrewrite/pg_generator.go): findMatchingParen, removeTableParentheses and
  removeLeadingTableGroupParens.
 */
module Parens {
  import opened Words

  // ------------------------------------------------------------------- blanks and prefixes

  predicate IsSpace(c: char) {
    c == ' ' || c == '\t' || c == '\n' || c == '\r' || c == '\U{0B}' || c == '\U{0C}'
  }

  /** The blanks of ASCII: tab, line feed, vertical tab, form feed, carriage return and space. */
  lemma SpaceCodes(c: char)
    ensures IsSpace(c) <==> 9 <= c as int <= 13 || c as int == 32
  {
  }

  function TrimLeft(s: string): (r: string)
    ensures |r| <= |s| && (r != "" ==> !IsSpace(r[0]))
  {
    if s != "" && IsSpace(s[0]) then TrimLeft(s[1..]) else s
  }

  function TrimRight(s: string): (r: string)
    ensures |r| <= |s| && r == s[..|r|]
    ensures forall i :: |r| <= i < |s| ==> IsSpace(s[i])
    ensures r != "" ==> !IsSpace(r[|r| - 1])
  {
    if s != "" && IsSpace(s[|s| - 1]) then TrimRight(s[..|s| - 1]) else s
  }

  /** strings.TrimSpace: what is left has no blank at either end. */
  function TrimSpace(s: string): (r: string)
    ensures r != "" ==> !IsSpace(r[0]) && !IsSpace(r[|r| - 1])
  {
    TrimRight(TrimLeft(s))
  }

  predicate AllSpace(s: string) {
    forall i :: 0 <= i < |s| ==> IsSpace(s[i])
  }

  lemma {:induction false} TrimLeftSplit(s: string) returns (a: string)
    ensures AllSpace(a) && s == a + TrimLeft(s)
  {
    if s != "" && IsSpace(s[0]) {
      var b := TrimLeftSplit(s[1..]);
      a := [s[0]] + b;
    } else {
      a := "";
    }
  }

  lemma TrimSplit(s: string) returns (a: string, b: string)
    ensures AllSpace(a) && AllSpace(b) && s == a + TrimSpace(s) + b
  {
    a := TrimLeftSplit(s);
    var t := TrimLeft(s);
    var r := TrimRight(t);
    b := t[|r|..];
    assert t == r + b;
  }

  const SELECT := "SELECT"

  /** startsWithSelect */
  predicate StartsWithSelect(content: string) {
    StartsWith(Upper(TrimSpace(content)), SELECT)
  }

  /** strings.HasPrefix(strings.TrimSpace(content), "\"") */
  predicate Quoted(content: string) {
    StartsWith(TrimSpace(content), "\"")
  }

  // ------------------------------------------------------------------------------ matching

  predicate IsParen(c: char) {
    c == '(' || c == ')'
  }

  function Weight(c: char): int {
    if c == '(' then 1 else if c == ')' then -1 else 0
  }

  /** Opened minus closed parentheses. */
  function Depth(s: string): int {
    if s == "" then 0 else Weight(s[0]) + Depth(s[1..])
  }

  lemma {:induction false} DepthConcat(a: string, b: string)
    ensures Depth(a + b) == Depth(a) + Depth(b)
  {
    if a == "" {
      assert a + b == b;
    } else {
      assert (a + b)[1..] == a[1..] + b;
      DepthConcat(a[1..], b);
    }
  }

  lemma DepthExtend(s: string, i: nat, j: nat)
    requires i <= j < |s|
    ensures Depth(s[i..j + 1]) == Depth(s[i..j]) + Weight(s[j])
  {
    assert s[i..j + 1] == s[i..j] + [s[j]];
    DepthConcat(s[i..j], [s[j]]);
  }

  /** The depth behind position `j`, counted from `start`. */
  function DepthAt(s: string, start: nat, j: int): int
    requires start <= j < |s|
  {
    Depth(s[start..j + 1])
  }

  /** The depth at `c` is back to zero for the first time since `start`. */
  predicate Matches(s: string, start: nat, c: int) {
    && start < c < |s| && s[start] == '(' && DepthAt(s, start, c) == 0
    && forall j :: start <= j < c ==> DepthAt(s, start, j) > 0
  }

  /** findMatchingParen */
  method FindMatchingParen(sql: string, startPos: nat) returns (r: int)
    ensures r != -1 ==> Matches(sql, startPos, r)
    ensures r == -1 ==> startPos >= |sql| || sql[startPos] != '('
                        || forall j :: startPos <= j < |sql| ==> DepthAt(sql, startPos, j) != 0
  {
    hide Depth;
    if startPos >= |sql| || sql[startPos] != '(' {
      return -1;
    }
    DepthExtend(sql, startPos, startPos);
    assert Depth(sql[startPos..startPos]) == 0 by { DepthEmpty(sql[startPos..startPos]); }
    var count := 1;
    var i := startPos + 1;
    while i < |sql|
      invariant startPos < i <= |sql|
      invariant count == Depth(sql[startPos..i]) > 0
      invariant forall j :: startPos <= j < i ==> DepthAt(sql, startPos, j) > 0
    {
      DepthExtend(sql, startPos, i);
      if sql[i] == '(' {
        count := count + 1;
      } else if sql[i] == ')' {
        count := count - 1;
        if count == 0 {
          return i;
        }
      }
      i := i + 1;
    }
    return -1;
  }

  lemma DepthEmpty(s: string)
    requires s == ""
    ensures Depth(s) == 0
  {
  }

  // ------------------------------------------------------------------- what must be preserved

  /** Read from depth `d`, the text never closes more than was opened and ends at depth zero. */
  predicate CloseFrom(s: string, d: nat) {
    if s == "" then d == 0
    else if s[0] == '(' then CloseFrom(s[1..], d + 1)
    else if s[0] == ')' then d > 0 && CloseFrom(s[1..], d - 1)
    else CloseFrom(s[1..], d)
  }

  predicate Balanced(s: string) {
    CloseFrom(s, 0)
  }

  /** The text without its parentheses. */
  function Stripped(s: string): string {
    if s == "" then "" else (if IsParen(s[0]) then "" else [s[0]]) + Stripped(s[1..])
  }

  /** For each parenthesis that opens a SELECT, the amount of text behind it: this names its place. */
  function SelectMarks(s: string): seq<nat> {
    if s == "" then []
    else (if s[0] == '(' && StartsWithSelect(s[1..]) then [|Stripped(s[1..])|] else []) + SelectMarks(s[1..])
  }

  ghost predicate SameShape(a: string, b: string) {
    Stripped(a) == Stripped(b) && (Balanced(a) <==> Balanced(b)) && SelectMarks(a) == SelectMarks(b)
  }

  lemma {:induction false} StrippedConcat(a: string, b: string)
    ensures Stripped(a + b) == Stripped(a) + Stripped(b)
  {
    if a == "" {
      assert a + b == b;
    } else {
      assert (a + b)[1..] == a[1..] + b;
      StrippedConcat(a[1..], b);
    }
  }

  // ------------------------------------------------- the text behind an opening parenthesis

  /** Blanks, then SELECT in any case. */
  predicate SelectAt(s: string) {
    if s != "" && IsSpace(s[0]) then SelectAt(s[1..]) else |s| >= 6 && Upper(s[..6]) == SELECT
  }

  /** Blanks, then a double quote. */
  predicate QuoteAt(s: string) {
    s != "" && (s[0] == '"' || (IsSpace(s[0]) && QuoteAt(s[1..])))
  }

  lemma {:induction false} TrimmedPrefix(s: string)
    ensures SelectAt(s) == (var t := TrimLeft(s); |t| >= 6 && Upper(t[..6]) == SELECT)
    ensures QuoteAt(s) == (var t := TrimLeft(s); t != "" && t[0] == '"')
  {
    if s != "" && IsSpace(s[0]) {
      TrimmedPrefix(s[1..]);
    }
  }

  lemma SelectIsPrefix(s: string)
    ensures StartsWithSelect(s) == SelectAt(s)
  {
    hide TrimLeft, TrimRight;
    TrimmedPrefix(s);
    var t := TrimLeft(s);
    var r := TrimRight(t);
    if |t| >= 6 && Upper(t[..6]) == SELECT {
      assert UpperChar(t[..6][5]) == 'T';
      assert |r| >= 6;
      assert r[..6] == t[..6];
    }
    if |r| >= 6 {
      assert r[..6] == t[..6];
      assert Upper(r)[..6] == Upper(r[..6]);
    }
  }

  lemma QuotedIsPrefix(s: string)
    ensures Quoted(s) == QuoteAt(s)
  {
    hide TrimLeft, TrimRight;
    TrimmedPrefix(s);
    var t := TrimLeft(s);
    var r := TrimRight(t);
    if r != "" {
      assert r[0] == t[0] && r[..1] == [r[0]];
    }
  }

  predicate NoLetterFirst(s: string) {
    s != "" && !IsWordChar(s[0])
  }

  lemma NoSelect(s: string, k: nat)
    requires k < |s| && k < 6 && !IsWordChar(s[k])
    ensures |s| >= 6 ==> Upper(s[..6]) != SELECT
  {
    if |s| >= 6 {
      assert Upper(s[..6])[k] == UpperChar(s[k]) && IsWordChar(SELECT[k]);
    }
  }

  /** Where the text behind `x` starts with no letter and with no SELECT, only `x` decides. */
  lemma {:induction false} SelectBefore(x: string, y: string)
    requires NoLetterFirst(y) && !SelectAt(y)
    ensures SelectAt(x + y) == SelectAt(x)
  {
    hide Upper;
    var s := x + y;
    if x == "" {
      assert s == y;
    } else if IsSpace(x[0]) {
      assert s[1..] == x[1..] + y;
      SelectBefore(x[1..], y);
    } else if |x| >= 6 {
      assert s[..6] == x[..6];
    } else {
      NoSelect(s, |x|);
    }
  }

  /** A parenthesis within `x` decides too. */
  lemma {:induction false} SelectWithin(x: string, y: string)
    requires ')' in x
    ensures SelectAt(x + y) == SelectAt(x)
  {
    hide Upper;
    var s := x + y;
    if IsSpace(x[0]) {
      assert s[1..] == x[1..] + y;
      SelectWithin(x[1..], y);
    } else if |x| >= 6 {
      assert s[..6] == x[..6];
    } else {
      var k :| 0 <= k < |x| && x[k] == ')';
      NoSelect(s, k);
    }
  }

  lemma {:induction false} QuoteIsNoSelect(s: string)
    requires QuoteAt(s)
    ensures !SelectAt(s) && NoLetterFirst(s)
  {
    hide Upper;
    if IsSpace(s[0]) {
      QuoteIsNoSelect(s[1..]);
    } else {
      NoSelect(s, 0);
    }
  }

  lemma {:induction false} QuoteConcat(x: string, y: string)
    requires QuoteAt(x)
    ensures QuoteAt(x + y)
  {
    if x[0] != '"' {
      assert (x + y)[1..] == x[1..] + y;
      QuoteConcat(x[1..], y);
    }
  }

  lemma ParenIsNoSelect(s: string)
    requires s != "" && s[0] == '('
    ensures !SelectAt(s) && NoLetterFirst(s)
  {
    hide Upper;
    NoSelect(s, 0);
  }

  // ---------------------------------------------------------------- removing one matched pair

  function WithPair(pre: string, mid: string, post: string): string {
    pre + ("(" + mid + (")" + post))
  }

  function WithoutPair(pre: string, mid: string, post: string): string {
    pre + (mid + post)
  }

  lemma PairStripped(pre: string, mid: string, post: string)
    ensures Stripped(WithPair(pre, mid, post)) == Stripped(WithoutPair(pre, mid, post))
  {
    hide Stripped;
    StrippedConcat(pre, "(" + mid + (")" + post));
    StrippedConcat("(" + mid, ")" + post);
    StrippedConcat("(", mid);
    StrippedConcat(")", post);
    StrippedConcat(pre, mid + post);
    StrippedConcat(mid, post);
    assert Stripped("(") == "" && Stripped(")") == "" by { StrippedParens(); }
  }

  lemma StrippedParens()
    ensures Stripped("(") == "" && Stripped(")") == ""
  {
  }

  /** Text that closes what it opens does not matter at any depth. */
  lemma {:induction false} CloseConcat(m: string, e: nat, post: string, d: nat)
    requires CloseFrom(m, e)
    ensures CloseFrom(m + post, e + d) <==> CloseFrom(post, d)
  {
    if m == "" {
      assert m + post == post;
    } else {
      assert (m + post)[1..] == m[1..] + post;
      CloseConcat(m[1..], if m[0] == '(' then e + 1 else if m[0] == ')' then e - 1 else e, post, d);
    }
  }

  lemma {:induction false} PairClose(pre: string, mid: string, post: string, d: nat)
    requires Balanced(mid)
    ensures CloseFrom(WithPair(pre, mid, post), d) <==> CloseFrom(WithoutPair(pre, mid, post), d)
  {
    var a, b := WithPair(pre, mid, post), WithoutPair(pre, mid, post);
    if pre == "" {
      assert b == mid + post && a[1..] == mid + (")" + post) && a[0] == '(';
      CloseConcat(mid, 0, post, d);
      CloseConcat(mid, 0, ")" + post, d + 1);
      assert (")" + post)[1..] == post;
    } else {
      assert a[1..] == WithPair(pre[1..], mid, post) && b[1..] == WithoutPair(pre[1..], mid, post);
      assert a[0] == pre[0] && b[0] == pre[0];
      if pre[0] == '(' {
        PairClose(pre[1..], mid, post, d + 1);
      } else if pre[0] != ')' {
        PairClose(pre[1..], mid, post, d);
      } else if d > 0 {
        PairClose(pre[1..], mid, post, d - 1);
      }
    }
  }

  lemma {:induction false} ClosesSomewhere(s: string, d: nat)
    requires CloseFrom(s, d) && d > 0
    ensures ')' in s
  {
    if s[0] != ')' {
      ClosesSomewhere(s[1..], if s[0] == '(' then d + 1 else d);
    }
  }

  lemma MarksOf(c: char, s: string)
    ensures SelectMarks([c] + s) == (if c == '(' && SelectAt(s) then [|Stripped(s)|] else []) + SelectMarks(s)
  {
    hide StartsWithSelect, Stripped;
    assert ([c] + s)[1..] == s;
    SelectIsPrefix(s);
  }

  /** The closing parenthesis goes: no mark within the pair notices. */
  lemma {:induction false} MarksInside(m: string, post: string, d: nat)
    requires CloseFrom(m, d)
    ensures SelectMarks(m + (")" + post)) == SelectMarks(m + post)
  {
    hide SelectMarks, Stripped;
    if m == "" {
      assert m + (")" + post) == [')'] + post && m + post == post;
      MarksOf(')', post);
    } else {
      var x := m[1..];
      MarksInside(x, post, if m[0] == '(' then d + 1 else if m[0] == ')' then d - 1 else d);
      assert m + (")" + post) == [m[0]] + (x + (")" + post)) && m + post == [m[0]] + (x + post);
      MarksOf(m[0], x + (")" + post));
      MarksOf(m[0], x + post);
      PairStripped2(x, post);
      if m[0] == '(' {
        ClosesSomewhere(x, d + 1);
        SelectWithin(x, ")" + post);
        SelectWithin(x, post);
      }
    }
  }

  lemma PairStripped2(x: string, post: string)
    ensures Stripped(x + (")" + post)) == Stripped(x + post)
  {
    hide Stripped;
    StrippedConcat(x, ")" + post);
    StrippedConcat(")", post);
    StrippedConcat(x, post);
    StrippedParens();
  }

  lemma {:induction false} PairMarks(pre: string, mid: string, post: string)
    requires Balanced(mid) && QuoteAt(mid)
    ensures SelectMarks(WithPair(pre, mid, post)) == SelectMarks(WithoutPair(pre, mid, post))
  {
    hide SelectMarks, Stripped, SelectAt, QuoteAt;
    if pre == "" {
      QuoteConcat(mid, ")" + post);
      QuoteIsNoSelect(mid + (")" + post));
      assert WithPair(pre, mid, post) == ['('] + (mid + (")" + post)) && WithoutPair(pre, mid, post) == mid + post;
      MarksOf('(', mid + (")" + post));
      MarksInside(mid, post, 0);
    } else {
      var x := pre[1..];
      PairMarks(x, mid, post);
      assert WithPair(pre, mid, post) == [pre[0]] + WithPair(x, mid, post);
      assert WithoutPair(pre, mid, post) == [pre[0]] + WithoutPair(x, mid, post);
      MarksOf(pre[0], WithPair(x, mid, post));
      MarksOf(pre[0], WithoutPair(x, mid, post));
      PairStripped(x, mid, post);
      PairSelect(x, mid, post);
    }
  }

  lemma PairSelect(x: string, mid: string, post: string)
    requires QuoteAt(mid)
    ensures SelectAt(WithPair(x, mid, post)) == SelectAt(WithoutPair(x, mid, post))
  {
    hide SelectAt, QuoteAt;
    ParenIsNoSelect("(" + mid + (")" + post));
    SelectBefore(x, "(" + mid + (")" + post));
    QuoteConcat(mid, post);
    QuoteIsNoSelect(mid + post);
    SelectBefore(x, mid + post);
  }

  /** Removing one matched pair around a quoted name keeps the text, the balance and every parenthesis of a SELECT. */
  lemma PairKeepsShape(pre: string, mid: string, post: string)
    requires Balanced(mid) && QuoteAt(mid)
    ensures SameShape(WithPair(pre, mid, post), WithoutPair(pre, mid, post))
  {
    PairStripped(pre, mid, post);
    PairClose(pre, mid, post, 0);
    PairMarks(pre, mid, post);
  }

  // ------------------------------------------------------------------- matched pairs are closed

  lemma {:induction false} ClosedByDepth(m: string, d: nat)
    requires d + Depth(m) == 0 && forall j {:trigger m[..j]} :: 0 <= j <= |m| ==> d + Depth(m[..j]) >= 0
    ensures CloseFrom(m, d)
  {
    if m != "" {
      var x := m[1..];
      forall j | 0 <= j <= |x| ensures d + Weight(m[0]) + Depth(x[..j]) >= 0 {
        assert m[..j + 1][1..] == x[..j];
        assert d + Depth(m[..j + 1]) >= 0;
      }
      assert x[..0] == "";
      ClosedByDepth(x, d + Weight(m[0]));
    }
  }

  lemma DepthOfOpen(m: string)
    ensures Depth("(" + m) == 1 + Depth(m)
  {
    assert ("(" + m)[1..] == m;
  }

  /** What stands between matching parentheses is balanced. */
  lemma MatchIsPair(s: string, start: nat, c: nat)
    requires Matches(s, start, c)
    ensures Balanced(s[start + 1..c]) && s[c] == ')'
    ensures s == WithPair(s[..start], s[start + 1..c], s[c + 1..])
  {
    hide Depth, CloseFrom;
    var mid := s[start + 1..c];
    forall j {:trigger mid[..j]} | 0 <= j <= |mid| ensures Depth(mid[..j]) >= 0 {
      assert DepthAt(s, start, start + j) > 0;
      assert s[start..start + j + 1] == "(" + mid[..j];
      DepthOfOpen(mid[..j]);
    }
    assert mid[..|mid|] == mid;
    assert s[start..c] == "(" + mid;
    DepthOfOpen(mid);
    DepthExtend(s, start, c);
    ClosedByDepth(mid, 0);
  }

  // ---------------------------------------------------------------- removeTableParentheses

  /** The length of the parenthesis-free front. */
  function FlatLength(s: string): (n: nat)
    ensures n <= |s| && (forall i :: 0 <= i < n ==> !IsParen(s[i])) && (n < |s| ==> IsParen(s[n]))
  {
    if s != "" && !IsParen(s[0]) then 1 + FlatLength(s[1..]) else 0
  }

  /** A pair of parentheses around a quoted name, with no parentheses inside. */
  predicate SimplePair(s: string) {
    && s != "" && s[0] == '('
    && var n := FlatLength(s[1..]); n + 1 < |s| && s[n + 1] == ')' && QuoteAt(s[1..n + 1])
  }

  /** Drops every such pair and nothing else. */
  function DropSimplePairs(s: string): string
    decreases |s|
  {
    if s == "" then ""
    else if SimplePair(s) then
      var n := FlatLength(s[1..]);
      s[1..n + 1] + DropSimplePairs(s[n + 2..])
    else [s[0]] + DropSimplePairs(s[1..])
  }

  predicate Flat(s: string) {
    forall i :: 0 <= i < |s| ==> !IsParen(s[i])
  }

  lemma {:induction false} FlatFront(m: string, rest: string)
    requires Flat(m) && rest != "" && IsParen(rest[0])
    ensures FlatLength(m + rest) == |m|
  {
    if m == "" {
      assert m + rest == rest;
    } else {
      assert (m + rest)[1..] == m[1..] + rest;
      FlatFront(m[1..], rest);
    }
  }

  lemma {:induction false} FlatDepth(m: string)
    requires Flat(m)
    ensures Depth(m) == 0 && CloseFrom(m, 0)
  {
    if m != "" {
      FlatDepth(m[1..]);
    }
  }

  /** Balanced text without an opening parenthesis has no closing one either. */
  lemma {:induction false} BalancedFlat(m: string)
    requires Balanced(m) && '(' !in m
    ensures Flat(m)
  {
    if m != "" {
      BalancedFlat(m[1..]);
    }
  }

  lemma DropPair(m: string, post: string)
    requires Flat(m) && QuoteAt(m)
    ensures SimplePair("(" + m + (")" + post))
    ensures DropSimplePairs("(" + m + (")" + post)) == m + DropSimplePairs(post)
  {
    hide QuoteAt, FlatLength;
    var s := "(" + m + (")" + post);
    assert s[1..] == m + (")" + post);
    FlatFront(m, ")" + post);
    assert s[1..|m| + 1] == m && s[|m| + 2..] == post;
  }

  lemma {:induction false} DropFlat(m: string, post: string)
    requires Flat(m)
    ensures DropSimplePairs(m + post) == m + DropSimplePairs(post)
  {
    hide QuoteAt, FlatLength;
    if m == "" {
      assert m + post == post;
    } else {
      assert (m + post)[1..] == m[1..] + post && (m + post)[0] == m[0];
      DropFlat(m[1..], post);
    }
  }

  /** A simple pair is what findMatchingParen and the three tests of the source recognise. */
  lemma SimplePairMatches(s: string)
    requires SimplePair(s)
    ensures var c := FlatLength(s[1..]) + 1; Matches(s, 0, c) && '(' !in s[1..c]
  {
    hide FlatLength, QuoteAt, Depth, CloseFrom;
    var n := FlatLength(s[1..]);
    var m := s[1..n + 1];
    assert forall i :: 0 <= i < n ==> m[i] == s[1..][i];
    forall j | 0 <= j <= n ensures DepthAt(s, 0, j) == 1 {
      assert s[0..j + 1] == "(" + m[..j];
      DepthOfOpen(m[..j]);
      FlatDepth(m[..j]);
    }
    DepthExtend(s, 0, n + 1);
    assert DepthAt(s, 0, n) == 1;
  }

  lemma MatchUnique(s: string, start: nat, c: int, e: int)
    requires Matches(s, start, c) && Matches(s, start, e)
    ensures c == e
  {
    hide Depth;
  }

  lemma MatchShift(s: string, i: nat, c: int)
    requires i <= c
    ensures Matches(s, i, c) <==> i < |s| && Matches(s[i..], 0, c - i)
  {
    hide Depth;
    if i < |s| && c < |s| {
      var t := s[i..];
      forall j | i <= j <= c ensures DepthAt(s, i, j) == DepthAt(t, 0, j - i) {
        assert s[i..j + 1] == t[0..j - i + 1];
      }
      if Matches(t, 0, c - i) {
        forall j | i <= j < c ensures DepthAt(s, i, j) > 0 {
          assert DepthAt(t, 0, j - i) > 0;
        }
      }
      if Matches(s, i, c) {
        forall j | 0 <= j < c - i ensures DepthAt(t, 0, j) > 0 {
          assert DepthAt(s, i, j + i) > 0;
        }
      }
    }
  }

  /** The tests of the source at a parenthesis that has a match. */
  lemma PairTest(s: string, i: nat, c: nat)
    requires Matches(s, i, c)
    ensures SimplePair(s[i..]) <==> Quoted(s[i + 1..c]) && '(' !in s[i + 1..c]
    ensures SimplePair(s[i..]) ==> Flat(s[i + 1..c]) && QuoteAt(s[i + 1..c])
  {
    hide Depth, CloseFrom, QuoteAt, Quoted, FlatLength;
    var t, m := s[i..], s[i + 1..c];
    QuotedIsPrefix(m);
    MatchIsPair(s, i, c);
    assert t == "(" + m + (")" + s[c + 1..]);
    if Quoted(m) && '(' !in m {
      BalancedFlat(m);
      DropPair(m, s[c + 1..]);
    }
    if SimplePair(t) {
      SimplePairMatches(t);
      MatchShift(s, i, c);
      var e := FlatLength(t[1..]) + 1;
      MatchUnique(t, 0, c - i, e);
      assert t[1..e] == m;
    }
  }

  lemma NoMatchNoPair(s: string, i: nat)
    requires i < |s| && forall j :: i <= j < |s| ==> DepthAt(s, i, j) != 0
    ensures !SimplePair(s[i..])
  {
    hide Depth, QuoteAt, FlatLength;
    var t := s[i..];
    if SimplePair(t) {
      SimplePairMatches(t);
      MatchShift(s, i, FlatLength(t[1..]) + 1 + i);
    }
  }

  predicate DroppedUpTo(s: string, result: string, i: nat)
    requires i <= |result|
  {
    DropSimplePairs(s) == result[..i] + DropSimplePairs(result[i..])
  }

  lemma CopyOver(s: string, result: string, i: nat)
    requires i < |result| && DroppedUpTo(s, result, i) && !SimplePair(result[i..])
    ensures DroppedUpTo(s, result, i + 1)
  {
    hide SimplePair;
    var t := result[i..];
    assert t[1..] == result[i + 1..] && result[..i + 1] == result[..i] + [t[0]];
  }

  lemma DropOver(s: string, result: string, i: nat, c: nat)
    requires Matches(result, i, c) && DroppedUpTo(s, result, i)
    requires Flat(result[i + 1..c]) && QuoteAt(result[i + 1..c])
    ensures DroppedUpTo(s, result[..i] + result[i + 1..c] + result[c + 1..], i)
  {
    hide DropSimplePairs, Depth, QuoteAt;
    var m, post := result[i + 1..c], result[c + 1..];
    MatchIsPair(result, i, c);
    assert result[i..] == "(" + m + (")" + post);
    DropPair(m, post);
    DropFlat(m, post);
    var next := result[..i] + m + post;
    assert next[..i] == result[..i] && next[i..] == m + post;
  }

  lemma DropStarted(s: string)
    ensures DroppedUpTo(s, s, 0)
  {
    assert s[..0] == "" && s[0..] == s;
  }

  lemma DropFinished(s: string, result: string)
    requires DroppedUpTo(s, result, |result|)
    ensures result == DropSimplePairs(s)
  {
    assert result[|result|..] == "" && result[..|result|] == result;
  }

  /** removeTableParentheses */
  method RemoveTableParentheses(s: string) returns (result: string)
    ensures result == DropSimplePairs(s)
  {
    hide DropSimplePairs, Depth, SimplePair, QuoteAt, DroppedUpTo, StartsWithSelect, Quoted;
    result := s;
    var i := 0;
    DropStarted(s);
    while i < |result|
      invariant 0 <= i <= |result|
      invariant DroppedUpTo(s, result, i)
      decreases |result|, |result| - i
    {
      if result[i] == '(' {
        var closeIdx := FindMatchingParen(result, i);
        if closeIdx == -1 {
          NoMatchNoPair(result, i);
          CopyOver(s, result, i);
          i := i + 1;
          continue;
        }
        var content := result[i + 1..closeIdx];
        var contentTrimmed := TrimSpace(content);
        PairTest(result, i, closeIdx);
        TrimTwice(content);
        if StartsWith(contentTrimmed, "\"") && !StartsWithSelect(contentTrimmed) && '(' !in content {
          DropOver(s, result, i, closeIdx);
          result := result[..i] + content + result[closeIdx + 1..];
          continue;
        }
      } else {
        NotOpen(result, i);
      }
      CopyOver(s, result, i);
      i := i + 1;
    }
    DropFinished(s, result);
  }

  lemma NotOpen(s: string, i: nat)
    requires i < |s| && s[i] != '('
    ensures !SimplePair(s[i..])
  {
  }

  /** The quote test on trimmed text; it makes the SELECT test redundant. */
  lemma TrimTwice(content: string)
    ensures StartsWith(TrimSpace(content), "\"") == Quoted(content)
    ensures Quoted(content) ==> !StartsWithSelect(TrimSpace(content))
  {
    hide StartsWith;
    var t := TrimSpace(content);
    if Quoted(content) {
      QuoteFirst(t);
      QuoteIsNoSelect(t);
      SelectIsPrefix(t);
    }
  }

  lemma QuoteFirst(t: string)
    requires StartsWith(t, "\"")
    ensures QuoteAt(t)
  {
    assert t[0] == t[..1][0];
  }

  lemma {:induction false} SimplePairIs(s: string)
    requires SimplePair(s)
    ensures var n := FlatLength(s[1..]);
            && s == "(" + s[1..n + 1] + (")" + s[n + 2..])
            && Flat(s[1..n + 1]) && QuoteAt(s[1..n + 1])
  {
    hide FlatLength, QuoteAt;
    var n := FlatLength(s[1..]);
    var m := s[1..n + 1];
    assert forall i :: 0 <= i < n ==> m[i] == s[1..][i];
    assert s == ['('] + m + ([')'] + s[n + 2..]);
  }

  /** Whatever stands in front, dropping the simple pairs keeps the shape of the whole. */
  lemma {:induction false} DropKeepsShape(pre: string, s: string)
    ensures SameShape(pre + s, pre + DropSimplePairs(s))
    decreases |s|
  {
    hide SameShape, SimplePair, QuoteAt, FlatLength, DropSimplePairs;
    if s == "" {
      DropEmpty();
      SameShapeReflexive(pre + s);
    } else if SimplePair(s) {
      SimplePairIs(s);
      var n := FlatLength(s[1..]);
      var m, post := s[1..n + 1], s[n + 2..];
      DropPair(m, post);
      DropKeepsShape(pre + m, post);
      KeepsShapeOverPair(pre, m, post, DropSimplePairs(post));
    } else {
      DropCopy(s);
      DropKeepsShape(pre + [s[0]], s[1..]);
      assert pre + s == pre + [s[0]] + s[1..];
      assert pre + DropSimplePairs(s) == pre + [s[0]] + DropSimplePairs(s[1..]);
    }
  }

  lemma DropEmpty()
    ensures DropSimplePairs("") == ""
  {
  }

  lemma DropCopy(s: string)
    requires s != "" && !SimplePair(s)
    ensures DropSimplePairs(s) == [s[0]] + DropSimplePairs(s[1..])
  {
  }

  lemma KeepsShapeOverPair(pre: string, m: string, post: string, done: string)
    requires Flat(m) && QuoteAt(m) && SameShape(pre + m + post, pre + m + done)
    ensures SameShape(pre + ("(" + m + (")" + post)), pre + (m + done))
  {
    hide SameShape, QuoteAt;
    FlatDepth(m);
    PairKeepsShape(pre, m, post);
    assert pre + m + post == WithoutPair(pre, m, post) && pre + m + done == pre + (m + done);
    SameShapeTransitive(WithPair(pre, m, post), WithoutPair(pre, m, post), pre + (m + done));
  }

  lemma SameShapeReflexive(a: string)
    ensures SameShape(a, a)
  {
  }

  lemma SameShapeTransitive(a: string, b: string, c: string)
    requires SameShape(a, b) && SameShape(b, c)
    ensures SameShape(a, c)
  {
  }

  // ----------------------------------------------------------- removeLeadingTableGroupParens

  /** A group that opens the clause with a quoted name and is all of it, or is followed by a comma. */
  predicate GroupPair(t: string, c: int) {
    && Matches(t, 0, c) && QuoteAt(t[1..])
    && (TrimSpace(t[c + 1..]) == "" || StartsWith(TrimSpace(t[c + 1..]), ","))
  }

  /** At most one group is removed: what is left then starts with a quote or a blank. */
  ghost predicate OneGroupOpened(t: string, result: string) {
    exists c :: GroupPair(t, c) && result == t[1..c] + t[c + 1..]
  }

  ghost predicate GroupOpened(t: string, result: string) {
    if exists c :: GroupPair(t, c) then OneGroupOpened(t, result) else result == t
  }

  /** removeLeadingTableGroupParens */
  method RemoveLeadingTableGroupParens(s: string) returns (result: string)
    ensures GroupOpened(TrimSpace(s), result)
  {
    hide TrimSpace, QuoteAt, DepthAt, Quoted, StartsWithSelect;
    ghost var t := TrimSpace(s);
    result := TrimSpace(s);
    while true
      invariant (result == t) || (OneGroupOpened(t, result) && result != "" && result[0] != '(')
      decreases |result|
    {
      if |result| == 0 || result[0] != '(' {
        break;
      }
      var content := TrimSpace(result[1..]);
      TrimTwice(result[1..]);
      QuotedIsPrefix(result[1..]);
      SelectTrimmed(result[1..]);
      if StartsWithSelect(content) {
        break;
      }
      if !StartsWith(content, "\"") {
        break;
      }
      var closeIdx := FindMatchingParen(result, 0);
      if closeIdx == -1 {
        break;
      }
      OnlyGroup(result, closeIdx);
      var afterClose := TrimSpace(result[closeIdx + 1..]);
      if afterClose == "" || StartsWith(afterClose, ",") {
        var innerContent := result[1..closeIdx];
        GroupOpens(result, closeIdx);
        result := innerContent + result[closeIdx + 1..];
        continue;
      }
      break;
    }
  }

  lemma SelectTrimmed(x: string)
    ensures StartsWithSelect(TrimSpace(x)) ==> !QuoteAt(x)
  {
    hide QuoteAt, StartsWithSelect, TrimSpace;
    TrimTwice(x);
    QuotedIsPrefix(x);
  }

  /** The match is unique, so it alone can be the group. */
  lemma OnlyGroup(t: string, c: int)
    requires Matches(t, 0, c)
    ensures forall e :: GroupPair(t, e) ==> e == c
  {
    hide DepthAt, Matches;
    forall e | GroupPair(t, e) ensures e == c {
      MatchUnique(t, 0, c, e);
    }
  }

  lemma GroupOpens(t: string, c: int)
    requires GroupPair(t, c)
    ensures var r := t[1..c] + t[c + 1..]; r != "" && r[0] != '('
    ensures QuoteAt(t[1..c]) && Balanced(t[1..c]) && t == WithPair("", t[1..c], t[c + 1..])
  {
    hide DepthAt, QuoteAt, Balanced;
    MatchIsPair(t, 0, c);
    assert t[..0] == "";
    GroupIsQuoted(t, t[0 + 1..c], t[c + 1..]);
  }

  lemma GroupIsQuoted(t: string, m: string, post: string)
    requires t == WithPair("", m, post) && QuoteAt(t[1..])
    ensures QuoteAt(m) && m + post != "" && (m + post)[0] != '('
  {
    hide QuoteAt;
    assert t[1..] == m + (")" + post);
    QuoteInFront(m, ")" + post);
    QuoteNotOpen(m);
  }

  lemma QuoteNotOpen(m: string)
    requires QuoteAt(m)
    ensures m != "" && m[0] != '('
  {
  }

  lemma {:induction false} QuoteInFront(m: string, rest: string)
    requires QuoteAt(m + rest) && rest != "" && rest[0] == ')'
    ensures QuoteAt(m)
  {
    assert "" + rest == rest;
    if m != "" && m[0] != '"' {
      assert (m + rest)[1..] == m[1..] + rest;
      QuoteInFront(m[1..], rest);
    }
  }

  lemma {:induction false} DepthOfClosed(m: string, d: nat, j: nat)
    requires CloseFrom(m, d) && j <= |m|
    ensures d + Depth(m) == 0 && d + Depth(m[..j]) >= 0
  {
    if m != "" {
      var d1 := d + Weight(m[0]);
      if j == 0 {
        DepthOfClosed(m[1..], d1, 0);
      } else {
        DepthOfClosed(m[1..], d1, j - 1);
        assert m[..j][1..] == m[1..][..j - 1];
      }
    }
  }

  /** Balanced text between parentheses makes them match. */
  lemma PairMatches(mid: string, post: string)
    requires Balanced(mid)
    ensures Matches(WithPair("", mid, post), 0, |mid| + 1)
  {
    hide Depth, CloseFrom;
    var t, c := WithPair("", mid, post), |mid| + 1;
    forall j | 0 <= j < c ensures DepthAt(t, 0, j) > 0 {
      assert t[0..j + 1] == "(" + mid[..j];
      DepthOfOpen(mid[..j]);
      DepthOfClosed(mid, 0, j);
    }
    DepthOfClosed(mid, 0, 0);
    assert t[0..c] == "(" + mid && t[c] == ')';
    DepthOfOpen(mid);
    DepthExtend(t, 0, c);
  }

  /** A leading group of a quoted name, alone or before a comma, is opened. */
  lemma GroupIsRemoved(mid: string, post: string, result: string)
    requires Balanced(mid) && QuoteAt(mid) && (TrimSpace(post) == "" || StartsWith(TrimSpace(post), ","))
    requires GroupOpened(WithPair("", mid, post), result)
    ensures result == mid + post
  {
    hide DepthAt, Balanced, QuoteAt, TrimSpace, StartsWith;
    var t, c := WithPair("", mid, post), |mid| + 1;
    PairMatches(mid, post);
    assert t[1..] == mid + (")" + post) && t[c + 1..] == post && t[1..c] == mid;
    QuoteConcat(mid, ")" + post);
    assert GroupPair(t, c);
    OnlyGroup(t, c);
  }

  lemma GroupKeepsShape(t: string, result: string)
    requires GroupOpened(t, result)
    ensures SameShape(t, result)
  {
    hide SameShape, Balanced, QuoteAt, DepthAt;
    if c :| GroupPair(t, c) && result == t[1..c] + t[c + 1..] {
      GroupOpens(t, c);
      PairKeepsShape("", t[1..c], t[c + 1..]);
      assert WithoutPair("", t[1..c], t[c + 1..]) == result;
    } else {
      SameShapeReflexive(t);
    }
  }

  // -------------------------------------------------------------------------- both passes

  lemma {:induction false} SpacesInFront(a: string, x: string, d: nat)
    requires AllSpace(a)
    ensures CloseFrom(a + x, d) == CloseFrom(x, d) && Stripped(a + x) == a + Stripped(x)
    ensures SelectMarks(a + x) == SelectMarks(x)
  {
    hide SelectMarks, Stripped, CloseFrom;
    if a == "" {
      assert a + x == x && "" + Stripped(x) == Stripped(x);
    } else {
      assert a + x == [a[0]] + (a[1..] + x);
      SpacesInFront(a[1..], x, d);
      MarksOf(a[0], a[1..] + x);
      PlainInFront(a[0], a[1..] + x, d);
      assert [a[0]] + (a[1..] + Stripped(x)) == a + Stripped(x);
    }
  }

  lemma PlainInFront(c: char, x: string, d: nat)
    requires !IsParen(c)
    ensures CloseFrom([c] + x, d) == CloseFrom(x, d) && Stripped([c] + x) == [c] + Stripped(x)
  {
    assert ([c] + x)[1..] == x;
  }

  lemma SpacesAlone(b: string, d: nat)
    requires AllSpace(b)
    ensures CloseFrom(b, d) == (d == 0) && Stripped(b) == b && SelectMarks(b) == []
  {
    SpacesInFront(b, "", d);
    assert b + "" == b;
  }

  lemma {:induction false} SpacesAreNoSelect(b: string)
    requires AllSpace(b) && b != ""
    ensures !SelectAt(b) && NoLetterFirst(b)
  {
    if |b| > 1 {
      SpacesAreNoSelect(b[1..]);
    } else {
      assert b[1..] == "";
    }
  }

  lemma SelectBeforeSpaces(x: string, b: string)
    requires AllSpace(b)
    ensures SelectAt(x + b) == SelectAt(x)
  {
    hide SelectAt;
    if b == "" {
      assert x + b == x;
    } else {
      SpacesAreNoSelect(b);
      SelectBefore(x, b);
    }
  }

  lemma {:induction false} SpacesBehind(x: string, b: string, d: nat)
    requires AllSpace(b)
    ensures CloseFrom(x + b, d) == CloseFrom(x, d) && |SelectMarks(x + b)| == |SelectMarks(x)|
  {
    hide SelectAt, Stripped, StartsWithSelect, SelectMarks;
    if x == "" {
      assert x + b == b;
      SpacesAlone(b, d);
      SpacesAlone(x, d);
    } else {
      var y := x[1..];
      assert (x + b)[1..] == y + b && x + b == [x[0]] + (y + b) && x == [x[0]] + y;
      SelectBeforeSpaces(y, b);
      MarksOf(x[0], y + b);
      MarksOf(x[0], y);
      SpacesBehind(y, b, if x[0] == '(' then d + 1 else if x[0] == ')' && d > 0 then d - 1 else d);
    }
  }

  /** Removing the group parentheses and then the table parentheses of a clause: the text is the same up to blanks at
      its ends, the balance is the same, and so are the parentheses that open a SELECT. */
  lemma ClauseKeepsShape(s: string, ungrouped: string)
    requires GroupOpened(TrimSpace(s), ungrouped)
    ensures SameShape(TrimSpace(s), DropSimplePairs(ungrouped))
    ensures exists a, b :: AllSpace(a) && AllSpace(b) && Stripped(s) == a + Stripped(DropSimplePairs(ungrouped)) + b
    ensures Balanced(s) <==> Balanced(DropSimplePairs(ungrouped))
    ensures |SelectMarks(s)| == |SelectMarks(DropSimplePairs(ungrouped))|
  {
    hide SelectMarks, Stripped, CloseFrom, TrimSpace, GroupOpened, DropSimplePairs;
    var t, out := TrimSpace(s), DropSimplePairs(ungrouped);
    GroupKeepsShape(t, ungrouped);
    DropKeepsShape("", ungrouped);
    assert "" + ungrouped == ungrouped && "" + out == out;
    var a, b := TrimSplit(s);
    assert s == a + (t + b);
    SpacesInFront(a, t + b, 0);
    SpacesBehind(t, b, 0);
    StrippedConcat(t, b);
    SpacesAlone(b, 0);
    assert Stripped(s) == a + Stripped(out) + b;
  }
}
