/**
  Whole-word substitution (pkg/sqlrewrite/pg_generator.go): replaceWord, and how its passes compose.  Text is ASCII, so
  case mapping keeps lengths.
 */
module Words {

  /** isAlphanumeric */
  predicate IsWordChar(c: char) {
    'a' <= c <= 'z' || 'A' <= c <= 'Z' || '0' <= c <= '9' || c == '_'
  }

  function UpperChar(c: char): char {
    if 'a' <= c <= 'z' then c - 'a' + 'A' else c
  }

  /** strings.ToUpper on ASCII text */
  function Upper(s: string): (r: string)
    ensures |r| == |s| && forall i :: 0 <= i < |s| ==> r[i] == UpperChar(s[i])
  {
    seq(|s|, i requires 0 <= i < |s| => UpperChar(s[i]))
  }

  /** Letters, digits and the underscore, by code; capitals are 32 below small letters. */
  lemma CharacterCodes(c: char)
    ensures IsWordChar(c) <==> 48 <= c as int <= 57 || 65 <= c as int <= 90 || c as int == 95 || 97 <= c as int <= 122
    ensures UpperChar(c) as int == if 97 <= c as int <= 122 then c as int - 32 else c as int
  {
  }

  predicate IsWord(w: string) {
    w != "" && forall i :: 0 <= i < |w| ==> IsWordChar(w[i])
  }

  /** The length of the identifier at the front of a text. */
  function RunLength(s: string): (n: nat)
    ensures n <= |s|
    ensures forall i :: 0 <= i < n ==> IsWordChar(s[i])
    ensures n < |s| ==> !IsWordChar(s[n])
  {
    if s != "" && IsWordChar(s[0]) then 1 + RunLength(s[1..]) else 0
  }

  type Table = map<string, string>

  function Subst(w: string, t: Table): string {
    if w in t then t[w] else w
  }

  /** Replaces every maximal identifier by its entry in the table.  `inRun` says that the text continues an identifier,
      whose rest is left alone. */
  function MapWords(s: string, inRun: bool, t: Table): string
    decreases |s|
  {
    if s == "" then ""
    else if !IsWordChar(s[0]) then [s[0]] + MapWords(s[1..], false, t)
    else if inRun then [s[0]] + MapWords(s[1..], true, t)
    else Subst(s[..RunLength(s)], t) + MapWords(s[RunLength(s)..], true, t)
  }

  // ---------------------------------------------------------------------- replaceWord

  predicate StartsWith(s: string, w: string) {
    |w| <= |s| && s[..|w|] == w
  }

  /** strings.Index(s[from:], w) + from, or |s| + 1 for "absent". */
  method Index(s: string, from: nat, w: string) returns (idx: nat)
    requires from <= |s|
    ensures from <= idx <= |s| + 1
    ensures idx <= |s| ==> StartsWith(s[idx..], w)
    ensures forall j :: from <= j < idx && j <= |s| ==> !StartsWith(s[j..], w)
  {
    idx := from;
    while idx <= |s|
      invariant from <= idx <= |s| + 1
      invariant forall j :: from <= j < idx && j <= |s| ==> !StartsWith(s[j..], w)
    {
      if idx + |w| <= |s| && s[idx..idx + |w|] == w {
        assert s[idx..][..|w|] == s[idx..idx + |w|];
        return;
      }
      assert !StartsWith(s[idx..], w) by {
        if idx + |w| <= |s| {
          assert s[idx..][..|w|] == s[idx..idx + |w|];
        }
      }
      idx := idx + 1;
    }
  }

  /** A character that does not start a whole word equal to a key is copied. */
  lemma CopyChar(s: string, inRun: bool, t: Table)
    requires s != "" && (inRun || s[..RunLength(s)] !in t)
    ensures MapWords(s, inRun, t) == [s[0]] + MapWords(s[1..], IsWordChar(s[0]), t)
  {
    if IsWordChar(s[0]) && !inRun {
      CopyFirst(s, t);
    }
  }

  lemma CopyFirst(s: string, t: Table)
    requires s != "" && IsWordChar(s[0]) && s[..RunLength(s)] !in t
    ensures MapWords(s, false, t) == [s[0]] + MapWords(s[1..], true, t)
  {
    hide MapWords, RunLength;
    var n := RunLength(s);
    UnfoldRun(s, t);
    CopyFirstOf(s[0], s[1..n], s[n..], t, s);
  }

  lemma CopyFirstOf(c: char, w: string, tail: string, t: Table, s: string)
    requires AllWordChars(w) && s == [c] + w + tail && [c] + w !in t
    requires MapWords(s, false, t) == [c] + w + MapWords(tail, true, t)
    ensures MapWords(s, false, t) == [c] + MapWords(s[1..], true, t)
  {
    hide MapWords;
    assert s[1..] == w + tail;
    CopyChars(w, tail, t);
    assert [c] + (w + MapWords(tail, true, t)) == [c] + w + MapWords(tail, true, t);
  }

  lemma UnfoldRun(s: string, t: Table)
    requires s != "" && IsWordChar(s[0])
    ensures var n := RunLength(s);
            && n >= 1 && s == [s[0]] + s[1..n] + s[n..] && s[..n] == [s[0]] + s[1..n]
            && MapWords(s, false, t) == Subst(s[..n], t) + MapWords(s[n..], true, t)
  {
  }

  predicate AllWordChars(w: string) {
    forall i :: 0 <= i < |w| ==> IsWordChar(w[i])
  }

  /** Inside an identifier characters are copied. */
  lemma {:induction false} CopyChars(w: string, tail: string, t: Table)
    requires AllWordChars(w)
    ensures MapWords(w + tail, true, t) == w + MapWords(tail, true, t)
  {
    if w == "" {
      assert w + tail == tail;
    } else {
      assert (w + tail)[1..] == w[1..] + tail && (w + tail)[0] == w[0];
      CopyChars(w[1..], tail, t);
    }
  }

  predicate RunAt(s: string, k: nat, inRun: bool)
    requires k <= |s|
  {
    if k == 0 then inRun else IsWordChar(s[k - 1])
  }

  /** Up to the next occurrence of the word nothing changes. */
  lemma {:induction false} CopyUntil(s: string, inRun: bool, w: string, v: string, k: nat)
    requires k <= |s| && forall j :: 0 <= j < k ==> !StartsWith(s[j..], w)
    ensures MapWords(s, inRun, map[w := v]) == s[..k] + MapWords(s[k..], RunAt(s, k, inRun), map[w := v])
    decreases k
  {
    hide MapWords, RunLength;
    var t := map[w := v];
    if k == 0 {
      assert s[..0] == "" && s[0..] == s;
    } else {
      CopyUntil(s, inRun, w, v, k - 1);
      var r := s[k - 1..];
      assert !StartsWith(r, w);
      assert r[..RunLength(r)] != w;
      CopyChar(r, RunAt(s, k - 1, inRun), t);
      var rest := MapWords(s[k..], RunAt(s, k, inRun), t);
      assert r[1..] == s[k..] && r[0] == s[k - 1];
      assert s[..k - 1] + ([s[k - 1]] + rest) == s[..k] + rest;
    }
  }

  lemma {:induction false} RunCovers(s: string, n: nat)
    requires n <= |s| && forall i :: 0 <= i < n ==> IsWordChar(s[i])
    ensures RunLength(s) >= n
    decreases n
  {
    if n > 0 {
      RunCovers(s[1..], n - 1);
    }
  }

  /** What happens at an occurrence of the word: replaced when it is a whole identifier, else skipped. */
  lemma AtOccurrence(s: string, inRun: bool, w: string, v: string)
    requires IsWord(w) && StartsWith(s, w)
    ensures var whole := !inRun && (|w| == |s| || !IsWordChar(s[|w|]));
            MapWords(s, inRun, map[w := v]) == (if whole then v else w) + MapWords(s[|w|..], true, map[w := v])
  {
    var t := map[w := v];
    assert forall i :: 0 <= i < |w| ==> s[i] == w[i];
    RunCovers(s, |w|);
    if inRun {
      assert s == w + s[|w|..];
      CopyChars(w, s[|w|..], t);
    } else if |w| == |s| || !IsWordChar(s[|w|]) {
      assert RunLength(s) == |w|;
    } else {
      CopyPartial(s, |w|, t);
    }
  }

  /** Part of a longer identifier that is not itself a key. */
  lemma CopyPartial(s: string, n: nat, t: Table)
    requires 0 < n <= RunLength(s) && s[..RunLength(s)] !in t
    ensures MapWords(s, false, t) == s[..n] + MapWords(s[n..], true, t)
  {
    hide MapWords, RunLength;
    CopyChar(s, false, t);
    var w, tail := s[..n], s[n..];
    assert s[1..] == w[1..] + tail && w == [s[0]] + w[1..];
    CopyChars(w[1..], tail, t);
  }

  /** Before a character that is not part of an identifier the flag does not matter. */
  lemma FlagIrrelevant(s: string, a: bool, b: bool, t: Table)
    requires s == "" || !IsWordChar(s[0])
    ensures MapWords(s, a, t) == MapWords(s, b, t)
  {
  }

  predicate InRun(s: string, p: nat)
    requires p <= |s|
  {
    p > 0 && IsWordChar(s[p - 1])
  }

  /** The source's before-and-after test. */
  predicate WholeAt(s: string, idx: nat, w: string)
    requires idx + |w| <= |s|
  {
    !InRun(s, idx) && (idx + |w| == |s| || !IsWordChar(s[idx + |w|]))
  }

  predicate NoneBetween(s: string, w: string, p: nat, q: nat) {
    forall j :: p <= j < q && j <= |s| ==> !StartsWith(s[j..], w)
  }

  /** From the search position to the next occurrence and over it. */
  lemma OneStep(s: string, p: nat, idx: nat, w: string, v: string)
    requires IsWord(w) && p <= idx <= |s| && NoneBetween(s, w, p, idx) && StartsWith(s[idx..], w)
    ensures s[..p] + MapWords(s[p..], InRun(s, p), map[w := v])
         == s[..idx] + (if WholeAt(s, idx, w) then v else w) + MapWords(s[idx + |w|..], true, map[w := v])
  {
    hide MapWords, RunLength, StartsWith;
    ReachOccurrence(s, p, idx, w, v);
    StartsWithFits(s, idx, w);
    AtOccurrence(s[idx..], InRun(s, idx), w, v);
    assert s[idx..][|w|..] == s[idx + |w|..];
  }

  lemma ReachOccurrence(s: string, p: nat, idx: nat, w: string, v: string)
    requires IsWord(w) && p <= idx <= |s| && NoneBetween(s, w, p, idx)
    ensures s[..p] + MapWords(s[p..], InRun(s, p), map[w := v])
         == s[..idx] + MapWords(s[idx..], InRun(s, idx), map[w := v])
  {
    hide MapWords, RunLength, StartsWith;
    var r, k := s[p..], idx - p;
    forall j | 0 <= j < k ensures !StartsWith(r[j..], w) {
      assert r[j..] == s[p + j..];
    }
    CopyUntil(r, InRun(s, p), w, v, k);
    assert r[k..] == s[idx..] && RunAt(r, k, InRun(s, p)) == InRun(s, idx);
    assert s[..p] + r[..k] == s[..idx];
  }

  lemma NoneLeft(s: string, p: nat, w: string, v: string)
    requires IsWord(w) && p <= |s| && NoneBetween(s, w, p, |s| + 1)
    ensures s[..p] + MapWords(s[p..], InRun(s, p), map[w := v]) == s
  {
    ReachOccurrence(s, p, |s|, w, v);
    assert s[|s|..] == "" && s[..|s|] == s;
  }

  /** replaceWord: the search-and-splice loop replaces exactly the maximal identifiers equal to the word. */
  method ReplaceWord(s: string, oldWord: string, newWord: string) returns (result: string)
    requires IsWord(oldWord)
    ensures result == MapWords(s, false, map[oldWord := newWord])
  {
    hide MapWords, StartsWith;
    ghost var t := map[oldWord := newWord];
    result := s;
    var searchPos := 0;
    assert s[..0] == "" && s[0..] == s;
    while true
      invariant 0 <= searchPos <= |result|
      invariant result[..searchPos] + MapWords(result[searchPos..], InRun(result, searchPos), t) == MapWords(s, false, t)
      decreases |result| - searchPos
    {
      var idx := Index(result, searchPos, oldWord);
      if idx > |result| {
        NoneLeft(result, searchPos, oldWord, newWord);
        break;
      }
      StartsWithFits(result, idx, oldWord);
      OneStep(result, searchPos, idx, oldWord, newWord);
      var before := idx == 0 || !IsWordChar(result[idx - 1]);
      var after := idx + |oldWord| >= |result| || !IsWordChar(result[idx + |oldWord|]);
      if before && after {
        ghost var head, tail := result[..idx], result[idx + |oldWord|..];
        result := result[..idx] + newWord + result[idx + |oldWord|..];
        searchPos := idx + |newWord|;
        assert result[searchPos..] == tail && result[..searchPos] == head + newWord;
        FlagIrrelevant(tail, true, InRun(result, searchPos), t);
      } else {
        searchPos := idx + |oldWord|;
        assert result[..searchPos] == result[..idx] + oldWord;
        assert result[searchPos - 1] == oldWord[|oldWord| - 1];
      }
    }
  }

  lemma StartsWithFits(s: string, idx: nat, w: string)
    requires idx <= |s| && StartsWith(s[idx..], w)
    ensures idx + |w| <= |s| && s[idx..idx + |w|] == w
  {
    assert s[idx..][..|w|] == s[idx..idx + |w|];
  }

  // -------------------------------------------------------------- composing substitutions

  predicate WordTable(t: Table) {
    forall w :: w in t ==> IsWord(t[w])
  }

  lemma {:induction false} RunLengthConcat(w: string, rest: string)
    requires (forall i :: 0 <= i < |w| ==> IsWordChar(w[i])) && (rest == "" || !IsWordChar(rest[0]))
    ensures RunLength(w + rest) == |w|
  {
    if w == "" {
      assert w + rest == rest;
    } else {
      assert (w + rest)[1..] == w[1..] + rest;
      RunLengthConcat(w[1..], rest);
    }
  }

  /** The first character after an identifier stays what it was. */
  lemma MapWordsHead(s: string, t: Table)
    ensures MapWords(s, true, t) == "" <==> s == ""
    ensures s != "" ==> MapWords(s, true, t)[0] == s[0]
  {
  }

  /** Two passes are one pass with the tables combined. */
  lemma {:induction false} MapTwice(s: string, inRun: bool, t: Table, u: Table, tu: Table)
    requires WordTable(t) && forall w :: Subst(Subst(w, t), u) == Subst(w, tu)
    ensures MapWords(MapWords(s, inRun, t), inRun, u) == MapWords(s, inRun, tu)
    decreases |s|
  {
    if s == "" {
    } else if !IsWordChar(s[0]) || inRun {
      MapTwice(s[1..], IsWordChar(s[0]), t, u, tu);
      var y := MapWords(s[1..], IsWordChar(s[0]), t);
      assert MapWords(s, inRun, t) == [s[0]] + y && ([s[0]] + y)[1..] == y;
    } else {
      var n := RunLength(s);
      var w, y := s[..n], MapWords(s[n..], true, t);
      MapTwice(s[n..], true, t, u, tu);
      MapWordsHead(s[n..], t);
      assert IsWord(Subst(w, t));
      RunLengthConcat(Subst(w, t), y);
      assert (Subst(w, t) + y)[..|Subst(w, t)|] == Subst(w, t) && (Subst(w, t) + y)[|Subst(w, t)|..] == y;
    }
  }

  /** One more word added to a table. */
  lemma AddWord(s: string, t: Table, w: string, v: string)
    requires WordTable(t) && IsWord(v) && w !in t && forall k :: k in t ==> t[k] != w
    ensures WordTable(t[w := v])
    ensures MapWords(MapWords(s, false, t), false, map[w := v]) == MapWords(s, false, t[w := v])
  {
    MapTwice(s, false, t, map[w := v], t[w := v]);
  }

  lemma {:induction false} EmptyTable(s: string, inRun: bool)
    ensures MapWords(s, inRun, map[]) == s
    decreases |s|
  {
    if s != "" {
      CopyChar(s, inRun, map[]);
      EmptyTable(s[1..], IsWordChar(s[0]));
    }
  }

  /** A table none of whose values is a key can be applied twice without effect. */
  lemma MapIdempotent(s: string, t: Table)
    requires WordTable(t) && forall k :: k in t ==> t[k] !in t
    ensures MapWords(MapWords(s, false, t), false, t) == MapWords(s, false, t)
  {
    MapTwice(s, false, t, t, t);
  }
}
