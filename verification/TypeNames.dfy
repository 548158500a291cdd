/**
  The type names of a statement (pkg/sqlrewrite/pg_generator.go): replaceDoubleType and convertTypes.
 */
module TypeNames {
  import opened Words

  const DOUBLE := "DOUBLE"
  const PRECISION := "PRECISION"

  /** Blanks and then PRECISION, in any case. */
  predicate Precision(s: string) {
    if s != "" && s[0] == ' ' then Precision(s[1..]) else |s| >= 9 && Upper(s[..9]) == PRECISION
  }

  predicate Bare(w: string, rest: string) {
    Upper(w) == DOUBLE && !Precision(rest)
  }

  /** Every maximal identifier DOUBLE, in any case, that PRECISION does not follow becomes DOUBLE PRECISION. */
  function Doubles(s: string, inRun: bool): string
    decreases |s|
  {
    if s == "" then ""
    else if !IsWordChar(s[0]) then [s[0]] + Doubles(s[1..], false)
    else if inRun then [s[0]] + Doubles(s[1..], true)
    else
      var n := RunLength(s);
      (if Bare(s[..n], s[n..]) then "DOUBLE PRECISION" else s[..n]) + Doubles(s[n..], true)
  }

  // ------------------------------------------------------------------- the scanning loop

  lemma UpperWord(w: string, u: string)
    requires Upper(w) == u && AllWordChars(u)
    ensures AllWordChars(w)
  {
    forall i | 0 <= i < |w| ensures IsWordChar(w[i]) {
      assert u[i] == UpperChar(w[i]) && IsWordChar(u[i]);
    }
  }

  lemma {:induction false} CopyRun(w: string, tail: string)
    requires AllWordChars(w)
    ensures Doubles(w + tail, true) == w + Doubles(tail, true)
  {
    if w == "" {
      assert w + tail == tail;
    } else {
      assert (w + tail)[1..] == w[1..] + tail && (w + tail)[0] == w[0];
      CopyRun(w[1..], tail);
    }
  }

  lemma {:induction false} UnfoldDoubles(s: string)
    requires s != "" && IsWordChar(s[0])
    ensures var n := RunLength(s);
            && n >= 1 && s == s[..n] + s[n..]
            && Doubles(s, false) == (if Bare(s[..n], s[n..]) then "DOUBLE PRECISION" else s[..n]) + Doubles(s[n..], true)
  {
    hide Precision, Upper;
  }

  /** A part of an identifier that stays is copied. */
  lemma CopyPart(s: string, k: nat)
    requires 0 < k <= RunLength(s) && !Bare(s[..RunLength(s)], s[RunLength(s)..])
    ensures Doubles(s, false) == s[..k] + Doubles(s[k..], true)
  {
    hide Doubles, RunLength, Precision, Upper;
    var n := RunLength(s);
    UnfoldDoubles(s);
    CopyRun(s[k..n], s[n..]);
    assert s[k..] == s[k..n] + s[n..] && s[..n] == s[..k] + s[k..n];
  }

  lemma CopyOne(s: string, inRun: bool)
    requires s != "" && (inRun || !Bare(s[..RunLength(s)], s[RunLength(s)..]))
    ensures Doubles(s, inRun) == [s[0]] + Doubles(s[1..], IsWordChar(s[0]))
  {
    if IsWordChar(s[0]) && !inRun {
      CopyPart(s, 1);
    }
  }

  /** DOUBLE in any case at the front. */
  predicate DoubleAt(s: string) {
    |s| >= 6 && Upper(s[..6]) == DOUBLE
  }

  lemma {:induction false} CopyUntilDouble(s: string, inRun: bool, k: nat)
    requires k <= |s| && forall j :: 0 <= j < k ==> !DoubleAt(s[j..])
    ensures Doubles(s, inRun) == s[..k] + Doubles(s[k..], RunAt(s, k, inRun))
    decreases k
  {
    hide Doubles, RunLength, Precision, Upper;
    if k == 0 {
      assert s[..0] == "" && s[0..] == s;
    } else {
      CopyUntilDouble(s, inRun, k - 1);
      var r := s[k - 1..];
      assert !DoubleAt(r);
      NotDouble(r);
      CopyOne(r, RunAt(s, k - 1, inRun));
      var rest := Doubles(s[k..], RunAt(s, k, inRun));
      assert r[1..] == s[k..] && r[0] == s[k - 1];
      assert s[..k - 1] + ([s[k - 1]] + rest) == s[..k] + rest;
    }
  }

  lemma NotDouble(s: string)
    requires !DoubleAt(s)
    ensures !Bare(s[..RunLength(s)], s[RunLength(s)..])
  {
    var n := RunLength(s);
    assert |Upper(s[..n])| == n;
  }

  /** At an occurrence: replaced when it is a whole identifier without PRECISION, else passed over. */
  lemma AtDouble(s: string, inRun: bool)
    requires DoubleAt(s)
    ensures var whole := !inRun && (|s| == 6 || !IsWordChar(s[6])) && !Precision(s[6..]);
            Doubles(s, inRun) == (if whole then "DOUBLE PRECISION" else s[..6]) + Doubles(s[6..], true)
  {
    hide Doubles, RunLength, Precision, Upper;
    UpperWord(s[..6], DOUBLE);
    RunCoversWord(s, s[..6]);
    if inRun {
      assert s == s[..6] + s[6..];
      CopyRun(s[..6], s[6..]);
    } else {
      var n := RunLength(s);
      if n > 6 {
        assert |s[..n]| != |DOUBLE|;
        assert IsWordChar(s[6]);
        CopyPart(s, 6);
      } else {
        UnfoldDoubles(s);
      }
    }
  }

  /** Blanks and PRECISION are copied. */
  lemma {:induction false} CopyPrecision(s: string, k: nat, flag: bool)
    requires k + 9 <= |s| && (forall i :: 0 <= i < k ==> s[i] == ' ') && Upper(s[k..k + 9]) == PRECISION
    requires k == 0 ==> flag
    ensures Doubles(s, flag) == s[..k + 9] + Doubles(s[k + 9..], true)
    decreases k
  {
    hide Doubles, Precision, Upper;
    if k == 0 {
      UpperWord(s[..9], PRECISION);
      assert s == s[..9] + s[9..];
      CopyRun(s[..9], s[9..]);
    } else {
      var r := s[1..];
      assert r[k - 1..k + 8] == s[k..k + 9] && r[k + 8..] == s[k + 9..];
      assert s == [' '] + r && s[..k + 9] == [' '] + r[..k + 8];
      DoublesSeparator(' ', r, flag);
      if k == 1 {
        CopyWordP(r);
      } else {
        CopyPrecision(r, k - 1, false);
      }
    }
  }

  lemma NotBare(w: string, rest: string)
    requires |w| != 6
    ensures !Bare(w, rest)
  {
    assert |Upper(w)| != |DOUBLE|;
  }

  lemma RunCoversWord(s: string, w: string)
    requires StartsWith(s, w) && AllWordChars(w)
    ensures RunLength(s) >= |w|
  {
    forall i | 0 <= i < |w| ensures IsWordChar(s[i]) {
      assert s[i] == w[i];
    }
    RunCovers(s, |w|);
  }

  lemma {:induction false} LongRun(s: string)
    requires |s| >= 9 && Upper(s[..9]) == PRECISION
    ensures RunLength(s) >= 9
  {
    hide RunLength, Upper;
    UpperWord(s[..9], PRECISION);
    RunCoversWord(s, s[..9]);
  }

  lemma CopyWordP(s: string)
    requires |s| >= 9 && Upper(s[..9]) == PRECISION
    ensures Doubles(s, false) == s[..9] + Doubles(s[9..], true)
  {
    hide *;
    LongRun(s);
    NotBare(s[..RunLength(s)], s[RunLength(s)..]);
    CopyPart(s, 9);
  }

  lemma {:induction false} SkipBlanks(s: string, k: nat)
    requires k <= |s| && (forall i :: 0 <= i < k ==> s[i] == ' ') && (k < |s| ==> s[k] != ' ')
    ensures Precision(s) <==> k + 9 <= |s| && Upper(s[k..k + 9]) == PRECISION
  {
    if k == 0 {
      assert |s| >= 9 ==> s[0..9] == s[..9];
    } else {
      SkipBlanks(s[1..], k - 1);
      assert k + 9 <= |s| ==> s[1..][k - 1..k + 8] == s[k..k + 9];
    }
  }

  predicate DoneUpTo(s: string, result: string, p: nat)
    requires p <= |result|
  {
    Doubles(s, false) == result[..p] + Doubles(result[p..], InRun(result, p))
  }

  /** Moving to the next occurrence. */
  lemma ToOccurrence(s: string, result: string, p: nat, k: nat)
    requires p + k <= |result| && DoneUpTo(s, result, p)
    requires forall j :: 0 <= j < k ==> !DoubleAt(result[p..][j..])
    ensures DoneUpTo(s, result, p + k)
  {
    hide Doubles;
    var r := result[p..];
    CopyUntilDouble(r, InRun(result, p), k);
    assert r[k..] == result[p + k..] && RunAt(r, k, InRun(result, p)) == InRun(result, p + k);
    assert result[..p] + r[..k] == result[..p + k];
  }

  lemma Started(s: string)
    ensures DoneUpTo(s, s, 0)
  {
    assert s[..0] == "" && s[0..] == s;
  }

  lemma Finished(s: string, result: string)
    requires DoneUpTo(s, result, |result|)
    ensures result == Doubles(s, false)
  {
    assert result[|result|..] == "" && result[..|result|] == result;
  }

  /** Passing over a stretch of text that the pass copies. */
  lemma PassOver(s: string, result: string, p: nat, k: nat)
    requires 0 < k && p + k <= |result| && DoneUpTo(s, result, p) && IsWordChar(result[p + k - 1])
    requires var r := result[p..]; Doubles(r, InRun(result, p)) == r[..k] + Doubles(r[k..], true)
    ensures DoneUpTo(s, result, p + k)
  {
    hide Doubles;
    var r := result[p..];
    assert r[k..] == result[p + k..] && result[..p] + r[..k] == result[..p + k];
  }

  lemma Splice(s: string, result: string, p: nat, next: string)
    requires p + 6 <= |result| && DoneUpTo(s, result, p)
    requires var r := result[p..]; Doubles(r, InRun(result, p)) == "DOUBLE PRECISION" + Doubles(r[6..], true)
    requires next == result[..p] + "DOUBLE PRECISION" + result[p + 6..]
    ensures DoneUpTo(s, next, p + 16)
  {
    hide Doubles;
    assert result[p..][6..] == result[p + 6..];
    assert next[p + 16..] == result[p + 6..] && next[..p + 16] == result[..p] + "DOUBLE PRECISION";
    assert next[p + 15] == 'N';
  }

  /** Both halves of DOUBLE, blanks, PRECISION. */
  lemma CopyPair(s: string, inRun: bool, k: nat)
    requires DoubleAt(s) && 6 + k + 9 <= |s|
    requires (forall i :: 6 <= i < 6 + k ==> s[i] == ' ') && Upper(s[6 + k..6 + k + 9]) == PRECISION
    ensures Doubles(s, inRun) == s[..15 + k] + Doubles(s[15 + k..], true)
    ensures IsWordChar(s[14 + k])
  {
    hide Doubles, Precision, Upper;
    var r := s[6..];
    assert r[k..k + 9] == s[6 + k..6 + k + 9];
    UpperWord(r[k..k + 9], PRECISION);
    assert s[14 + k] == r[k..k + 9][8];
    assert r[k] == r[k..k + 9][0];
    SkipBlanks(r, k);
    AtDouble(s, inRun);
    CopyPrecision(r, k, true);
    assert r[k + 9..] == s[15 + k..] && s[..6] + r[..k + 9] == s[..15 + k];
  }

  lemma FindsDouble(r: string, j: nat)
    requires j <= |r|
    ensures StartsWith(Upper(r)[j..], DOUBLE) <==> DoubleAt(r[j..])
  {
    if j + 6 <= |r| {
      assert Upper(r)[j..][..6] == Upper(r[j..][..6]);
    }
  }

  predicate BlanksUpTo(s: string, from: nat, end: nat) {
    from <= end <= |s| && (forall i :: from <= i < end ==> s[i] == ' ') && (end < |s| ==> s[end] != ' ')
  }

  predicate PrecisionAt(s: string, i: nat) {
    i + 9 <= |s| && Upper(s[i..i + 9]) == PRECISION
  }

  lemma BlanksHere(result: string, idx: nat, followIdx: nat)
    requires BlanksUpTo(result, idx + 6, followIdx)
    ensures var at, k := result[idx..], followIdx - (idx + 6);
            && (forall i :: 6 <= i < 6 + k ==> at[i] == ' ')
            && (forall i :: 0 <= i < k ==> at[6..][i] == ' ')
            && (k < |at[6..]| ==> at[6..][k] != ' ')
            && (followIdx + 9 <= |result| ==> at[6 + k..6 + k + 9] == result[followIdx..followIdx + 9]
                                              && at[6..][k..k + 9] == result[followIdx..followIdx + 9])
  {
  }

  /** DOUBLE PRECISION is passed over. */
  lemma StepPair(s: string, result: string, idx: nat, followIdx: nat)
    requires idx <= |result| && DoneUpTo(s, result, idx) && DoubleAt(result[idx..])
    requires BlanksUpTo(result, idx + 6, followIdx) && PrecisionAt(result, followIdx)
    ensures DoneUpTo(s, result, followIdx + 9)
  {
    hide Doubles, Precision, Upper, DoneUpTo;
    BlanksHere(result, idx, followIdx);
    CopyPair(result[idx..], InRun(result, idx), followIdx - (idx + 6));
    PassOver(s, result, idx, followIdx + 9 - idx);
  }

  /** A lone DOUBLE is spliced when it is a whole word. */
  lemma StepDouble(s: string, result: string, idx: nat, followIdx: nat)
    requires idx <= |result| && DoneUpTo(s, result, idx) && DoubleAt(result[idx..])
    requires BlanksUpTo(result, idx + 6, followIdx) && !PrecisionAt(result, followIdx)
    ensures WholeAt(result, idx, DOUBLE) ==>
              DoneUpTo(s, result[..idx] + "DOUBLE PRECISION" + result[idx + 6..], idx + 16)
    ensures !WholeAt(result, idx, DOUBLE) ==> DoneUpTo(s, result, idx + 6)
  {
    hide Doubles, Precision, Upper, DoneUpTo;
    var at := result[idx..];
    BlanksHere(result, idx, followIdx);
    AtDouble(at, InRun(result, idx));
    SkipBlanks(at[6..], followIdx - (idx + 6));
    if WholeAt(result, idx, DOUBLE) {
      Splice(s, result, idx, result[..idx] + "DOUBLE PRECISION" + result[idx + 6..]);
    } else {
      UpperWord(at[..6], DOUBLE);
      assert result[idx + 5] == at[..6][5];
      PassOver(s, result, idx, 6);
    }
  }

  /** Index finds the next DOUBLE of any case. */
  lemma StepSearch(s: string, result: string, p: nat, found: nat)
    requires p <= |result| && DoneUpTo(s, result, p)
    requires found <= |result| - p + 1
    requires forall j :: 0 <= j < found && j <= |result| - p ==> !StartsWith(Upper(result[p..])[j..], DOUBLE)
    ensures DoneUpTo(s, result, if found <= |result| - p then p + found else |result|)
  {
    hide Doubles, Precision, Upper, DoneUpTo, StartsWith;
    var part := result[p..];
    forall j | 0 <= j < found && j <= |part| ensures !DoubleAt(part[j..]) {
      FindsDouble(part, j);
    }
    ToOccurrence(s, result, p, if found <= |part| then found else |part|);
  }

  lemma OccurrenceAt(result: string, p: nat, found: nat)
    requires p + found <= |result| && StartsWith(Upper(result[p..])[found..], DOUBLE)
    ensures DoubleAt(result[p + found..]) && p + found + 6 <= |result|
  {
    FindsDouble(result[p..], found);
    assert result[p..][found..] == result[p + found..];
  }

  /** replaceDoubleType */
  method ReplaceDoubleType(s: string) returns (result: string)
    ensures result == Doubles(s, false)
  {
    hide Doubles, Precision, Upper, StartsWith, DoneUpTo, DoubleAt;
    result := s;
    var searchPos := 0;
    Started(s);
    while true
      invariant 0 <= searchPos <= |result|
      invariant DoneUpTo(s, result, searchPos)
      decreases |result| - searchPos
    {
      var found := Index(Upper(result[searchPos..]), 0, DOUBLE);
      StepSearch(s, result, searchPos, found);
      if found > |result| - searchPos {
        break;
      }
      OccurrenceAt(result, searchPos, found);
      var idx := searchPos + found;
      var followIdx := idx + 6;
      while followIdx < |result| && result[followIdx] == ' '
        invariant idx + 6 <= followIdx <= |result|
        invariant forall i :: idx + 6 <= i < followIdx ==> result[i] == ' '
      {
        followIdx := followIdx + 1;
      }
      if followIdx + 9 <= |result| && Upper(result[followIdx..followIdx + 9]) == PRECISION {
        StepPair(s, result, idx, followIdx);
        searchPos := followIdx + 9;
        continue;
      }
      StepDouble(s, result, idx, followIdx);
      var before := idx == 0 || !IsWordChar(result[idx - 1]);
      var after := idx + 6 >= |result| || !IsWordChar(result[idx + 6]);
      if before && after {
        result := result[..idx] + "DOUBLE PRECISION" + result[idx + 6..];
        searchPos := idx + 16;
      } else {
        searchPos := idx + 6;
      }
    }
    Finished(s, result);
  }

  // ----------------------------------------------------------------- laws of the two passes

  predicate PrecisionWord(w: string) {
    |w| >= 9 && Upper(w[..9]) == PRECISION
  }

  predicate Breaks(s: string) {
    s == "" || !IsWordChar(s[0])
  }

  lemma {:induction false} PrecisionOfWord(w: string, rest: string)
    requires IsWord(w) && Breaks(rest)
    ensures Precision(w + rest) == PrecisionWord(w)
  {
    hide RunLength;
    var s := w + rest;
    assert s[0] == w[0];
    if |s| >= 9 && Upper(s[..9]) == PRECISION {
      LongRun(s);
      RunLengthConcat(w, rest);
      assert s[..9] == w[..9];
    } else if |w| >= 9 {
      assert s[..9] == w[..9];
    }
  }

  lemma NotPrecision(s: string)
    requires s != "" && !IsWordChar(s[0]) && s[0] != ' '
    ensures !Precision(s)
  {
    if |s| >= 9 {
      assert Upper(s[..9])[0] == UpperChar(s[0]);
    }
  }

  /** A text opens with a blank, with another separator, or with an identifier. */
  lemma {:induction false} SplitWord(s: string)
    requires s != "" && IsWordChar(s[0])
    ensures var n := RunLength(s); n >= 1 && IsWord(s[..n]) && Breaks(s[n..]) && s == s[..n] + s[n..]
  {
    hide RunLength;
  }

  lemma DoublesHead(s: string)
    ensures Breaks(s) ==> Doubles(s, true) == Doubles(s, false)
    ensures Doubles(s, true) == "" <==> s == ""
    ensures s != "" ==> Doubles(s, true)[0] == s[0]
  {
  }

  lemma DoublesWord(w: string, rest: string)
    requires IsWord(w) && Breaks(rest)
    ensures Doubles(w + rest, false) == (if Bare(w, rest) then "DOUBLE PRECISION" else w) + Doubles(rest, true)
  {
    hide Precision, Upper, RunLength;
    RunLengthConcat(w, rest);
    assert (w + rest)[..|w|] == w && (w + rest)[|w|..] == rest;
  }

  lemma DoublesSeparator(c: char, rest: string, inRun: bool)
    requires !IsWordChar(c)
    ensures Doubles([c] + rest, inRun) == [c] + Doubles(rest, false)
  {
    assert ([c] + rest)[1..] == rest;
  }

  lemma PrecisionAfterBlank(rest: string)
    ensures Precision(" " + rest) == Precision(rest)
  {
    assert (" " + rest)[1..] == rest;
  }

  /** Inserting PRECISION elsewhere does not change whether a text opens with it. */
  lemma {:induction false} DoublesKeepPrecision(s: string)
    ensures Precision(Doubles(s, false)) == Precision(s)
    decreases |s|
  {
    hide Doubles, Precision, Upper, RunLength;
    if s == "" {
      assert Doubles(s, false) == "" by { DoublesHead(s); }
    } else if s[0] == ' ' {
      assert s == " " + s[1..];
      DoublesSeparator(' ', s[1..], false);
      DoublesKeepPrecision(s[1..]);
      PrecisionAfterBlank(s[1..]);
      PrecisionAfterBlank(Doubles(s[1..], false));
    } else if !IsWordChar(s[0]) {
      assert s == [s[0]] + s[1..];
      DoublesSeparator(s[0], s[1..], false);
      NotPrecision(s);
      NotPrecision(Doubles(s, false));
    } else {
      SplitWord(s);
      KeepPrecisionWord(s[..RunLength(s)], s[RunLength(s)..]);
    }
  }

  lemma KeepPrecisionWord(w: string, rest: string)
    requires IsWord(w) && Breaks(rest)
    ensures Precision(Doubles(w + rest, false)) == Precision(w + rest)
  {
    hide Doubles, Precision, Upper, RunLength;
    DoublesWord(w, rest);
    PrecisionOfWord(w, rest);
    var y := Doubles(rest, true);
    DoublesHead(rest);
    if Bare(w, rest) {
      assert "DOUBLE PRECISION" + y == DOUBLE + (" PRECISION" + y);
      PrecisionOfWord(DOUBLE, " PRECISION" + y);
    } else {
      PrecisionOfWord(w, y);
    }
  }

  /** DOUBLE PRECISION is left alone. */
  lemma DoublesPair(y: string)
    requires Breaks(y)
    ensures Doubles("DOUBLE PRECISION" + y, false) == "DOUBLE PRECISION" + Doubles(y, true)
  {
    hide Doubles, Precision, Upper, RunLength, Bare;
    var p := PRECISION + y;
    assert "DOUBLE PRECISION" + y == DOUBLE + (" " + p);
    PairIsKept(y);
    DoublesWord(DOUBLE, " " + p);
    DoublesSeparator(' ', p, true);
    DoublesWord(PRECISION, y);
    NotBare(PRECISION, y);
    assert DOUBLE + (" " + (PRECISION + Doubles(y, true))) == "DOUBLE PRECISION" + Doubles(y, true);
  }

  lemma PairIsKept(y: string)
    requires Breaks(y)
    ensures !Bare(DOUBLE, " " + (PRECISION + y))
  {
    hide Precision, RunLength;
    assert Upper(PRECISION[..9]) == PRECISION;
    PrecisionOfWord(PRECISION, y);
    PrecisionAfterBlank(PRECISION + y);
  }

  lemma {:induction false} DoublesIdempotent(s: string, inRun: bool)
    ensures Doubles(Doubles(s, inRun), inRun) == Doubles(s, inRun)
    decreases |s|
  {
    hide Precision, Upper, RunLength;
    if s == "" {
    } else if !IsWordChar(s[0]) || inRun {
      DoublesIdempotent(s[1..], IsWordChar(s[0]));
      var y := Doubles(s[1..], IsWordChar(s[0]));
      assert Doubles(s, inRun) == [s[0]] + y && ([s[0]] + y)[1..] == y;
    } else {
      SplitWord(s);
      var n := RunLength(s);
      DoublesIdempotent(s[n..], true);
      DoublesIdempotentWord(s[..n], s[n..]);
    }
  }

  lemma DoublesIdempotentWord(w: string, rest: string)
    requires IsWord(w) && Breaks(rest)
    requires Doubles(Doubles(rest, true), true) == Doubles(rest, true)
    ensures Doubles(Doubles(w + rest, false), false) == Doubles(w + rest, false)
  {
    hide Doubles, Precision, Upper, RunLength;
    DoublesWord(w, rest);
    var y := Doubles(rest, true);
    DoublesHead(rest);
    if Bare(w, rest) {
      DoublesPair(y);
    } else {
      DoublesWord(w, y);
      DoublesKeepPrecision(rest);
    }
  }

  /** A table that neither reads nor writes the words of DOUBLE PRECISION. */
  predicate Neutral(t: Table) {
    WordTable(t) && forall k :: k in t ==> Plain(k) && Plain(t[k])
  }

  predicate Plain(w: string) {
    Upper(w) != DOUBLE && !PrecisionWord(w)
  }

  lemma MapWord(w: string, rest: string, t: Table)
    requires IsWord(w) && Breaks(rest)
    ensures MapWords(w + rest, false, t) == Subst(w, t) + MapWords(rest, true, t)
  {
    hide RunLength;
    RunLengthConcat(w, rest);
    assert (w + rest)[..|w|] == w && (w + rest)[|w|..] == rest;
  }

  lemma MapSeparator(c: char, rest: string, inRun: bool, t: Table)
    requires !IsWordChar(c)
    ensures MapWords([c] + rest, inRun, t) == [c] + MapWords(rest, false, t)
  {
    assert ([c] + rest)[1..] == rest;
  }

  lemma {:induction false} MapKeepsPrecision(s: string, t: Table)
    requires Neutral(t)
    ensures Precision(MapWords(s, false, t)) == Precision(s)
    decreases |s|
  {
    hide MapWords, Precision, Upper, RunLength;
    if s == "" {
      assert MapWords(s, false, t) == "" by { MapWordsHead(s, t); FlagIrrelevant(s, true, false, t); }
    } else if s[0] == ' ' {
      assert s == " " + s[1..];
      MapSeparator(' ', s[1..], false, t);
      MapKeepsPrecision(s[1..], t);
      PrecisionAfterBlank(s[1..]);
      PrecisionAfterBlank(MapWords(s[1..], false, t));
    } else if !IsWordChar(s[0]) {
      assert s == [s[0]] + s[1..];
      MapSeparator(s[0], s[1..], false, t);
      NotPrecision(s);
      NotPrecision(MapWords(s, false, t));
    } else {
      SplitWord(s);
      var w, rest := s[..RunLength(s)], s[RunLength(s)..];
      MapWord(w, rest, t);
      MapWordsHead(rest, t);
      PrecisionOfWord(w, rest);
      PrecisionOfWord(Subst(w, t), MapWords(rest, true, t));
    }
  }

  /** The two passes commute. */
  lemma {:induction false} PassesCommute(s: string, inRun: bool, t: Table)
    requires Neutral(t)
    ensures Doubles(MapWords(s, inRun, t), inRun) == MapWords(Doubles(s, inRun), inRun, t)
    decreases |s|
  {
    hide Precision, Upper, RunLength, Neutral;
    if s == "" {
    } else if !IsWordChar(s[0]) || inRun {
      PassesCommute(s[1..], IsWordChar(s[0]), t);
      var y, z := Doubles(s[1..], IsWordChar(s[0])), MapWords(s[1..], IsWordChar(s[0]), t);
      assert ([s[0]] + y)[1..] == y && ([s[0]] + z)[1..] == z;
    } else {
      SplitWord(s);
      var n := RunLength(s);
      PassesCommute(s[n..], true, t);
      CommuteWord(s[..n], s[n..], t);
    }
  }

  lemma CommuteWord(w: string, rest: string, t: Table)
    requires Neutral(t) && IsWord(w) && Breaks(rest)
    requires Doubles(MapWords(rest, true, t), true) == MapWords(Doubles(rest, true), true, t)
    ensures Doubles(MapWords(w + rest, false, t), false) == MapWords(Doubles(w + rest, false), false, t)
  {
    hide Doubles, MapWords, Precision, Upper, RunLength;
    var y, z := Doubles(rest, true), MapWords(rest, true, t);
    DoublesWord(w, rest);
    MapWord(w, rest, t);
    DoublesHead(rest);
    MapWordsHead(rest, t);
    DoublesWord(Subst(w, t), z);
    FlagIrrelevant(rest, true, false, t);
    MapKeepsPrecision(rest, t);
    if Bare(w, rest) {
      MapPair(y, t);
    } else {
      MapWord(w, y, t);
    }
  }

  lemma MapPair(y: string, t: Table)
    requires Neutral(t) && Breaks(y)
    ensures MapWords("DOUBLE PRECISION" + y, false, t) == "DOUBLE PRECISION" + MapWords(y, true, t)
  {
    hide MapWords, Precision, RunLength;
    assert Upper(DOUBLE) == DOUBLE && Upper(PRECISION[..9]) == PRECISION;
    var p := PRECISION + y;
    assert "DOUBLE PRECISION" + y == DOUBLE + (" " + p);
    MapWord(DOUBLE, " " + p, t);
    MapSeparator(' ', p, true, t);
    MapWord(PRECISION, y, t);
    assert DOUBLE + (" " + (PRECISION + MapWords(y, true, t))) == "DOUBLE PRECISION" + MapWords(y, true, t);
  }

  // ------------------------------------------------------------------------- convertTypes

  /** The words that convertTypes replaces. */
  const TYPE_TABLE: Table := map[
    "TINYTEXT" := "TEXT", "tinytext" := "text", "MEDIUMTEXT" := "TEXT", "mediumtext" := "text",
    "LONGTEXT" := "TEXT", "longtext" := "text", "BLOB" := "BYTEA", "blob" := "bytea",
    "JSON" := "JSONB", "json" := "jsonb"]

  lemma TypeWords()
    ensures IsWord("TINYTEXT") && IsWord("tinytext") && IsWord("MEDIUMTEXT") && IsWord("mediumtext")
    ensures IsWord("LONGTEXT") && IsWord("longtext") && IsWord("BLOB") && IsWord("blob")
    ensures IsWord("JSON") && IsWord("json") && IsWord("TEXT") && IsWord("text")
    ensures IsWord("BYTEA") && IsWord("bytea") && IsWord("JSONB") && IsWord("jsonb")
    ensures WordTable(map[])
  {
  }

  /** convertTypes: eleven passes are one pass over DOUBLE and one simultaneous substitution. */
  method ConvertTypes(sql: string) returns (result: string)
    ensures result == MapWords(Doubles(sql, false), false, TYPE_TABLE)
  {
    hide Doubles, MapWords, IsWord, WordTable;
    TypeWords();
    result := ReplaceDoubleType(sql);
    ghost var s, t := result, map[];
    EmptyTable(s, false);
    result := ReplaceWord(result, "TINYTEXT", "TEXT");
    AddWord(s, t, "TINYTEXT", "TEXT");
    t := t["TINYTEXT" := "TEXT"];
    result := ReplaceWord(result, "tinytext", "text");
    AddWord(s, t, "tinytext", "text");
    t := t["tinytext" := "text"];
    result := ReplaceWord(result, "MEDIUMTEXT", "TEXT");
    AddWord(s, t, "MEDIUMTEXT", "TEXT");
    t := t["MEDIUMTEXT" := "TEXT"];
    result := ReplaceWord(result, "mediumtext", "text");
    AddWord(s, t, "mediumtext", "text");
    t := t["mediumtext" := "text"];
    result := ReplaceWord(result, "LONGTEXT", "TEXT");
    AddWord(s, t, "LONGTEXT", "TEXT");
    t := t["LONGTEXT" := "TEXT"];
    result := ReplaceWord(result, "longtext", "text");
    AddWord(s, t, "longtext", "text");
    t := t["longtext" := "text"];
    result := ReplaceWord(result, "BLOB", "BYTEA");
    AddWord(s, t, "BLOB", "BYTEA");
    t := t["BLOB" := "BYTEA"];
    result := ReplaceWord(result, "blob", "bytea");
    AddWord(s, t, "blob", "bytea");
    t := t["blob" := "bytea"];
    result := ReplaceWord(result, "JSON", "JSONB");
    AddWord(s, t, "JSON", "JSONB");
    t := t["JSON" := "JSONB"];
    result := ReplaceWord(result, "json", "jsonb");
    AddWord(s, t, "json", "jsonb");
    t := t["json" := "jsonb"];
    assert t == TYPE_TABLE;
  }

  lemma TypesArePlain()
    ensures Neutral(TYPE_TABLE) && WordTable(TYPE_TABLE)
  {
    hide Upper, IsWord, Plain;
    TypeWords();
    forall k | k in TYPE_TABLE ensures Plain(k) && Plain(TYPE_TABLE[k]) {
      TypeInitials(k);
      PlainType(k);
      PlainType(TYPE_TABLE[k]);
    }
  }

  lemma TypeInitials(k: string)
    requires k in TYPE_TABLE
    ensures k != "" && UpperChar(k[0]) != 'D' && UpperChar(k[0]) != 'P'
    ensures var v := TYPE_TABLE[k]; v != "" && UpperChar(v[0]) != 'D' && UpperChar(v[0]) != 'P'
  {
  }

  lemma TypesAreFinal()
    ensures forall k :: k in TYPE_TABLE ==> TYPE_TABLE[k] !in TYPE_TABLE
  {
  }

  /** A word that does not open with a D or a P has nothing to do with DOUBLE PRECISION. */
  lemma PlainType(w: string)
    requires w != "" && UpperChar(w[0]) != 'D' && UpperChar(w[0]) != 'P'
    ensures Plain(w)
  {
    assert Upper(w)[0] == UpperChar(w[0]);
    if |w| >= 9 {
      assert Upper(w[..9])[0] == UpperChar(w[0]);
    }
  }

  /** Converting twice is converting once. */
  lemma ConvertTypesIdempotent(s: string)
    ensures var once := MapWords(Doubles(s, false), false, TYPE_TABLE);
            MapWords(Doubles(once, false), false, TYPE_TABLE) == once
  {
    hide Doubles, MapWords, Neutral;
    var d := Doubles(s, false);
    TypesArePlain();
    TypesAreFinal();
    PassesCommute(d, false, TYPE_TABLE);
    DoublesIdempotent(s, false);
    MapIdempotent(d, TYPE_TABLE);
  }

  /** A separator cuts the text into two that are mapped on their own. */
  lemma {:induction false} MapSplits(head: string, rest: string, inRun: bool, t: Table)
    requires head != "" ==> !IsWordChar(head[|head| - 1])
    ensures MapWords(head + rest, inRun, t) == MapWords(head, inRun, t) + MapWords(rest, inRun && head == "", t)
    decreases |head|, 1
  {
    hide MapWords, RunLength;
    if head == "" {
      assert head + rest == rest && MapWords("", inRun, t) == "" by { MapWordsHead("", t); FlagIrrelevant("", true, inRun, t); }
    } else if !IsWordChar(head[0]) || inRun {
      assert head == [head[0]] + head[1..];
      MapSplitsAfter(head[0], head[1..], rest, inRun, t);
    } else {
      SplitWord(head);
      var w, h := head[..RunLength(head)], head[RunLength(head)..];
      assert head + rest == w + (h + rest);
      MapSplits(h, rest, true, t);
      MapWord(w, h, t);
      MapWord(w, h + rest, t);
    }
  }

  lemma {:induction false} MapSplitsAfter(c: char, h: string, rest: string, inRun: bool, t: Table)
    requires !IsWordChar(c) || (inRun && h != "")
    requires h != "" ==> !IsWordChar(h[|h| - 1])
    ensures MapWords([c] + h + rest, inRun, t) == MapWords([c] + h, inRun, t) + MapWords(rest, false, t)
    decreases |h|, 2
  {
    hide MapWords, RunLength;
    assert [c] + h + rest == [c] + (h + rest);
    MapSplits(h, rest, IsWordChar(c), t);
    if IsWordChar(c) {
      CopyChars([c], h + rest, t);
      CopyChars([c], h, t);
    } else {
      MapSeparator(c, h + rest, inRun, t);
      MapSeparator(c, h, inRun, t);
    }
  }

  /** Whether a text opens with PRECISION is settled before a separator that ends it. */
  lemma {:induction false} PrecisionBefore(h: string, rest: string)
    requires !Precision(rest) && EndsInSeparator(h)
    ensures Precision(h + rest) == Precision(h)
    decreases |h|
  {
    hide Precision, Upper, RunLength;
    if h == "" {
      assert h + rest == rest;
      assert !Precision("") by { NoPrecision(); }
    } else if h[0] == ' ' {
      var x := h[1..];
      assert h == " " + x && h + rest == " " + (x + rest);
      PrecisionBefore(x, rest);
      PrecisionAfterBlank(x);
      PrecisionAfterBlank(x + rest);
    } else if !IsWordChar(h[0]) {
      NotPrecision(h);
      NotPrecision(h + rest);
    } else {
      SplitWord(h);
      var w, x := h[..RunLength(h)], h[RunLength(h)..];
      assert h + rest == w + (x + rest);
      PrecisionOfWord(w, x);
      PrecisionOfWord(w, x + rest);
    }
  }

  lemma NoPrecision()
    ensures !Precision("")
  {
  }

  predicate EndsInSeparator(s: string) {
    s != "" ==> !IsWordChar(s[|s| - 1])
  }

  /** A separator cuts the text for the DOUBLE pass too; only a PRECISION behind it reaches back. */
  lemma {:induction false} DoublesSplit(head: string, rest: string, inRun: bool) returns (p: string)
    requires EndsInSeparator(head)
    ensures Doubles(head + rest, inRun) == p + Doubles(rest, inRun && head == "")
    ensures EndsInSeparator(p) && (head != "" ==> p != "") && (!Precision(rest) ==> p == Doubles(head, inRun))
    decreases |head|
  {
    hide Doubles, Precision, Upper, RunLength;
    if head == "" {
      assert head + rest == rest && Doubles("", inRun) == "" by { DoublesEmpty(inRun); }
      p := "";
    } else if !IsWordChar(head[0]) || inRun {
      var c, h := head[0], head[1..];
      var q := DoublesSplit(h, rest, IsWordChar(c));
      assert head == [c] + h && head + rest == [c] + (h + rest);
      DoublesCopy(c, h, inRun);
      DoublesCopy(c, h + rest, inRun);
      p := [c] + q;
    } else {
      SplitWord(head);
      var w, h := head[..RunLength(head)], head[RunLength(head)..];
      var q := DoublesSplit(h, rest, true);
      assert head + rest == w + (h + rest);
      DoublesWord(w, h);
      DoublesWord(w, h + rest);
      p := (if Bare(w, h + rest) then "DOUBLE PRECISION" else w) + q;
      if !Precision(rest) {
        PrecisionBefore(h, rest);
      }
    }
  }

  lemma DoublesEmpty(inRun: bool)
    ensures Doubles("", inRun) == ""
  {
  }

  lemma DoublesCopy(c: char, h: string, inRun: bool)
    requires !IsWordChar(c) || inRun
    ensures Doubles([c] + h, inRun) == [c] + Doubles(h, IsWordChar(c))
  {
    assert ([c] + h)[1..] == h;
  }

  /** What the whole conversion makes of an identifier other than DOUBLE, wherever it stands: its entry in the table.  The
      text before it is converted on its own, except that a name opening with PRECISION keeps a DOUBLE before it as it is. */
  lemma NameConverted(head: string, w: string, tail: string, t: Table) returns (p: string)
    requires IsWord(w) && Upper(w) != DOUBLE && Breaks(tail) && EndsInSeparator(head)
    ensures MapWords(Doubles(head + (w + tail), false), false, t)
         == MapWords(p, false, t) + (Subst(w, t) + MapWords(Doubles(tail, false), false, t))
    ensures !PrecisionWord(w) ==> p == Doubles(head, false)
  {
    hide MapWords, Doubles, Precision, Upper, RunLength;
    p := DoublesSplit(head, w + tail, false);
    PrecisionOfWord(w, tail);
    DoublesWord(w, tail);
    DoublesHead(tail);
    var rest := Doubles(tail, true);
    MapSplits(p, w + rest, false, t);
    MapWord(w, rest, t);
    FlagIrrelevant(rest, true, false, t);
  }

  /** An identifier that merely contains a type name is untouched. */
  lemma OtherNamesUntouched(head: string, w: string, tail: string, t: Table) returns (p: string)
    requires IsWord(w) && w !in t && Upper(w) != DOUBLE && Breaks(tail) && EndsInSeparator(head)
    ensures MapWords(Doubles(head + (w + tail), false), false, t)
         == MapWords(p, false, t) + (w + MapWords(Doubles(tail, false), false, t))
    ensures !PrecisionWord(w) ==> p == Doubles(head, false)
  {
    hide MapWords, Doubles, Precision, Upper, RunLength;
    p := NameConverted(head, w, tail, t);
  }

  /** The ten type words and what they become, each in both cases. */
  predicate TypeWord(w: string, v: string) {
    || (v == "TEXT" && (w == "TINYTEXT" || w == "MEDIUMTEXT" || w == "LONGTEXT"))
    || (v == "text" && (w == "tinytext" || w == "mediumtext" || w == "longtext"))
    || (w == "BLOB" && v == "BYTEA") || (w == "blob" && v == "bytea")
    || (w == "JSON" && v == "JSONB") || (w == "json" && v == "jsonb")
  }

  /** Each of them is converted wherever it stands as a whole word, and the text around it on its own. */
  lemma TypeWordConverted(head: string, w: string, v: string, tail: string)
    requires TypeWord(w, v) && Breaks(tail) && EndsInSeparator(head)
    ensures MapWords(Doubles(head + (w + tail), false), false, TYPE_TABLE)
         == MapWords(Doubles(head, false), false, TYPE_TABLE)
            + (v + MapWords(Doubles(tail, false), false, TYPE_TABLE))
  {
    hide MapWords, Doubles, Precision, RunLength, IsWord, Upper;
    TypeWords();
    assert w in TYPE_TABLE && TYPE_TABLE[w] == v;
    TypeInitials(w);
    PlainType(w);
    var p := NameConverted(head, w, tail, TYPE_TABLE);
  }

  /** A whole word DOUBLE in any case becomes DOUBLE PRECISION unless PRECISION follows. */
  lemma DoubleConverted(head: string, w: string, tail: string)
    requires IsWord(w) && Upper(w) == "DOUBLE" && Breaks(tail) && EndsInSeparator(head)
    ensures Doubles(head + (w + tail), false)
         == Doubles(head, false) + ((if Precision(tail) then w else "DOUBLE PRECISION") + Doubles(tail, false))
  {
    hide Doubles, Precision, Upper, RunLength;
    var p := DoublesSplit(head, w + tail, false);
    assert |w| == |Upper(w)|;
    PrecisionOfWord(w, tail);
    DoublesWord(w, tail);
    DoublesHead(tail);
  }

  /** For example tinytext_col. */
  lemma TinytextColUntouched(head: string, tail: string)
    requires Breaks(tail) && EndsInSeparator(head)
    ensures MapWords(Doubles(head + ("tinytext_col" + tail), false), false, TYPE_TABLE)
         == MapWords(Doubles(head, false), false, TYPE_TABLE)
            + ("tinytext_col" + MapWords(Doubles(tail, false), false, TYPE_TABLE))
  {
    hide MapWords, Doubles, Precision, RunLength;
    TinytextColIsNoTypeName();
    PlainType("tinytext_col");
    var p := OtherNamesUntouched(head, "tinytext_col", tail, TYPE_TABLE);
  }

  lemma TinytextColIsNoTypeName()
    ensures "tinytext_col" !in TYPE_TABLE && IsWord("tinytext_col")
  {
  }
}
