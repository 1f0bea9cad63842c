/** Character classes and substring search shared by the classifier and the
    path builder: ASCII case folding, the whitespace class of JavaScript
    regular expressions, `String.prototype.indexOf`, and the left-to-right,
    non-overlapping occurrence scan that both `matchAll` with a literal
    pattern and the blacklist search perform. */
module Text {

  predicate IsAsciiUpper(c: char) { 'A' <= c <= 'Z' }

  predicate IsAsciiLetter(c: char) { 'a' <= c <= 'z' || 'A' <= c <= 'Z' }

  predicate IsDigit(c: char) { '0' <= c <= '9' }

  /** `toLowerCase` restricted to ASCII: upper-case letters map to lower case,
      every other character is left alone. */
  function LowerChar(c: char): (r: char)
    ensures IsAsciiUpper(c) ==> r as int == c as int + 32
    ensures !IsAsciiUpper(c) ==> r == c
    ensures !IsAsciiUpper(r)
  {
    if IsAsciiUpper(c) then (c as int + 32) as char else c
  }

  function Lower(s: string): (r: string)
    ensures |r| == |s|
    ensures forall i :: 0 <= i < |s| ==> r[i] == LowerChar(s[i])
  {
    seq(|s|, i requires 0 <= i < |s| => LowerChar(s[i]))
  }

  /** Lower-casing commutes with slicing. */
  lemma LowerSlice(s: string, i: nat, j: nat)
    requires i <= j <= |s|
    ensures Lower(s[i..j]) == Lower(s)[i..j]
  {
    var t := s[i..j];
    var u := Lower(s)[i..j];
    assert forall x :: 0 <= x < |t| ==> t[x] == s[i + x] && u[x] == Lower(s)[i + x];
    assert forall x :: 0 <= x < |t| ==> Lower(t)[x] == u[x];
  }

  /** The characters matched by `\s` in a JavaScript regular expression. */
  predicate IsJsWhitespace(c: char) {
    c == '\t' || c == '\n' || c as int == 0x0B || c as int == 0x0C || c == '\r' || c == ' '
    || c as int == 0xA0 || c as int == 0x1680 || 0x2000 <= c as int <= 0x200A
    || c as int == 0x2028 || c as int == 0x2029 || c as int == 0x202F
    || c as int == 0x205F || c as int == 0x3000 || c as int == 0xFEFF
  }

  /** `pat` occurs in `text` starting at position `i`. */
  predicate OccursAt(text: string, pat: string, i: int) {
    0 <= i && i + |pat| <= |text| && text[i..i + |pat|] == pat
  }

  /** Character-by-character comparison of `pat[k..]` with the text at
      `i + k` (see MatchesFromIff); written this way so that it evaluates on
      constant strings. */
  predicate MatchesFrom(text: string, pat: string, i: nat, k: nat)
    requires i + |pat| <= |text| && k <= |pat|
    decreases |pat| - k
  {
    k == |pat| || (text[i + k] == pat[k] && MatchesFrom(text, pat, i, k + 1))
  }

  lemma {:induction false} MatchesFromIff(text: string, pat: string, i: nat, k: nat)
    requires i + |pat| <= |text| && k <= |pat|
    ensures MatchesFrom(text, pat, i, k) <==> text[i + k..i + |pat|] == pat[k..]
    decreases |pat| - k
  {
    if k < |pat| {
      MatchesFromIff(text, pat, i, k + 1);
      assert text[i + k..i + |pat|] == [text[i + k]] + text[i + k + 1..i + |pat|];
      assert pat[k..] == [pat[k]] + pat[k + 1..];
    }
  }

  /** `text.indexOf(pat, from)`: the first position at or after `from` where
      `pat` occurs, or -1 (see IndexOfSpec). */
  function IndexOf(text: string, pat: string, from: nat): (r: int)
    requires from <= |text|
    ensures r == -1 || from <= r <= |text| - |pat|
    decreases |text| - from
  {
    if from + |pat| > |text| then -1
    else if MatchesFrom(text, pat, from, 0) then from
    else IndexOf(text, pat, from + 1)
  }

  lemma {:induction false} IndexOfSpec(text: string, pat: string, from: nat)
    requires from <= |text|
    ensures IndexOf(text, pat, from) == -1 ||
      (from <= IndexOf(text, pat, from) && OccursAt(text, pat, IndexOf(text, pat, from)))
    ensures IndexOf(text, pat, from) == -1 ==> forall i :: from <= i ==> !OccursAt(text, pat, i)
    ensures forall i :: from <= i < IndexOf(text, pat, from) ==> !OccursAt(text, pat, i)
    decreases |text| - from
  {
    if from + |pat| <= |text| {
      MatchesFromIff(text, pat, from, 0);
      if !MatchesFrom(text, pat, from, 0) {
        IndexOfSpec(text, pat, from + 1);
      }
    }
  }

  /** The search passes over every position whose character differs from
      the first character of `pat`. */
  lemma {:induction false} IndexOfSkip(text: string, pat: string, from: nat, to: nat)
    requires pat != [] && from <= to <= |text|
    requires forall i :: from <= i < to ==> text[i] != pat[0]
    ensures IndexOf(text, pat, from) == IndexOf(text, pat, to)
    decreases |text| - from
  {
    if from < to && from + |pat| <= |text| {
      assert !MatchesFrom(text, pat, from, 0);
      IndexOfSkip(text, pat, from + 1, to);
    } else if from < to {
      IndexOfPastEnd(text, pat, from, to);
    }
  }

  lemma {:induction false} IndexOfPastEnd(text: string, pat: string, from: nat, to: nat)
    requires from <= to <= |text| && from + |pat| > |text|
    ensures IndexOf(text, pat, from) == -1 == IndexOf(text, pat, to)
  {
  }

  /** The occurrences of a non-empty `pat` found by scanning `text` from
      `from`, each search resuming right after the previous occurrence. */
  function Occurrences(text: string, pat: string, from: nat): (r: seq<nat>)
    requires pat != [] && from <= |text|
    decreases |text| - from
  {
    var i := IndexOf(text, pat, from);
    if i == -1 then [] else [i] + Occurrences(text, pat, i + |pat|)
  }

  /** Every reported position is a real occurrence at or after `from`, and
      consecutive ones do not overlap. */
  lemma {:induction false} OccurrencesSound(text: string, pat: string, from: nat)
    requires pat != [] && from <= |text|
    ensures forall k :: 0 <= k < |Occurrences(text, pat, from)| ==>
      from <= Occurrences(text, pat, from)[k] && OccursAt(text, pat, Occurrences(text, pat, from)[k])
    ensures forall k :: 0 <= k < |Occurrences(text, pat, from)| - 1 ==>
      Occurrences(text, pat, from)[k] + |pat| <= Occurrences(text, pat, from)[k + 1]
    decreases |text| - from
  {
    var i := IndexOf(text, pat, from);
    IndexOfSpec(text, pat, from);
    if i != -1 {
      OccurrencesSound(text, pat, i + |pat|);
    }
  }

  /** The scan misses no occurrence except those overlapping a reported one:
      every occurrence at or after `from` starts inside some reported match. */
  lemma {:induction false} OccurrencesCover(text: string, pat: string, from: nat, j: int)
    requires pat != [] && from <= |text|
    requires from <= j && OccursAt(text, pat, j)
    ensures exists k :: (0 <= k < |Occurrences(text, pat, from)| &&
      Occurrences(text, pat, from)[k] <= j < Occurrences(text, pat, from)[k] + |pat|)
    decreases |text| - from
  {
    var i := IndexOf(text, pat, from);
    var occ := Occurrences(text, pat, from);
    IndexOfSpec(text, pat, from);
    assert i != -1;
    assert occ[0] == i;
    if j >= i + |pat| {
      OccurrencesCover(text, pat, i + |pat|, j);
      var k :| 0 <= k < |Occurrences(text, pat, i + |pat|)| &&
        Occurrences(text, pat, i + |pat|)[k] <= j < Occurrences(text, pat, i + |pat|)[k] + |pat|;
      assert occ[k + 1] == Occurrences(text, pat, i + |pat|)[k];
    } else {
      assert occ[0] <= j < occ[0] + |pat|;
    }
  }

  /** One step of a scan that visits the occurrences left to right: the
      occurrence found at `i` moves from those still ahead to those visited,
      and the search resumes after it. */
  lemma OccurrencesStep(text: string, pat: string, from: nat, visited: seq<nat>, i: int)
    requires pat != [] && from <= |text|
    requires Occurrences(text, pat, 0) == visited + Occurrences(text, pat, from)
    requires i == IndexOf(text, pat, from) && i != -1
    ensures from < i + |pat| <= |text|
    ensures Occurrences(text, pat, 0) == (visited + [i]) + Occurrences(text, pat, i + |pat|)
  {
    var rest := Occurrences(text, pat, i + |pat|);
    assert Occurrences(text, pat, from) == [i] + rest;
    assert visited + ([i] + rest) == (visited + [i]) + rest;
  }

  /** An occurrence that no reported match overlaps from the left is
      reported: in particular the first occurrence always is. */
  lemma {:induction false} FirstOccurrenceReported(text: string, pat: string, j: int)
    requires pat != [] && OccursAt(text, pat, j)
    requires forall i :: 0 <= i < j ==> !OccursAt(text, pat, i)
    ensures |Occurrences(text, pat, 0)| > 0 && Occurrences(text, pat, 0)[0] == j
  {
    IndexOfSpec(text, pat, 0);
  }
}
