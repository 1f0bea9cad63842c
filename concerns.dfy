/** Concern extraction, `concerningTexts` (src/main.ts:116-142): every
    case-insensitive occurrence of a concerning word is reported together
    with the sentence around it, so that a person can review it. */
module Concerns {
  import opened Text
  import opened Common

  const SentenceSeparators: seq<char> := ['.', '!', '?', ':', ';', '-', '\n']

  const ConcerningWords: seq<string> := ["student", "sharer", "deler", "couple"]

  predicate IsSeparator(c: char) { c in SentenceSeparators }

  /** `sentenceSeparators.includes(description.charAt(i))`; `charAt` past the
      end gives the empty string, which is no separator. */
  predicate SeparatorAt(d: string, i: int) { 0 <= i < |d| && IsSeparator(d[i]) }

  /** The test of the forward skip at line 132: a separator, a newline or a
      space. */
  predicate BlankAt(d: string, i: int) {
    0 <= i < |d| && (IsSeparator(d[i]) || d[i] == '\n' || d[i] == ' ')
  }

  // ---------------------------------------------------------------------
  // Specification

  /** The matches of one word: `matchAll(new RegExp(word, 'gi'))` finds the
      occurrences in the lower-cased text left to right, each search resuming
      after the previous match; the reported text keeps the original case. */
  function WordMatches(d: string, word: string): seq<ConcerningMatch>
    requires word != []
  {
    OccurrencesSound(Lower(d), word, 0);
    MatchesAt(d, |word|, Occurrences(Lower(d), word, 0))
  }

  function MatchesAt(d: string, len: nat, occ: seq<nat>): (r: seq<ConcerningMatch>)
    requires forall k :: 0 <= k < |occ| ==> occ[k] + len <= |d|
    ensures |r| == |occ|
    ensures forall k :: 0 <= k < |occ| ==>
      r[k] == ConcerningMatch(occ[k], d[occ[k]..occ[k] + len], None)
  {
    if occ == [] then [] else MatchesAt(d, len, occ[..|occ| - 1]) + [ConcerningMatch(occ[|occ| - 1], d[occ[|occ| - 1]..occ[|occ| - 1] + len], None)]
  }

  /** The matches of the words `words`, word by word. */
  function RawMatches(d: string, words: seq<string>): seq<ConcerningMatch>
    requires forall w :: 0 <= w < |words| ==> words[w] != []
  {
    if words == [] then []
    else RawMatches(d, words[..|words| - 1]) + WordMatches(d, words[|words| - 1])
  }

  /** The backward walk of line 129: from `i` down to a separator or to 0. */
  function ScanBack(d: string, i: nat): nat {
    if i > 0 && !SeparatorAt(d, i) then ScanBack(d, i - 1) else i
  }

  /** The forward skip of line 132 over separators, newlines and spaces. */
  function SkipBlanks(d: string, i: nat): nat
    decreases |d| - i
  {
    if BlankAt(d, i) then SkipBlanks(d, i + 1) else i
  }

  /** The forward walk of line 134: up to a separator or to the end. */
  function ScanForward(d: string, j: nat): nat
    decreases |d| - j
  {
    if j < |d| && !SeparatorAt(d, j) then ScanForward(d, j + 1) else j
  }

  /** `s.substring(a, b)`: both ends clamped to the string, swapped if out of
      order. */
  function Substring(s: string, a: int, b: int): string {
    var a' := if a < 0 then 0 else if a > |s| then |s| else a;
    var b' := if b < 0 then 0 else if b > |s| then |s| else b;
    if a' <= b' then s[a'..b'] else s[b'..a']
  }

  function SentenceStart(d: string, i: nat): nat {
    SkipBlanks(d, ScanBack(d, i))
  }

  /** Lines 128-138 applied to one match. */
  function Expand(d: string, m: ConcerningMatch): ConcerningMatch
    requires m.index >= 0
  {
    var start := SentenceStart(d, m.index);
    var end := ScanForward(d, start + 1);
    m.(concerningSentence := Some(Substring(d, start, end)), index := m.index - start)
  }

  /** What `concerningTexts(d)` returns. */
  function Flagged(d: string): (r: seq<ConcerningMatch>)
    ensures |r| == |RawMatches(d, ConcerningWords)|
  {
    var raw := RawMatches(d, ConcerningWords);
    RawIndexNonNegative(d, ConcerningWords);
    seq(|raw|, k requires 0 <= k < |raw| => Expand(d, raw[k]))
  }

  lemma {:induction false} RawIndexNonNegative(d: string, words: seq<string>)
    requires forall w :: 0 <= w < |words| ==> words[w] != []
    ensures forall k :: 0 <= k < |RawMatches(d, words)| ==> RawMatches(d, words)[k].index >= 0
  {
    if words != [] {
      RawIndexNonNegative(d, words[..|words| - 1]);
    }
  }

  // ---------------------------------------------------------------------
  // What the walks find

  lemma {:induction false} ScanBackFacts(d: string, i: nat)
    ensures ScanBack(d, i) <= i
    ensures ScanBack(d, i) == 0 || SeparatorAt(d, ScanBack(d, i))
    ensures forall j :: ScanBack(d, i) < j <= i ==> !SeparatorAt(d, j)
  {
    if i > 0 && !SeparatorAt(d, i) {
      ScanBackFacts(d, i - 1);
    }
  }

  lemma {:induction false} SkipBlanksFacts(d: string, i: nat)
    ensures i <= SkipBlanks(d, i)
    ensures !BlankAt(d, SkipBlanks(d, i))
    ensures forall j :: i <= j < SkipBlanks(d, i) ==> BlankAt(d, j)
    decreases |d| - i
  {
    if BlankAt(d, i) {
      SkipBlanksFacts(d, i + 1);
    }
  }

  lemma {:induction false} ScanForwardFacts(d: string, j: nat)
    requires j <= |d|
    ensures j <= ScanForward(d, j) <= |d|
    ensures ScanForward(d, j) == |d| || SeparatorAt(d, ScanForward(d, j))
    ensures forall x :: j <= x < ScanForward(d, j) ==> !SeparatorAt(d, x)
    decreases |d| - j
  {
    if j < |d| && !SeparatorAt(d, j) {
      ScanForwardFacts(d, j + 1);
    }
  }

  /** The forward walk passes over a stretch without separators. */
  lemma {:induction false} ScanForwardPasses(d: string, j: nat, t: nat)
    requires j <= t <= |d|
    requires forall x :: j <= x < t ==> !SeparatorAt(d, x)
    ensures t <= ScanForward(d, j)
    decreases t - j
  {
    ScanForwardFacts(d, j);
    if j < t {
      ScanForwardPasses(d, j + 1, t);
    }
  }

  /** `d[start..end]` is a sentence around the stretch `d[i..i+len]`: it
      contains the stretch and has no separator; it does not start with a
      blank; it reaches from just after a blank (or the start of the text)
      to a separator (or the end of the text). */
  predicate SentenceAround(d: string, start: int, end: int, i: int, len: int) {
    0 <= start <= i && i + len <= end <= |d| &&
    (forall x :: start <= x < end ==> !SeparatorAt(d, x)) &&
    !BlankAt(d, start) &&
    (start == 0 || BlankAt(d, start - 1)) &&
    (end == |d| || SeparatorAt(d, end))
  }

  /** The sentence found around a stretch `d[i..i+len]` of non-blank
      characters: it contains the stretch, has no separator, does not start
      with a blank, and reaches from just after a blank (or the start of the
      text) to a separator (or the end of the text). */
  lemma ExpandFacts(d: string, i: nat, len: nat)
    requires 0 < len && i + len <= |d|
    requires forall j :: i <= j < i + len ==> !BlankAt(d, j)
    ensures SentenceAround(d, SentenceStart(d, i), ScanForward(d, SentenceStart(d, i) + 1), i, len)
  {
    var b := ScanBack(d, i);
    ScanBackFacts(d, i);
    var start := SentenceStart(d, i);
    SkipBlanksFacts(d, b);
    assert !BlankAt(d, i);
    assert start <= i;
    assert forall x :: start <= x < i + len ==> !SeparatorAt(d, x) by {
      forall x | start <= x < i + len ensures !SeparatorAt(d, x) {
        if x >= i { assert !BlankAt(d, x); }
        else if x == b { assert !BlankAt(d, start); }
      }
    }
    ScanForwardPasses(d, start + 1, i + len);
    ScanForwardFacts(d, start + 1);
  }

  /** A match of one word is the original-case slice of the description at
      an occurrence of the word in the lower-cased description. */
  lemma WordMatchFacts(d: string, word: string, j: nat)
    requires word != [] && j < |WordMatches(d, word)|
    ensures SliceMatch(d, WordMatches(d, word)[j]) && Lower(WordMatches(d, word)[j].concerningText) == word
  {
    var occ := Occurrences(Lower(d), word, 0);
    var i := occ[j];
    assert OccursAt(Lower(d), word, i) && WordMatches(d, word)[j] == ConcerningMatch(i, d[i..i + |word|], None) by {
      OccurrencesSound(Lower(d), word, 0);
    }
    SliceMatchOf(d, i, |word|);
    assert Lower(d[i..i + |word|]) == word by {
      LowerSlice(d, i, i + |word|);
    }
  }

  lemma SliceMatchOf(d: string, i: nat, len: nat)
    requires i + len <= |d|
    ensures SliceMatch(d, ConcerningMatch(i, d[i..i + len], None))
  {
  }

  /** A match not yet expanded whose text is the original-case slice of the
      description at its index. */
  predicate SliceMatch(d: string, m: ConcerningMatch) {
    m.concerningSentence.None? && m.index >= 0 && m.index + |m.concerningText| <= |d| &&
    m.concerningText == d[m.index..m.index + |m.concerningText|]
  }

  /** The matches of a word come left to right without overlapping, and
      every occurrence of the word in the lower-cased text lies inside one of
      them: the scan misses only occurrences that overlap a reported one. */
  lemma WordMatchesComplete(d: string, word: string, j: int)
    requires word != []
    ensures var ms := WordMatches(d, word);
      (forall k :: 0 <= k < |ms| - 1 ==> ms[k].index + |word| <= ms[k + 1].index) &&
      (OccursAt(Lower(d), word, j) ==> exists k :: 0 <= k < |ms| && ms[k].index <= j < ms[k].index + |word|)
  {
    var occ := Occurrences(Lower(d), word, 0);
    OccurrencesSound(Lower(d), word, 0);
    var ms := WordMatches(d, word);
    assert forall k :: 0 <= k < |ms| ==> ms[k].index == occ[k];
    if OccursAt(Lower(d), word, j) {
      OccurrencesCover(Lower(d), word, 0, j);
      var k :| 0 <= k < |occ| && occ[k] <= j < occ[k] + |word|;
      assert ms[k].index <= j < ms[k].index + |word|;
    }
  }

  /** A raw match covers an occurrence of one of the words: its text is the
      original-case slice of the description and lower-cases to the word. */
  lemma {:induction false} RawMatchFacts(d: string, words: seq<string>, k: nat)
    requires forall w :: 0 <= w < |words| ==> words[w] != []
    requires k < |RawMatches(d, words)|
    ensures SliceMatch(d, RawMatches(d, words)[k]) && Lower(RawMatches(d, words)[k].concerningText) in words
  {
    var front := words[..|words| - 1];
    var init := RawMatches(d, front);
    var last := words[|words| - 1];
    var m := RawMatches(d, words)[k];
    assert RawMatches(d, words) == init + WordMatches(d, last);
    if k < |init| {
      assert m == init[k];
      RawMatchFacts(d, front, k);
      assert Lower(m.concerningText) in words by {
        var w :| 0 <= w < |front| && front[w] == Lower(init[k].concerningText);
        assert words[w] == Lower(init[k].concerningText);
      }
    } else {
      assert m == WordMatches(d, last)[k - |init|];
      WordMatchFacts(d, last, k - |init|);
    }
  }

  predicate LowerLetters(w: string) {
    forall j :: 0 <= j < |w| ==> 'a' <= w[j] <= 'z'
  }

  lemma ConcerningWordsAreLowerLetters()
    ensures forall w :: 0 <= w < |ConcerningWords| ==> ConcerningWords[w] != [] && LowerLetters(ConcerningWords[w])
  {
    assert LowerLetters(ConcerningWords[0]) && LowerLetters(ConcerningWords[1]);
    assert LowerLetters(ConcerningWords[2]) && LowerLetters(ConcerningWords[3]);
  }

  /** A character whose ASCII lower case is a letter is neither a separator
      nor a blank. */
  lemma LetterIsNotBlank(d: string, j: nat)
    requires j < |d| && 'a' <= LowerChar(d[j]) <= 'z'
    ensures !BlankAt(d, j)
  {
  }

  /** A stretch that lower-cases to a word of lower-case letters has no
      blank in it. */
  lemma WordStretchNotBlank(d: string, i: nat, word: string)
    requires LowerLetters(word) && i + |word| <= |d| && Lower(d[i..i + |word|]) == word
    ensures forall j :: i <= j < i + |word| ==> !BlankAt(d, j)
  {
    forall j | i <= j < i + |word| ensures !BlankAt(d, j) {
      assert Lower(d[i..i + |word|])[j - i] == LowerChar(d[j]);
      LetterIsNotBlank(d, j);
    }
  }

  /** A raw match is a non-empty stretch of non-blank characters of the
      description that lower-cases to one of the words. */
  lemma RawMatchIsWord(d: string, words: seq<string>, k: nat)
    requires forall w :: 0 <= w < |words| ==> words[w] != [] && LowerLetters(words[w])
    requires k < |RawMatches(d, words)|
    ensures var m := RawMatches(d, words)[k];
      var i := m.index;
      m.concerningSentence.None? && 0 <= i && 0 < |m.concerningText| && i + |m.concerningText| <= |d| &&
      d[i..i + |m.concerningText|] == m.concerningText && Lower(m.concerningText) in words &&
      forall j :: i <= j < i + |m.concerningText| ==> !BlankAt(d, j)
  {
    RawMatchFacts(d, words, k);
    var raw := RawMatches(d, words)[k];
    var w :| 0 <= w < |words| && words[w] == Lower(raw.concerningText);
    WordStretchNotBlank(d, raw.index, words[w]);
  }

  /** What a reported sentence `s` looks like on its own: non-empty, not
      starting with a space or a newline, free of separators, and holding
      `text` at `index`. */
  predicate WellCut(s: string, index: int, text: string) {
    0 < |s| && s[0] != ' ' && s[0] != '\n' &&
    (forall x :: 0 <= x < |s| ==> !IsSeparator(s[x])) &&
    0 <= index && index + |text| <= |s| && s[index..index + |text|] == text
  }

  /** Where a reported sentence `s` sits in the description `d`: it is the
      slice at `start`, preceded by a blank or the start of the text and
      followed by a separator or the end of the text. */
  predicate CutFrom(d: string, s: string, start: int) {
    0 <= start && start + |s| <= |d| && s == d[start..start + |s|] &&
    (start == 0 || BlankAt(d, start - 1)) &&
    (start + |s| == |d| || SeparatorAt(d, start + |s|))
  }

  /** The sentence slice found by the walks, as a string of its own and as
      a place in the description. */
  lemma SentenceSlice(d: string, start: nat, end: nat, i: nat, text: string)
    requires 0 < |text| && start <= i && i + |text| <= end <= |d|
    requires forall x :: start <= x < end ==> !SeparatorAt(d, x)
    requires !BlankAt(d, start) && (start == 0 || BlankAt(d, start - 1))
    requires end == |d| || SeparatorAt(d, end)
    requires d[i..i + |text|] == text
    ensures WellCut(d[start..end], i - start, text)
    ensures CutFrom(d, d[start..end], start)
  {
    var s := d[start..end];
    forall x | 0 <= x < |s| ensures !IsSeparator(s[x]) {
      assert s[x] == d[start + x];
      assert !SeparatorAt(d, start + x);
    }
    assert s[0] == d[start];
    var t := s[i - start..i - start + |text|];
    assert forall y :: 0 <= y < |text| ==> t[y] == d[i + y];
    assert t == d[i..i + |text|];
  }

  /** When the walks stay inside the description, `substring` is a plain
      slice. */
  lemma ExpandIsSlice(d: string, m: ConcerningMatch)
    requires m.index >= 0
    requires SentenceStart(d, m.index) <= ScanForward(d, SentenceStart(d, m.index) + 1) <= |d|
    ensures var start := SentenceStart(d, m.index);
      Expand(d, m) == m.(concerningSentence := Some(d[start..ScanForward(d, start + 1)]), index := m.index - start)
  {
  }

  /** The text of `m` is a non-empty stretch of non-blank characters of `d`
      at `m`'s index. */
  predicate Stretch(d: string, m: ConcerningMatch) {
    0 <= m.index && 0 < |m.concerningText| && m.index + |m.concerningText| <= |d| &&
    d[m.index..m.index + |m.concerningText|] == m.concerningText &&
    forall j :: m.index <= j < m.index + |m.concerningText| ==> !BlankAt(d, j)
  }

  /** `e` reports the match `raw` of `d`: it keeps the matched text and
      carries a sentence that is well cut and cut from `d` at `raw`'s index
      minus `e`'s. */
  predicate Reported(d: string, raw: ConcerningMatch, e: ConcerningMatch) {
    e.concerningSentence.Some? && e.concerningText == raw.concerningText &&
    WellCut(e.concerningSentence.value, e.index, e.concerningText) &&
    CutFrom(d, e.concerningSentence.value, raw.index - e.index)
  }

  /** The expansion of a match whose text is a non-blank stretch of the
      description reports that match. */
  lemma ExpandStretch(d: string, m: ConcerningMatch)
    requires Stretch(d, m)
    ensures Reported(d, m, Expand(d, m))
  {
    var i := m.index;
    var len := |m.concerningText|;
    var start := SentenceStart(d, i);
    var end := ScanForward(d, start + 1);
    assert SentenceAround(d, start, end, i, len) by {
      ExpandFacts(d, i, len);
    }
    assert Expand(d, m) == m.(concerningSentence := Some(d[start..end]), index := i - start) by {
      ExpandIsSlice(d, m);
    }
    ReportedSlice(d, m, start, end);
  }

  /** A match whose text lies in a sentence slice of the description is
      reported by its record with that sentence and the re-based index. */
  lemma ReportedSlice(d: string, m: ConcerningMatch, start: nat, end: nat)
    requires Stretch(d, m) && SentenceAround(d, start, end, m.index, |m.concerningText|)
    ensures Reported(d, m, m.(concerningSentence := Some(d[start..end]), index := m.index - start))
  {
    SentenceSlice(d, start, end, m.index, m.concerningText);
    var e := m.(concerningSentence := Some(d[start..end]), index := m.index - start);
    assert e.concerningSentence.value == d[start..end] && e.concerningText == m.concerningText;
    assert e.index == m.index - start && m.index - e.index == start;
  }

  /** The `k`-th reported match is the `k`-th raw match, expanded. */
  lemma FlaggedAt(d: string, k: nat)
    requires k < |Flagged(d)|
    ensures RawMatches(d, ConcerningWords)[k].index >= 0 &&
      Flagged(d)[k] == Expand(d, RawMatches(d, ConcerningWords)[k])
  {
    RawIndexNonNegative(d, ConcerningWords);
  }

  /** The `k`-th reported match reports the `k`-th raw match: it keeps the
      matched text, and its sentence is the stretch of the description
      between the blank before it (or the start) and the next separator (or
      the end); the two indexes recover the match's position in the
      description. */
  lemma FlaggedExpands(d: string, k: nat)
    requires k < |Flagged(d)|
    ensures Reported(d, RawMatches(d, ConcerningWords)[k], Flagged(d)[k])
  {
    var raw := RawMatches(d, ConcerningWords)[k];
    RawStretch(d, k);
    FlaggedAt(d, k);
    ExpandStretch(d, raw);
  }

  /** A raw match of the concerning words is a non-blank stretch. */
  lemma RawStretch(d: string, k: nat)
    requires k < |RawMatches(d, ConcerningWords)|
    ensures Stretch(d, RawMatches(d, ConcerningWords)[k])
  {
    ConcerningWordsAreLowerLetters();
    RawMatchIsWord(d, ConcerningWords, k);
  }

  /** Every reported match satisfies what the sentence expansion promises:
      the sentence is non-empty, holds no separator, does not start with a
      space or newline, and has the original-case matched text at the
      re-based index; the matched text is a concerning word up to case. */
  lemma FlaggedMatchFacts(d: string, k: nat)
    requires k < |Flagged(d)|
    ensures var m := Flagged(d)[k];
      m.concerningSentence.Some? &&
      var s := m.concerningSentence.value;
      0 < |s| && s[0] != ' ' && s[0] != '\n' &&
      (forall x :: 0 <= x < |s| ==> !IsSeparator(s[x])) &&
      0 <= m.index && m.index + |m.concerningText| <= |s| &&
      s[m.index..m.index + |m.concerningText|] == m.concerningText &&
      Lower(m.concerningText) in ConcerningWords
  {
    FlaggedExpands(d, k);
    assert Lower(RawMatches(d, ConcerningWords)[k].concerningText) in ConcerningWords by {
      ConcerningWordsAreLowerLetters();
      RawMatchIsWord(d, ConcerningWords, k);
    }
  }

  // ---------------------------------------------------------------------
  // The procedure

  /** `[...d.matchAll(new RegExp(word, 'gi'))]`: the regular expression
      engine searches the case-folded text from `lastIndex` and moves
      `lastIndex` to the end of each match. */
  method MatchAll(d: string, word: string) returns (found: seq<ConcerningMatch>)
    requires word != []
    ensures found == WordMatches(d, word)
  {
    OccurrencesSound(Lower(d), word, 0);
    found := ScanMatches(d, Lower(d), word);
  }

  /** The search loop of `matchAll`, over the case-folded text `lowered`. */
  method ScanMatches(d: string, lowered: string, word: string) returns (found: seq<ConcerningMatch>)
    requires word != [] && |lowered| == |d|
    ensures OccurrencesInRange(d, |word|, Occurrences(lowered, word, 0))
    ensures found == MatchesAt(d, |word|, Occurrences(lowered, word, 0))
  {
    found := [];
    var lastIndex := 0;
    ghost var visited: seq<nat> := [];
    while true
      invariant lastIndex <= |lowered|
      invariant Occurrences(lowered, word, 0) == visited + Occurrences(lowered, word, lastIndex)
      invariant OccurrencesInRange(d, |word|, visited)
      invariant found == MatchesAt(d, |word|, visited)
      decreases |d| - lastIndex
    {
      var i := IndexOf(lowered, word, lastIndex);
      if i == -1 {
        break;
      }
      var next := i + |word|;
      ghost var visited' := visited + [i];
      assert lastIndex < next <= |lowered| && Occurrences(lowered, word, 0) == visited' + Occurrences(lowered, word, next) by {
        OccurrencesStep(lowered, word, lastIndex, visited, i);
      }
      var m := ConcerningMatch(i, d[i..next], None);
      assert OccurrencesInRange(d, |word|, visited') && found + [m] == MatchesAt(d, |word|, visited') by {
        MatchesAtSnoc(d, |word|, visited, found, i, m);
      }
      found := found + [m];
      visited := visited';
      lastIndex := next;
    }
    assert Occurrences(lowered, word, lastIndex) == [];
    assert visited == Occurrences(lowered, word, 0);
  }

  predicate OccurrencesInRange(d: string, len: nat, occ: seq<nat>) {
    forall k :: 0 <= k < |occ| ==> occ[k] + len <= |d|
  }

  /** Appending one occurrence to the occurrences of `found` appends its
      match record. */
  lemma MatchesAtSnoc(d: string, len: nat, occ: seq<nat>, found: seq<ConcerningMatch>, i: nat, m: ConcerningMatch)
    requires OccurrencesInRange(d, len, occ) && found == MatchesAt(d, len, occ)
    requires i + len <= |d| && m == ConcerningMatch(i, d[i..i + len], None)
    ensures OccurrencesInRange(d, len, occ + [i])
    ensures MatchesAt(d, len, occ + [i]) == found + [m]
  {
    assert (occ + [i])[..|occ|] == occ;
  }

  /** The first loop of `concerningTexts`: the matches of every concerning
      word, word by word. */
  method CollectMatches(d: string) returns (matches: seq<ConcerningMatch>)
    ensures matches == RawMatches(d, ConcerningWords)
  {
    matches := [];
    for w := 0 to |ConcerningWords|
      invariant matches == RawMatches(d, ConcerningWords[..w])
    {
      var found := MatchAll(d, ConcerningWords[w]);
      assert ConcerningWords[..w + 1][..w] == ConcerningWords[..w];
      matches := matches + found;
    }
    assert ConcerningWords[..|ConcerningWords|] == ConcerningWords;
  }

  /** `concerningTexts(description)`: collect the matches, then replace each
      one in place by its expansion to the surrounding sentence. */
  method ConcerningTexts(description: string) returns (matches: seq<ConcerningMatch>)
    ensures matches == Flagged(description)
  {
    matches := CollectMatches(description);
    ghost var raw := matches;
    RawIndexNonNegative(description, ConcerningWords);
    for k := 0 to |matches|
      invariant |matches| == |raw|
      invariant forall j :: 0 <= j < k ==> matches[j] == Expand(description, raw[j])
      invariant forall j :: k <= j < |matches| ==> matches[j] == raw[j]
    {
      var e := ExpandMatch(description, matches[k]);
      matches := matches[k := e];
    }
    assert matches == Flagged(description);
  }

  /** The walks of lines 128-138 for one match: back to a separator, forward
      over blanks, then forward to the next separator. */
  method ExpandMatch(description: string, m: ConcerningMatch) returns (e: ConcerningMatch)
    requires m.index >= 0
    ensures e == Expand(description, m)
  {
    var startIndex: nat := m.index;
    while startIndex > 0 && !SeparatorAt(description, startIndex)
      invariant ScanBack(description, startIndex) == ScanBack(description, m.index)
    {
      startIndex := startIndex - 1;
    }
    while BlankAt(description, startIndex)
      invariant SkipBlanks(description, startIndex) == SentenceStart(description, m.index)
      decreases |description| - startIndex
    {
      startIndex := startIndex + 1;
    }
    var endIndex := startIndex + 1;
    while endIndex < |description| && !SeparatorAt(description, endIndex)
      invariant ScanForward(description, endIndex) == ScanForward(description, startIndex + 1)
      decreases |description| - endIndex
    {
      endIndex := endIndex + 1;
    }
    e := m.(concerningSentence := Some(Substring(description, startIndex, endIndex)), index := m.index - startIndex);
  }
}
