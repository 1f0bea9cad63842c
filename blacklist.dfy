/** The blacklist phrase search `prefixPostfixSearch` (src/main.ts:388-403):
    an advert is rejected when an occurrence of one of the blacklist prefixes
    ("no ", "geen ", ...) is immediately followed by one of the postfixes
    ("students", "sharers", ...). */
module Blacklist {
  import opened Text

  /** The search only terminates when every prefix is non-empty: with an
      empty prefix `indexOf` keeps returning `start` and `start` never
      advances. */
  predicate NonEmptyPrefixes(prefixes: seq<string>) {
    forall p :: 0 <= p < |prefixes| ==> prefixes[p] != []
  }

  /** Some postfix begins exactly at position `at`. */
  predicate PostfixAt(text: string, postfixes: seq<string>, at: int) {
    exists q :: 0 <= q < |postfixes| && OccursAt(text, postfixes[q], at)
  }

  /** One of the occurrences of `prefix` that the scan visits (left to right,
      resuming after each occurrence) is immediately followed by a postfix. */
  predicate PrefixHit(text: string, prefix: string, postfixes: seq<string>)
    requires prefix != []
  {
    exists k :: 0 <= k < |Occurrences(text, prefix, 0)| &&
      PostfixAt(text, postfixes, Occurrences(text, prefix, 0)[k] + |prefix|)
  }

  /** The verdict `prefixPostfixSearch` computes. */
  predicate Blacklisted(prefixes: seq<string>, postfixes: seq<string>, text: string)
    requires NonEmptyPrefixes(prefixes)
  {
    exists p :: 0 <= p < |prefixes| && PrefixHit(text, prefixes[p], postfixes)
  }

  /** `text.startsWith(s, pos)`. */
  function StartsWith(text: string, s: string, pos: nat): (r: bool)
    ensures r <==> OccursAt(text, s, pos)
  {
    if pos + |s| <= |text| then
      MatchesFromIff(text, s, pos, 0);
      MatchesFrom(text, s, pos, 0)
    else
      false
  }

  /** The loop over the postfixes at one prefix occurrence. */
  method PostfixStartsAt(text: string, postfixes: seq<string>, at: nat) returns (b: bool)
    ensures b == PostfixAt(text, postfixes, at)
  {
    for q := 0 to |postfixes|
      invariant forall q' :: 0 <= q' < q ==> !OccursAt(text, postfixes[q'], at)
    {
      var postfix := postfixes[q];
      if at + |postfix| <= |text| && StartsWith(text, postfix, at) {
        return true;
      }
    }
    return false;
  }

  /** The `while` loop for one prefix: visit the occurrences of `prefix` left
      to right, resuming the search right after each occurrence. */
  method SearchPrefix(prefix: string, postfixes: seq<string>, text: string) returns (hit: bool)
    requires prefix != []
    ensures hit == PrefixHit(text, prefix, postfixes)
  {
    var start := 0;
    ghost var visited: seq<nat> := [];
    while start < |text|
      invariant start <= |text|
      invariant Occurrences(text, prefix, 0) == visited + Occurrences(text, prefix, start)
      invariant forall j :: 0 <= j < |visited| ==> !PostfixAt(text, postfixes, visited[j] + |prefix|)
    {
      var startIndex := IndexOf(text, prefix, start);
      if startIndex == -1 {
        break;
      }
      OccurrencesStep(text, prefix, start, visited, startIndex);
      hit := PostfixStartsAt(text, postfixes, startIndex + |prefix|);
      if hit {
        assert PrefixHit(text, prefix, postfixes) by {
          ghost var occ := Occurrences(text, prefix, 0);
          assert |visited| < |occ| && occ[|visited|] == startIndex;
          HitAt(text, prefix, postfixes, |visited|);
        }
        return;
      }
      visited := visited + [startIndex];
      start := startIndex + |prefix|;
    }
    assert Occurrences(text, prefix, start) == [] by {
      IndexOfSpec(text, prefix, start);
    }
    assert !PrefixHit(text, prefix, postfixes) by {
      assert visited == Occurrences(text, prefix, 0);
    }
    return false;
  }

  /** The visited occurrence `k` followed by a postfix is a hit. */
  lemma HitAt(text: string, prefix: string, postfixes: seq<string>, k: nat)
    requires prefix != [] && k < |Occurrences(text, prefix, 0)|
    requires PostfixAt(text, postfixes, Occurrences(text, prefix, 0)[k] + |prefix|)
    ensures PrefixHit(text, prefix, postfixes)
  {
  }

  method PrefixPostfixSearch(prefixes: seq<string>, postfixes: seq<string>, text: string)
    returns (found: bool)
    requires NonEmptyPrefixes(prefixes)
    ensures found == Blacklisted(prefixes, postfixes, text)
  {
    for p := 0 to |prefixes|
      invariant forall p' :: 0 <= p' < p ==> !PrefixHit(text, prefixes[p'], postfixes)
    {
      var hit := SearchPrefix(prefixes[p], postfixes, text);
      if hit {
        return true;
      }
    }
    return false;
  }

  // ---------------------------------------------------------------------
  // What the scan decides

  /** No proper suffix of `p` is also a prefix of it, so two occurrences of
      `p` can never overlap ("no " and "geen " are like this; "aa" is not). */
  predicate NoSelfOverlap(p: string) {
    forall k :: 0 < k < |p| ==> p[k..] != p[..|p| - k]
  }

  /** A pattern whose first character does not recur in it cannot overlap
      itself. */
  lemma FirstCharOnceNoOverlap(p: string)
    requires forall k :: 0 < k < |p| ==> p[k] != p[0]
    ensures NoSelfOverlap(p)
  {
    forall k | 0 < k < |p| ensures p[k..] != p[..|p| - k] {
      assert p[k..][0] == p[k];
      assert p[..|p| - k][0] == p[0];
    }
  }

  /** Some occurrence of `prefix`, wherever it is, is immediately followed by
      a postfix: the phrase search an overlapping scan would perform. */
  predicate PhraseAnywhere(text: string, prefix: string, postfixes: seq<string>) {
    exists j :: 0 <= j <= |text| && OccursAt(text, prefix, j) && PostfixAt(text, postfixes, j + |prefix|)
  }

  /** Two occurrences that overlap expose a proper border of the pattern. */
  lemma OverlapGivesBorder(text: string, p: string, a: int, j: int)
    requires OccursAt(text, p, a) && OccursAt(text, p, j) && a < j < a + |p|
    ensures p[j - a..] == p[..|p| - (j - a)]
  {
    var k := j - a;
    assert p[k..] == text[j..a + |p|];
    assert p[..|p| - k] == text[j..a + |p|];
  }

  /** Every phrase the scan reports is a real one. */
  lemma PrefixHitSound(text: string, prefix: string, postfixes: seq<string>)
    requires prefix != []
    ensures PrefixHit(text, prefix, postfixes) ==> PhraseAnywhere(text, prefix, postfixes)
  {
    if PrefixHit(text, prefix, postfixes) {
      var occ := Occurrences(text, prefix, 0);
      OccurrencesSound(text, prefix, 0);
      var k :| 0 <= k < |occ| && PostfixAt(text, postfixes, occ[k] + |prefix|);
      assert OccursAt(text, prefix, occ[k]);
    }
  }

  /** The scan only skips occurrences that overlap a visited one, so for a
      prefix without self-overlap it finds every phrase. */
  lemma PrefixHitComplete(text: string, prefix: string, postfixes: seq<string>)
    requires prefix != [] && NoSelfOverlap(prefix)
    ensures PhraseAnywhere(text, prefix, postfixes) ==> PrefixHit(text, prefix, postfixes)
  {
    if PhraseAnywhere(text, prefix, postfixes) {
      var occ := Occurrences(text, prefix, 0);
      var j :| 0 <= j <= |text| && OccursAt(text, prefix, j) && PostfixAt(text, postfixes, j + |prefix|);
      assert exists k :: 0 <= k < |occ| && occ[k] <= j < occ[k] + |prefix| by {
        OccurrencesCover(text, prefix, 0, j);
      }
      var k :| 0 <= k < |occ| && occ[k] <= j < occ[k] + |prefix|;
      assert OccursAt(text, prefix, occ[k]) by {
        OccurrencesSound(text, prefix, 0);
      }
      NoOverlapSame(text, prefix, occ[k], j);
      assert PostfixAt(text, postfixes, occ[k] + |prefix|);
    }
  }

  /** For a pattern without self-overlap, an occurrence that starts inside
      another one is that same occurrence. */
  lemma NoOverlapSame(text: string, p: string, a: int, j: int)
    requires NoSelfOverlap(p) && OccursAt(text, p, a) && OccursAt(text, p, j) && a <= j < a + |p|
    ensures a == j
  {
    if a < j {
      OverlapGivesBorder(text, p, a, j);
      assert false;
    }
  }

  /** The verdict as a phrase search: for prefixes without self-overlap, an
      advert is blacklisted exactly when some prefix occurrence is directly
      followed by a postfix. */
  lemma BlacklistedIff(prefixes: seq<string>, postfixes: seq<string>, text: string)
    requires NonEmptyPrefixes(prefixes)
    requires forall p :: 0 <= p < |prefixes| ==> NoSelfOverlap(prefixes[p])
    ensures Blacklisted(prefixes, postfixes, text) <==>
      exists p :: 0 <= p < |prefixes| && PhraseAnywhere(text, prefixes[p], postfixes)
  {
    forall p | 0 <= p < |prefixes| ensures PrefixHit(text, prefixes[p], postfixes) <==> PhraseAnywhere(text, prefixes[p], postfixes) {
      PrefixHitSound(text, prefixes[p], postfixes);
      PrefixHitComplete(text, prefixes[p], postfixes);
    }
  }

  /** With a self-overlapping prefix the scan can miss a phrase: in "aaab"
      the scan visits the "aa" at 0, resumes at 2 and never sees the "aa"
      at 1 that "b" follows. */
  lemma OverlappingPrefixMissed()
    ensures PhraseAnywhere("aaab", "aa", ["b"])
    ensures !Blacklisted(["aa"], ["b"], "aaab")
  {
    var post: seq<string> := ["b"];
    assert OccursAt("aaab", post[0], 3);
    assert OccursAt("aaab", "aa", 1) && PostfixAt("aaab", post, 3);
    assert IndexOf("aaab", "aa", 2) == -1;
    assert Occurrences("aaab", "aa", 0) == [0];
    assert !StartsWith("aaab", "b", 2);
    assert !PostfixAt("aaab", ["b"], 2);
    assert !PrefixHit("aaab", "aa", ["b"]);
  }
}
