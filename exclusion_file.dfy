/** The excluded-links set and its file `excludedLinks.txt`: a JavaScript
    `Set` keeps its elements in insertion order, the file holds them joined
    with newlines (src/main.ts:84-87), and loading splits the file on
    newlines and adds every non-empty piece (src/main.ts:151-159). */
module ExclusionFile {
  import opened Common

  // ---------------------------------------------------------------------
  // An insertion-ordered set

  predicate Distinct(xs: seq<string>) {
    forall i, j :: 0 <= i < j < |xs| ==> xs[i] != xs[j]
  }

  /** `set.add(v)`: a new element goes to the end, a present one stays where
      it is. */
  function SetAdd(xs: seq<string>, v: string): (r: seq<string>)
    ensures Distinct(xs) ==> Distinct(r)
    ensures forall x :: x in r <==> x in xs || x == v
    ensures v in xs ==> r == xs
    ensures v !in xs ==> |r| == |xs| + 1
  {
    if v in xs then xs else xs + [v]
  }

  // ---------------------------------------------------------------------
  // Join and split

  /** `Array.prototype.join('\n')`. */
  function Join(xs: seq<string>): string {
    if |xs| == 0 then ""
    else if |xs| == 1 then xs[0]
    else Join(xs[..|xs| - 1]) + "\n" + xs[|xs| - 1]
  }

  /** `String.prototype.split('\n')`: the pieces between newlines; a string
      with k newlines gives k + 1 pieces, the empty string gives [""]. */
  function Split(s: string): (r: seq<string>)
    ensures |r| >= 1
  {
    if s == [] then [""]
    else
      var init := Split(s[..|s| - 1]);
      if s[|s| - 1] == '\n' then init + [""]
      else init[..|init| - 1] + [init[|init| - 1] + [s[|s| - 1]]]
  }

  predicate NoNewline(x: string) {
    forall i :: 0 <= i < |x| ==> x[i] != '\n'
  }

  lemma {:induction false} SplitNoNewline(x: string)
    requires NoNewline(x)
    ensures Split(x) == [x]
  {
    if x != [] {
      SplitNoNewline(x[..|x| - 1]);
      assert x[..|x| - 1] + [x[|x| - 1]] == x;
    }
  }

  /** One more character either starts a new piece or extends the last. */
  lemma SplitSnoc(s: string, c: char)
    ensures var p := Split(s);
      Split(s + [c]) == if c == '\n' then p + [""] else p[..|p| - 1] + [p[|p| - 1] + [c]]
  {
    assert (s + [c])[..|s + [c]| - 1] == s;
  }

  /** The same when the pieces so far are two lists. */
  lemma ExtendLast(a: seq<string>, b: seq<string>, c: char)
    requires |b| >= 1
    ensures var p := a + b;
      p[..|p| - 1] + [p[|p| - 1] + [c]] == a + (b[..|b| - 1] + [b[|b| - 1] + [c]])
  {
  }

  lemma SplitAtNewlineStep(s: string, t: string, c: char)
    requires Split(s + "\n" + t) == Split(s) + Split(t)
    ensures Split(s + "\n" + t + [c]) == Split(s) + Split(t + [c])
  {
    SplitSnoc(s + "\n" + t, c);
    SplitSnoc(t, c);
    if c != '\n' {
      ExtendLast(Split(s), Split(t), c);
    }
  }

  /** Splitting at a newline splits the pieces. */
  lemma {:induction false} SplitAtNewline(s: string, t: string)
    ensures Split(s + "\n" + t) == Split(s) + Split(t)
    decreases |t|
  {
    if t == [] {
      assert s + "\n" + t == s + ['\n'];
      SplitSnoc(s, '\n');
      assert Split(t) == [""];
    } else {
      var t' := t[..|t| - 1];
      var c := t[|t| - 1];
      SplitAtNewline(s, t');
      SplitAtNewlineStep(s, t', c);
      assert t' + [c] == t;
      assert s + "\n" + t' + [c] == s + "\n" + t;
    }
  }

  /** Joining newline-free values and splitting the result gives the values
      back. */
  lemma {:induction false} SplitJoin(xs: seq<string>)
    requires |xs| >= 1
    requires forall i :: 0 <= i < |xs| ==> NoNewline(xs[i])
    ensures Split(Join(xs)) == xs
  {
    if |xs| == 1 {
      SplitNoNewline(xs[0]);
    } else {
      var init := xs[..|xs| - 1];
      SplitJoin(init);
      SplitAtNewline(Join(init), xs[|xs| - 1]);
      SplitNoNewline(xs[|xs| - 1]);
      assert init + [xs[|xs| - 1]] == xs;
    }
  }

  // ---------------------------------------------------------------------
  // The file format

  /** The file contents `saveExcludedLinks` writes. */
  function FileText(excluded: seq<string>): string {
    Join(excluded)
  }

  /** `pieces.forEach(v => v && set.add(v))`: empty pieces are skipped. */
  function AddPieces(xs: seq<string>, pieces: seq<string>): (r: seq<string>)
    ensures Distinct(xs) ==> Distinct(r)
    ensures forall x :: x in r <==> x in xs || (x != "" && x in pieces)
    decreases |pieces|
  {
    if pieces == [] then xs
    else AddPieces(if pieces[0] != "" then SetAdd(xs, pieces[0]) else xs, pieces[1..])
  }

  /** The excluded links after start-up: the pieces of the file, or nothing
      when the file is missing (the error is caught and logged). */
  function Loaded(file: Option<string>): (r: seq<string>)
    ensures Distinct(r)
    ensures "" !in r
    ensures forall x :: x in r <==> file.Some? && x != "" && x in Split(file.value)
  {
    match file
    case None => []
    case Some(text) => AddPieces([], Split(text))
  }

  lemma {:induction false} AddDistinctPieces(xs: seq<string>, pieces: seq<string>)
    requires Distinct(xs + pieces)
    requires forall i :: 0 <= i < |pieces| ==> pieces[i] != ""
    ensures AddPieces(xs, pieces) == xs + pieces
    decreases |pieces|
  {
    if pieces != [] {
      assert pieces[0] !in xs by {
        assert (xs + pieces)[|xs|] == pieces[0];
        forall i | 0 <= i < |xs| ensures xs[i] != pieces[0] {
          assert (xs + pieces)[i] == xs[i];
        }
      }
      assert xs + [pieces[0]] + pieces[1..] == xs + pieces;
      AddDistinctPieces(xs + [pieces[0]], pieces[1..]);
    }
  }

  /** Saving and loading again restores the excluded links, in their order,
      when they are distinct, non-empty and newline-free (as site paths are). */
  lemma SaveLoadRoundTrip(excluded: seq<string>)
    requires Distinct(excluded)
    requires forall i :: 0 <= i < |excluded| ==> excluded[i] != "" && NoNewline(excluded[i])
    ensures Loaded(Some(FileText(excluded))) == excluded
  {
    if excluded == [] {
      assert Split("") == [""];
    } else {
      SplitJoin(excluded);
      AddDistinctPieces([], excluded);
      assert [] + excluded == excluded;
    }
  }

  /** A value holding a newline does not survive: a link `a + "\n" + b`
      comes back as the two links `a` and `b`. */
  lemma NewlineValueSplits(a: string, b: string)
    requires a != "" && b != "" && a != b && NoNewline(a) && NoNewline(b)
    ensures Loaded(Some(FileText([a + "\n" + b]))) == [a, b]
  {
    var v := a + "\n" + b;
    assert FileText([v]) == v;
    assert Split(v) == [a, b] by {
      SplitAtNewline(a, b);
      SplitNoNewline(a);
      SplitNoNewline(b);
    }
    assert AddPieces([], [a, b]) == [a, b] by {
      AddDistinctPieces([], [a, b]);
      assert [] + [a, b] == [a, b];
    }
  }
}
