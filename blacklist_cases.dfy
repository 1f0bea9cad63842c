/** The four assertions at src/main.ts:378-381 that exercise
    `prefixPostfixSearch` with the prefixes "no " and "geen " and the
    postfixes "students", "home sharers" and "sharers", each proved about
    the model. Each text is checked by small steps: where each prefix
    occurs, and which postfix (if any) follows each occurrence. */
module BlacklistCases {
  import opened Text
  import opened Blacklist
  const Prefixes: seq<string> := ["no ", "geen "]
  const Postfixes: seq<string> := ["students", "home sharers", "sharers"]
  const Case378: string := " adasda d ad da no " + "fafasdfsd nowqfw "
  const Case379: string := Case378 + "students no studen " + "tnostudnt"
  const Case380: string := Case379 + " no students"
  const Case381: string := Case379 + " no stud" + "ent geen sharers"

  lemma Case378Find0From0()
    ensures IndexOf(Case378, "no ", 0) == 16
  {
    IndexOfSkip(Case378, "no ", 0, 16);
    assert Case378[16] == 'n' && Case378[17] == 'o' && Case378[18] == ' ';
    assert MatchesFrom(Case378, "no ", 16, 0);
  }

  lemma Case378Find0From19()
    ensures IndexOf(Case378, "no ", 19) == -1
  {
    IndexOfSkip(Case378, "no ", 19, 29);
    assert Case378[31] == 'w';
    assert IndexOf(Case378, "no ", 29) == IndexOf(Case378, "no ", 30);
    IndexOfSkip(Case378, "no ", 30, 36);
  }

  lemma Case378Scan0()
    ensures Occurrences(Case378, "no ", 0) == [16]
  {
    Case378Find0From19();
    assert Occurrences(Case378, "no ", 19) == [];
    Case378Find0From0();
  }

  lemma Case378Find1From0()
    ensures IndexOf(Case378, "geen ", 0) == -1
  {
    IndexOfSkip(Case378, "geen ", 0, 19);
    IndexOfSkip(Case378, "geen ", 19, 36);
  }

  lemma Case378Scan1()
    ensures Occurrences(Case378, "geen ", 0) == []
  {
    Case378Find1From0();
  }

  lemma Case378MissAt19()
    ensures !PostfixAt(Case378, Postfixes, 19)
  {
    assert Case378[19] == 'f';
    assert !StartsWith(Case378, "students", 19);
    assert !StartsWith(Case378, "home sharers", 19);
    assert !StartsWith(Case378, "sharers", 19);
  }

  /** The assertion at src/main.ts:378. */
  lemma Case378Outcome()
    ensures !Blacklisted(Prefixes, Postfixes, Case378)
  {
    Case378Scan0();
    Case378Scan1();
    Case378MissAt19();
  }

  lemma Case379Find0From0()
    ensures IndexOf(Case379, "no ", 0) == 16
  {
    IndexOfSkip(Case379, "no ", 0, 16);
    assert Case379[16] == 'n' && Case379[17] == 'o' && Case379[18] == ' ';
    assert MatchesFrom(Case379, "no ", 16, 0);
  }

  lemma Case379Find0From19()
    ensures IndexOf(Case379, "no ", 19) == 45
  {
    IndexOfSkip(Case379, "no ", 19, 29);
    assert Case379[31] == 'w';
    assert IndexOf(Case379, "no ", 29) == IndexOf(Case379, "no ", 30);
    IndexOfSkip(Case379, "no ", 30, 36);
    IndexOfSkip(Case379, "no ", 36, 41);
    assert Case379[42] == 't';
    assert IndexOf(Case379, "no ", 41) == IndexOf(Case379, "no ", 42);
    IndexOfSkip(Case379, "no ", 42, 45);
    assert Case379[45] == 'n' && Case379[46] == 'o' && Case379[47] == ' ';
    assert MatchesFrom(Case379, "no ", 45, 0);
  }

  lemma Case379Find0From48()
    ensures IndexOf(Case379, "no ", 48) == -1
  {
    IndexOfSkip(Case379, "no ", 48, 53);
    assert Case379[54] == ' ';
    assert IndexOf(Case379, "no ", 53) == IndexOf(Case379, "no ", 54);
    IndexOfSkip(Case379, "no ", 54, 55);
    IndexOfSkip(Case379, "no ", 55, 56);
    assert Case379[58] == 's';
    assert IndexOf(Case379, "no ", 56) == IndexOf(Case379, "no ", 57);
    IndexOfSkip(Case379, "no ", 57, 62);
    IndexOfPastEnd(Case379, "no ", 62, 62);
  }

  lemma Case379Scan0()
    ensures Occurrences(Case379, "no ", 0) == [16, 45]
  {
    Case379Find0From48();
    assert Occurrences(Case379, "no ", 48) == [];
    Case379Find0From19();
    assert Occurrences(Case379, "no ", 19) == [45];
    Case379Find0From0();
  }

  lemma Case379Find1From0()
    ensures IndexOf(Case379, "geen ", 0) == -1
  {
    IndexOfSkip(Case379, "geen ", 0, 19);
    IndexOfSkip(Case379, "geen ", 19, 36);
    IndexOfSkip(Case379, "geen ", 36, 55);
    IndexOfSkip(Case379, "geen ", 55, 64);
  }

  lemma Case379Scan1()
    ensures Occurrences(Case379, "geen ", 0) == []
  {
    Case379Find1From0();
  }

  lemma Case379MissAt19()
    ensures !PostfixAt(Case379, Postfixes, 19)
  {
    assert Case379[19] == 'f';
    assert !StartsWith(Case379, "students", 19);
    assert !StartsWith(Case379, "home sharers", 19);
    assert !StartsWith(Case379, "sharers", 19);
  }

  lemma Case379MissAt48()
    ensures !PostfixAt(Case379, Postfixes, 48)
  {
    assert Case379[54] == ' ';
    assert !StartsWith(Case379, "students", 48);
    assert Case379[48] == 's';
    assert !StartsWith(Case379, "home sharers", 48);
    assert Case379[49] == 't';
    assert !StartsWith(Case379, "sharers", 48);
  }

  /** The assertion at src/main.ts:379. */
  lemma Case379Outcome()
    ensures !Blacklisted(Prefixes, Postfixes, Case379)
  {
    Case379Scan0();
    Case379Scan1();
    Case379MissAt19();
    Case379MissAt48();
  }

  lemma Case380Find0From0()
    ensures IndexOf(Case380, "no ", 0) == 16
  {
    IndexOfSkip(Case380, "no ", 0, 16);
    assert Case380[16] == 'n' && Case380[17] == 'o' && Case380[18] == ' ';
    assert MatchesFrom(Case380, "no ", 16, 0);
  }

  lemma Case380Find0From19()
    ensures IndexOf(Case380, "no ", 19) == 45
  {
    IndexOfSkip(Case380, "no ", 19, 29);
    assert Case380[31] == 'w';
    assert IndexOf(Case380, "no ", 29) == IndexOf(Case380, "no ", 30);
    IndexOfSkip(Case380, "no ", 30, 36);
    IndexOfSkip(Case380, "no ", 36, 41);
    assert Case380[42] == 't';
    assert IndexOf(Case380, "no ", 41) == IndexOf(Case380, "no ", 42);
    IndexOfSkip(Case380, "no ", 42, 45);
    assert Case380[45] == 'n' && Case380[46] == 'o' && Case380[47] == ' ';
    assert MatchesFrom(Case380, "no ", 45, 0);
  }

  lemma Case380Find0From48()
    ensures IndexOf(Case380, "no ", 48) == 65
  {
    IndexOfSkip(Case380, "no ", 48, 53);
    assert Case380[54] == ' ';
    assert IndexOf(Case380, "no ", 53) == IndexOf(Case380, "no ", 54);
    IndexOfSkip(Case380, "no ", 54, 55);
    IndexOfSkip(Case380, "no ", 55, 56);
    assert Case380[58] == 's';
    assert IndexOf(Case380, "no ", 56) == IndexOf(Case380, "no ", 57);
    IndexOfSkip(Case380, "no ", 57, 62);
    assert Case380[63] == 't';
    assert IndexOf(Case380, "no ", 62) == IndexOf(Case380, "no ", 63);
    IndexOfSkip(Case380, "no ", 63, 64);
    IndexOfSkip(Case380, "no ", 64, 65);
    assert Case380[65] == 'n' && Case380[66] == 'o' && Case380[67] == ' ';
    assert MatchesFrom(Case380, "no ", 65, 0);
  }

  lemma Case380Find0From68()
    ensures IndexOf(Case380, "no ", 68) == -1
  {
    IndexOfSkip(Case380, "no ", 68, 72);
    IndexOfSkip(Case380, "no ", 72, 73);
    assert Case380[74] == 't';
    assert IndexOf(Case380, "no ", 73) == IndexOf(Case380, "no ", 74);
    IndexOfSkip(Case380, "no ", 74, 76);
  }

  lemma Case380Scan0()
    ensures Occurrences(Case380, "no ", 0) == [16, 45, 65]
  {
    Case380Find0From68();
    assert Occurrences(Case380, "no ", 68) == [];
    Case380Find0From48();
    assert Occurrences(Case380, "no ", 48) == [65];
    Case380Find0From19();
    assert Occurrences(Case380, "no ", 19) == [45, 65];
    Case380Find0From0();
  }

  lemma Case380Find1From0()
    ensures IndexOf(Case380, "geen ", 0) == -1
  {
    IndexOfSkip(Case380, "geen ", 0, 19);
    IndexOfSkip(Case380, "geen ", 19, 36);
    IndexOfSkip(Case380, "geen ", 36, 55);
    IndexOfSkip(Case380, "geen ", 55, 64);
    IndexOfSkip(Case380, "geen ", 64, 72);
    IndexOfSkip(Case380, "geen ", 72, 76);
  }

  lemma Case380Scan1()
    ensures Occurrences(Case380, "geen ", 0) == []
  {
    Case380Find1From0();
  }

  lemma Case380MissAt19()
    ensures !PostfixAt(Case380, Postfixes, 19)
  {
    assert Case380[19] == 'f';
    assert !StartsWith(Case380, "students", 19);
    assert !StartsWith(Case380, "home sharers", 19);
    assert !StartsWith(Case380, "sharers", 19);
  }

  lemma Case380MissAt48()
    ensures !PostfixAt(Case380, Postfixes, 48)
  {
    assert Case380[54] == ' ';
    assert !StartsWith(Case380, "students", 48);
    assert Case380[48] == 's';
    assert !StartsWith(Case380, "home sharers", 48);
    assert Case380[49] == 't';
    assert !StartsWith(Case380, "sharers", 48);
  }

  lemma Case380HitAt68()
    ensures PostfixAt(Case380, Postfixes, 68)
  {
    assert Case380[68] == 's' && Case380[69] == 't' && Case380[70] == 'u' && Case380[71] == 'd' && Case380[72] == 'e' && Case380[73] == 'n' && Case380[74] == 't' && Case380[75] == 's';
    assert StartsWith(Case380, "students", 68);
    assert OccursAt(Case380, Postfixes[0], 68);
  }

  /** The assertion at src/main.ts:380. */
  lemma Case380Outcome()
    ensures Blacklisted(Prefixes, Postfixes, Case380)
  {
    Case380Scan0();
    Case380Scan1();
    Case380MissAt19();
    Case380MissAt48();
    Case380HitAt68();
    assert PrefixHit(Case380, Prefixes[0], Postfixes) by {
      assert Occurrences(Case380, Prefixes[0], 0)[2] == 65;
    }
  }

  lemma Case381Find0From0()
    ensures IndexOf(Case381, "no ", 0) == 16
  {
    IndexOfSkip(Case381, "no ", 0, 16);
    assert Case381[16] == 'n' && Case381[17] == 'o' && Case381[18] == ' ';
    assert MatchesFrom(Case381, "no ", 16, 0);
  }

  lemma Case381Find0From19()
    ensures IndexOf(Case381, "no ", 19) == 45
  {
    IndexOfSkip(Case381, "no ", 19, 29);
    assert Case381[31] == 'w';
    assert IndexOf(Case381, "no ", 29) == IndexOf(Case381, "no ", 30);
    IndexOfSkip(Case381, "no ", 30, 36);
    IndexOfSkip(Case381, "no ", 36, 41);
    assert Case381[42] == 't';
    assert IndexOf(Case381, "no ", 41) == IndexOf(Case381, "no ", 42);
    IndexOfSkip(Case381, "no ", 42, 45);
    assert Case381[45] == 'n' && Case381[46] == 'o' && Case381[47] == ' ';
    assert MatchesFrom(Case381, "no ", 45, 0);
  }

  lemma Case381Find0From48()
    ensures IndexOf(Case381, "no ", 48) == 65
  {
    IndexOfSkip(Case381, "no ", 48, 53);
    assert Case381[54] == ' ';
    assert IndexOf(Case381, "no ", 53) == IndexOf(Case381, "no ", 54);
    IndexOfSkip(Case381, "no ", 54, 55);
    IndexOfSkip(Case381, "no ", 55, 56);
    assert Case381[58] == 's';
    assert IndexOf(Case381, "no ", 56) == IndexOf(Case381, "no ", 57);
    IndexOfSkip(Case381, "no ", 57, 62);
    assert Case381[63] == 't';
    assert IndexOf(Case381, "no ", 62) == IndexOf(Case381, "no ", 63);
    IndexOfSkip(Case381, "no ", 63, 64);
    IndexOfSkip(Case381, "no ", 64, 65);
    assert Case381[65] == 'n' && Case381[66] == 'o' && Case381[67] == ' ';
    assert MatchesFrom(Case381, "no ", 65, 0);
  }

  lemma Case381Find0From68()
    ensures IndexOf(Case381, "no ", 68) == -1
  {
    IndexOfSkip(Case381, "no ", 68, 72);
    IndexOfSkip(Case381, "no ", 72, 73);
    assert Case381[74] == 't';
    assert IndexOf(Case381, "no ", 73) == IndexOf(Case381, "no ", 74);
    IndexOfSkip(Case381, "no ", 74, 76);
    IndexOfSkip(Case381, "no ", 76, 79);
    assert Case381[80] == ' ';
    assert IndexOf(Case381, "no ", 79) == IndexOf(Case381, "no ", 80);
    IndexOfSkip(Case381, "no ", 80, 88);
  }

  lemma Case381Scan0()
    ensures Occurrences(Case381, "no ", 0) == [16, 45, 65]
  {
    Case381Find0From68();
    assert Occurrences(Case381, "no ", 68) == [];
    Case381Find0From48();
    assert Occurrences(Case381, "no ", 48) == [65];
    Case381Find0From19();
    assert Occurrences(Case381, "no ", 19) == [45, 65];
    Case381Find0From0();
  }

  lemma Case381Find1From0()
    ensures IndexOf(Case381, "geen ", 0) == 76
  {
    IndexOfSkip(Case381, "geen ", 0, 19);
    IndexOfSkip(Case381, "geen ", 19, 36);
    IndexOfSkip(Case381, "geen ", 36, 55);
    IndexOfSkip(Case381, "geen ", 55, 64);
    IndexOfSkip(Case381, "geen ", 64, 72);
    IndexOfSkip(Case381, "geen ", 72, 76);
    assert Case381[76] == 'g' && Case381[77] == 'e' && Case381[78] == 'e' && Case381[79] == 'n' && Case381[80] == ' ';
    assert MatchesFrom(Case381, "geen ", 76, 0);
  }

  lemma Case381Find1From81()
    ensures IndexOf(Case381, "geen ", 81) == -1
  {
    IndexOfSkip(Case381, "geen ", 81, 88);
  }

  lemma Case381Scan1()
    ensures Occurrences(Case381, "geen ", 0) == [76]
  {
    Case381Find1From81();
    assert Occurrences(Case381, "geen ", 81) == [];
    Case381Find1From0();
  }

  lemma Case381MissAt19()
    ensures !PostfixAt(Case381, Postfixes, 19)
  {
    assert Case381[19] == 'f';
    assert !StartsWith(Case381, "students", 19);
    assert !StartsWith(Case381, "home sharers", 19);
    assert !StartsWith(Case381, "sharers", 19);
  }

  lemma Case381MissAt48()
    ensures !PostfixAt(Case381, Postfixes, 48)
  {
    assert Case381[54] == ' ';
    assert !StartsWith(Case381, "students", 48);
    assert Case381[48] == 's';
    assert !StartsWith(Case381, "home sharers", 48);
    assert Case381[49] == 't';
    assert !StartsWith(Case381, "sharers", 48);
  }

  lemma Case381MissAt68()
    ensures !PostfixAt(Case381, Postfixes, 68)
  {
    assert Case381[75] == ' ';
    assert !StartsWith(Case381, "students", 68);
    assert Case381[68] == 's';
    assert !StartsWith(Case381, "home sharers", 68);
    assert Case381[69] == 't';
    assert !StartsWith(Case381, "sharers", 68);
  }

  lemma Case381HitAt81()
    ensures PostfixAt(Case381, Postfixes, 81)
  {
    assert Case381[81] == 's' && Case381[82] == 'h' && Case381[83] == 'a' && Case381[84] == 'r' && Case381[85] == 'e' && Case381[86] == 'r' && Case381[87] == 's';
    assert StartsWith(Case381, "sharers", 81);
    assert OccursAt(Case381, Postfixes[2], 81);
  }

  /** The assertion at src/main.ts:381. */
  lemma Case381Outcome()
    ensures Blacklisted(Prefixes, Postfixes, Case381)
  {
    Case381Scan0();
    Case381Scan1();
    Case381MissAt19();
    Case381MissAt48();
    Case381MissAt68();
    Case381HitAt81();
    assert PrefixHit(Case381, Prefixes[1], Postfixes) by {
      assert Occurrences(Case381, Prefixes[1], 0)[0] == 76;
    }
  }

  /** Neither test prefix can overlap itself, so for them the scan is an
      exact phrase search (Blacklist.BlacklistedIff). */
  lemma TestPrefixesDoNotOverlap()
    ensures NonEmptyPrefixes(Prefixes)
    ensures forall p :: 0 <= p < |Prefixes| ==> NoSelfOverlap(Prefixes[p])
  {
    assert "no "[1] == 'o' && "no "[2] == ' ';
    FirstCharOnceNoOverlap("no ");
    assert "geen "[1] == 'e' && "geen "[2] == 'e' && "geen "[3] == 'n' && "geen "[4] == ' ';
    FirstCharOnceNoOverlap("geen ");
  }
}
