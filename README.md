# huurstunt-bot listing engine in Dafny

huurstunt-bot crawls the rental site huurstunt.nl for one user. It works through each
configured city one distance radius at a time (0, 1, … km) and reads up to four result pages
per radius. Every new advert link goes into a record map (`linkInfos`, persisted as
`data.json`) and into a worklist. Adverts that have vanished or are blacklisted go into a set
of excluded links (persisted as `excludedLinks.txt`). The bot then opens each advert on the
worklist and works out the following:

- the group size, from the bedroom count and from phrases such as "2 persons";
- the price per person;
- the sentences that mention students, sharers or couples;
- whether the advert is rejected by the blacklist phrase search, too expensive, or suitable.

A background timer writes both files whenever they changed.

This project models that engine: src/main.ts and the record shapes of src/common.ts. It
proves the properties below about the model.

| file | module | what it holds |
|---|---|---|
| text.dfy | `Text` | ASCII case folding, the JavaScript `\s` class, `indexOf`, the greedy non-overlapping occurrence scan |
| common.dfy | `Common` | `LinkInfo`, `ConcerningMatch`, `Option`, counts that may be `Infinity`, JavaScript numbers from a division |
| paths.dfy | `Paths` | decimal numerals, the price parser, `urlify`, `interval`, the tier and page URLs |
| blacklist.dfy | `Blacklist` | `prefixPostfixSearch` as a method with its loops, the verdict it computes, and when that verdict is an exact phrase search |
| blacklist_cases.dfy | `BlacklistCases` | the four assertions at src/main.ts:378-381 |
| concerns.dfy | `Concerns` | `concerningTexts` as a method (the `matchAll` loops and the sentence walks) and the function it is proved against |
| advert.dfy | `Advert` | the rules for one advert page: group size, price per person, fields written once, the verdict |
| exclusion_file.dfy | `ExclusionFile` | the insertion-ordered set, `join`/`split` on newlines, the excluded-links file format |
| listings.dfy | `Listings` | the listing store as values, and what collecting, reconciling and checking do to it |
| persistence.dfy | `Persistence` | the periodic flush as an event machine, including the update it can lose |
| link_store.dfy | `Engine` | the class `LinkStore` holding the mutable state, and its methods (the loops of `main`), each proved to leave the state the `Listings` and `Persistence` functions describe; `RunBot`, the whole of `main` |

How the source's state is modelled:

- The mutable state of `main` lives in the fields of `Engine.LinkStore`:
  - `linkInfos`;
  - `excludedLinks`, kept in insertion order, as a JavaScript `Set` keeps it;
  - the `links` worklist;
  - the `changedLinkInfo` flag;
  - the flush bookkeeping.
- Each loop of `main` is a method with loop invariants. Its postcondition equates the new
  state with a function of the old one (`Listings.AddLinks`, `Listings.ScanTier`,
  `Listings.CollectPlaces`, `Listings.ReconcileKeys`, `Listings.CheckAdvert`,
  `Listings.CheckAll`, `Persistence.OnTick`, …). The lemmas about those functions carry the
  invariants the program relies on. Examples:
  - the assertion at src/main.ts:221-223;
  - the advert loop never meets a link without a record;
  - records and exclusions end up disjoint.

Inputs from the outside world are parameters:

| parameter | what it stands for |
|---|---|
| `results` | the links each search page shows, by URL |
| `pageCounts` | the page count each tier page shows, by URL |
| `pages` | what each advert page yields, by link |
| `dataFile`, `exclFile` | the files read at start-up; `None` if missing |
| `keys` | the order `Object.keys` lists the records in |
| `refresh` | `refreshContactDetails` |
| `cfg` | the configuration values the rules read |

## Model

| member | source | states |
|---|---|---|
| Text.LowerChar | src/main.ts:309 | `toLowerCase` on one character, ASCII only: an upper-case letter becomes the letter 32 code points up; every other character is left alone; the result is never upper case |
| Text.Lower | src/main.ts:309 | lower-casing keeps the length and lower-cases every position |
| Text.LowerSlice | src/main.ts:122-124 | lower-casing a slice gives the slice of the lower-cased text, so a case-insensitive match at an index is the original-case slice there |
| Text.MatchesFromIff | src/main.ts:395 | the character-by-character comparison holds exactly when the slice of the text equals the rest of the pattern |
| Text.IndexOf | src/main.ts:392 | `indexOf(pat, from)` is -1 or a position between `from` and the last start that still fits |
| Text.IndexOfSpec | src/main.ts:392 | `indexOf` returns an occurrence with no occurrence before it from `from` on, and -1 exactly when there is no occurrence from `from` on |
| Text.IndexOfSkip | src/main.ts:392 | a search from `from` and a search from `to` agree when no character between them starts the pattern |
| Text.IndexOfPastEnd | src/main.ts:392 | once the pattern no longer fits, `indexOf` is -1 |
| Text.OccurrencesSound | src/main.ts:391-399 | every position the resume-after-each-hit scan reports is an occurrence, and successive ones do not overlap |
| Text.OccurrencesCover | src/main.ts:391-399 | every occurrence lies inside an occurrence the scan reports |
| Text.FirstOccurrenceReported | src/main.ts:391-399 | the first occurrence is the first position reported |
| Text.Occurrences | src/main.ts:391-399 | defines the positions the resume-after-each-hit scan visits: an `indexOf` from the start, then from just past each hit, until -1 |
| Text.OccurrencesStep | src/main.ts:391-399 | a hit of `indexOf` moves from the occurrences still ahead to those visited, and resuming after it stays inside the text and moves forward |
| Common.ExtMin | src/main.ts:279-286 | `Math.min` on counts that may be `Infinity`: the result is at most both arguments and is one of them |
| Common.NewLinkInfo | src/main.ts:74 | a new record has only its radius set: no details and every optional field unset |
| Paths.DigitChar | src/main.ts:48 | the numeral of a single digit |
| Paths.DecimalString | src/main.ts:48 | the numeral `String(n)` consists of digits, and has a leading 0 only for zero |
| Paths.DecimalRoundTrip | src/main.ts:48 | reading the numeral of `n` back gives `n` |
| Paths.DecimalInjective | src/main.ts:48 | distinct numbers have distinct numerals |
| Paths.RemoveDots | src/main.ts:290 | `replace(/\./g, '')` removes every dot and makes nothing longer |
| Paths.RemoveDotsDigits | src/main.ts:289-290 | what the price pattern `[\d.]+` captures has only digits left once the dots are removed |
| Paths.RemoveDotsAppend | src/main.ts:290 | dot removal distributes over concatenation |
| Paths.DotIgnored | src/main.ts:290 | a grouping dot does not change the parsed price |
| Paths.PriceOfNumeral | src/main.ts:289-290 | the price parser reads a plain numeral as its number |
| Paths.ParsePrice | src/main.ts:289-290 | defines the price: the dots of the `[\d.]+` capture removed and the digits read as one decimal number |
| Paths.NoDotsUnchanged | src/main.ts:290 | a string of digits survives dot removal unchanged |
| Paths.OnlyDotsIsZero | src/main.ts:290 | a capture made only of dots leaves the empty string, which `+` reads as 0 |
| Paths.Urlify | src/main.ts:405-407 | `urlify` keeps the length, turns each `\s` character into `-` and lower-cases the rest |
| Paths.UrlifyNormal | src/main.ts:405-407 | the result of `urlify` has no whitespace and no upper case, so `urlify` is idempotent |
| Paths.LowerKeepsNonWhitespace | src/main.ts:406 | lower-casing does not create whitespace |
| Paths.UrlifyFixed | src/main.ts:405-407 | a string without whitespace or upper case is its own `urlify` |
| Paths.Interval | src/main.ts:36-38 | defines `interval(start, end)`: no value (the RangeError of `Array` with a negative length) when `end < start`, else the integers from `start` up to `end` |
| Paths.IntervalSpec | src/main.ts:36-38 | `interval(start, end)` is defined exactly when `start <= end` (`Array` with a negative length throws); the result is the `end - start` consecutive integers from `start`, and holds exactly the values in `[start, end)` |
| Paths.IntervalCases | src/main.ts:30-34 | the five assertions about `interval` |
| Paths.TierUrl | src/main.ts:196-198 | defines the tier URL: the site, `/huren/`, the urlified city and, for a radius other than 0, `+<d>km/` |
| Paths.PageUrl | src/main.ts:46-49 | defines the URL of result page `n` of a tier: the tier path followed by `p<n>/` |
| Paths.PageUnderTier | src/main.ts:46-49 | the URL of a result page is its tier URL followed by `p<n>/` |
| Paths.TierUrlShape | src/main.ts:196-198 | radius 0 is the plain city path; any other radius adds a `+<d>km/` segment |
| Paths.PageUrlInjective | src/main.ts:46-49 | different page numbers of one tier give different URLs |
| Blacklist.StartsWith | src/main.ts:395 | `startsWith(s, pos)` holds exactly when `s` occurs at `pos` |
| Blacklist.PostfixStartsAt | src/main.ts:394-398 | the postfix loop reports whether some postfix begins right after the prefix occurrence |
| Blacklist.PostfixAt | src/main.ts:394-398 | defines the postfix test: some postfix begins exactly at the given position |
| Blacklist.PrefixHit | src/main.ts:390-400 | defines the verdict for one prefix: one of the occurrences the scan visits is directly followed by a postfix |
| Blacklist.Blacklisted | src/main.ts:388-403 | defines the verdict of `prefixPostfixSearch`: some prefix has a hit |
| Blacklist.SearchPrefix | src/main.ts:390-400 | the `while` loop for one prefix reports a hit exactly when one of the occurrences it visits is followed by a postfix |
| Blacklist.PrefixPostfixSearch | src/main.ts:388-403 | `prefixPostfixSearch` returns true exactly when, for some prefix, a visited occurrence is directly followed by a postfix |
| Blacklist.FirstCharOnceNoOverlap | src/main.ts:389-399 | a prefix whose first character does not recur cannot overlap itself |
| Blacklist.OverlapGivesBorder | src/main.ts:399 | two overlapping occurrences of a pattern expose a proper border of the pattern |
| Blacklist.NoOverlapSame | src/main.ts:399 | for a prefix that cannot overlap itself, an occurrence starting inside another is that same occurrence, so resuming after a hit skips none |
| Blacklist.PrefixHitSound | src/main.ts:388-403 | every phrase the scan reports really occurs in the text |
| Blacklist.PrefixHitComplete | src/main.ts:388-403 | for a prefix that cannot overlap itself, the scan finds every occurrence of the prefix followed by a postfix |
| Blacklist.BlacklistedIff | src/main.ts:388-403 | for prefixes that cannot overlap themselves, the verdict holds exactly when some prefix occurrence anywhere is directly followed by a postfix |
| Blacklist.OverlappingPrefixMissed | src/main.ts:399 | with a prefix that overlaps itself the scan misses a phrase: "aa" then "b" occurs in "aaab", yet the search returns false |
| BlacklistCases.Case378Outcome | src/main.ts:378 | the search is false on the first test text |
| BlacklistCases.Case379Outcome | src/main.ts:379 | the search is false on the second test text |
| BlacklistCases.Case380Outcome | src/main.ts:380 | the search is true on the third test text |
| BlacklistCases.Case381Outcome | src/main.ts:381 | the search is true on the fourth test text |
| BlacklistCases.TestPrefixesDoNotOverlap | src/main.ts:378-381 | the test prefixes "no " and "geen " are non-empty and cannot overlap themselves, so on them the search is an exact phrase search |
| Concerns.MatchesAt | src/main.ts:122-125 | one match record per occurrence, holding its index, its original-case text and no sentence yet |
| Concerns.WordMatches | src/main.ts:122-125 | defines the matches of one word: the occurrences of the word in the lower-cased description, scanned left to right without overlap, as records with the original-case text |
| Concerns.RawMatches | src/main.ts:120-126 | defines the collected matches: those of each word in turn, in the order of the word list |
| Concerns.ScanBack | src/main.ts:128-131 | defines the backward walk from the match index down to a separator or to 0 |
| Concerns.SkipBlanks | src/main.ts:132 | defines the forward skip over separators, newlines and spaces |
| Concerns.SentenceStart | src/main.ts:128-132 | defines the sentence start: the backward walk followed by the skip |
| Concerns.ScanForward | src/main.ts:133-136 | defines the forward walk from one past the start up to a separator or to the end |
| Concerns.Substring | src/main.ts:137 | defines `substring(a, b)`: both ends clamped to the string, and swapped when out of order |
| Concerns.Expand | src/main.ts:127-139 | defines one match after the second loop: the sentence between the start and end walks, and the index re-based on the start |
| Concerns.Flagged | src/main.ts:118-142 | `concerningTexts` returns one entry per raw match |
| Concerns.RawIndexNonNegative | src/main.ts:122-124 | every raw match has a non-negative index |
| Concerns.ScanBackFacts | src/main.ts:129-131 | the backward walk stops at a separator or at 0, with no separator in between |
| Concerns.SkipBlanksFacts | src/main.ts:132 | the forward skip passes only separators, spaces and newlines, and stops at a character that is none of them (or past the end) |
| Concerns.ScanForwardFacts | src/main.ts:133-136 | the forward walk stops at the first separator or at the end of the text |
| Concerns.ScanForwardPasses | src/main.ts:134-136 | the forward walk passes over a stretch without separators |
| Concerns.ExpandFacts | src/main.ts:128-136 | the sentence around a non-blank stretch contains the stretch and has no separator; it does not start with a blank; it runs from just after a blank (or the start) to a separator (or the end) |
| Concerns.WordMatchFacts | src/main.ts:122-124 | a match of a word (case-insensitive) is the original-case slice of the description at its index, and lower-cases to the word |
| Concerns.WordMatchesComplete | src/main.ts:122 | the matches of a word come left to right without overlapping, and every occurrence of the word (case-insensitive) lies inside one of them |
| Concerns.RawMatchFacts | src/main.ts:121-126 | every raw match is a slice of the description that lower-cases to one of the words |
| Concerns.ConcerningWordsAreLowerLetters | src/main.ts:121 | the words "student", "sharer", "deler" and "couple" are non-empty and made of lower-case letters |
| Concerns.LetterIsNotBlank | src/main.ts:132 | a letter is neither a separator nor a space or newline |
| Concerns.WordStretchNotBlank | src/main.ts:122-132 | a stretch that lower-cases to a word of letters contains no blank |
| Concerns.RawMatchIsWord | src/main.ts:121-126 | a raw match is a non-empty stretch of non-blank characters that lower-cases to one of the words |
| Concerns.SentenceSlice | src/main.ts:137 | the sentence slice is non-empty, starts with neither a space nor a newline, holds no separator, and contains the matched text; in the description it is preceded by a blank or the start and followed by a separator or the end |
| Concerns.ExpandIsSlice | src/main.ts:137-138 | when the walks stay inside the text, `substring` is a plain slice and the index is re-based on the sentence start |
| Concerns.ExpandStretch | src/main.ts:127-139 | the expansion of a non-blank stretch keeps its text; its sentence is a non-empty, separator-free slice of the description with no leading blank, bounded by a blank or the start and by a separator or the end; the text sits at the re-based index |
| Concerns.ExpandMatch | src/main.ts:127-139 | the backward walk, the blank skip and the forward walk of the `for` loop compute the expansion `Expand` describes |
| Concerns.FlaggedAt | src/main.ts:127-139 | the `k`-th returned entry is the `k`-th raw match, expanded |
| Concerns.FlaggedMatchFacts | src/main.ts:118-142 | every returned entry has a non-empty sentence with no separator and no leading space or newline; the matched text appears in the sentence at `index` and is a concerning word up to case |
| Concerns.FlaggedExpands | src/main.ts:118-142 | the `k`-th returned entry keeps the `k`-th raw match's text; its sentence is the stretch of the description between the blank before it (or the start) and the next separator (or the end); the raw index minus the re-based index is where that sentence starts |
| Concerns.MatchAll | src/main.ts:122 | `matchAll(new RegExp(word, 'gi'))` returns the case-insensitive non-overlapping occurrences, left to right |
| Concerns.ScanMatches | src/main.ts:122 | the regular-expression engine's `lastIndex` loop over the case-folded text yields one match per occurrence, in order |
| Concerns.MatchesAtSnoc | src/main.ts:124 | an occurrence that fits in the text keeps the occurrences in range, and appending it appends its match record |
| Concerns.CollectMatches | src/main.ts:120-126 | the first loop of `concerningTexts` collects the matches of every word, word by word |
| Concerns.ConcerningTexts | src/main.ts:118-142 | `concerningTexts(description)` returns exactly `Flagged(description)` |
| Advert.RunEnd | src/main.ts:281 | the greedy `[^a-zA-Z]+` run ends at the first ASCII letter or at the end of the text |
| Advert.GroupDigits | src/main.ts:281-285 | every captured group size is a single digit |
| Advert.GroupDigitsSound | src/main.ts:281-285 | every captured digit is the digit of a real match of the pattern |
| Advert.FirstGroupMatchFound | src/main.ts:281-285 | the first match of the pattern is the first capture |
| Advert.MinAll | src/main.ts:279-286 | `Math.min` over a list is at most each element and the start value, and is one of them |
| Advert.GroupCandidates | src/main.ts:281-285 | defines the digits the five patterns capture, in pattern order |
| Advert.BedroomBound | src/main.ts:280 | defines the bedroom count's bound on the group size: the count, or Infinity when it is 0 |
| Advert.PeopleCount | src/main.ts:278-287 | defines the group size: `Math.min` of the bedroom bound and every captured digit |
| Advert.PeopleCountIsMinimum | src/main.ts:278-287 | the group size is the least of the bedroom bound (the bedroom count, or Infinity when it is 0) and the captured digits, and is one of them |
| Advert.PeopleCountInfinite | src/main.ts:279-286 | the group size is `Infinity` exactly when the bedroom count is 0 and nothing was captured; otherwise, with no bedrooms, it is below 10 |
| Advert.RoomPrice | src/main.ts:291 | `price / peopleCount`: 0 for `Infinity` people; `NaN` for 0/0; `Infinity` for a positive price over 0; otherwise the exact quotient |
| Advert.OverCeiling | src/main.ts:323 | defines `roomPrice > MAX_ROOM_PRICE` on JavaScript numbers: false for NaN, true for Infinity |
| Advert.CeilingExact | src/main.ts:323 | a group of n > 0 is too expensive exactly when price > n × ceiling; an unknown size only when the ceiling is negative; a group of 0 exactly when the price is positive |
| Advert.FillIfFalsy | src/main.ts:295-298 | the or-assignment of `field` keeps a non-empty string and replaces an unset or empty one |
| Advert.Enrich | src/main.ts:262-299 | defines the record after a visit: bedroom count and group size written when unset, price and price per person recomputed, details marked read, `responded`, title and e-mail or-assigned |
| Advert.EnrichFacts | src/main.ts:262-299 | after a visit, the record has bedroom count, group size, price, price per person, title and `responded` set, and is marked as having details; the price and price per person come from this visit; the radius, verdict and concerns are untouched |
| Advert.FirstWriteWins | src/main.ts:262-299 | bedroom count, group size and a non-empty title or e-mail from an earlier visit survive later visits; the price follows the latest visit |
| Advert.EnrichIdempotent | src/main.ts:262-299 | visiting the same page twice gives the same record as visiting it once |
| Advert.Judge | src/main.ts:309-331 | rejected only when the description is blacklisted; too expensive only when not blacklisted and over the ceiling; suitable only when neither |
| Advert.Conclude | src/main.ts:321-331 | stores the concerns only when none were stored yet (an or-assignment of an array, which is truthy even when empty), sets `suitable` to whether the verdict is Suitable, and changes nothing else |
| Advert.GroupSizeCase | src/main.ts:282 | "2 persons," gives a group of 2 |
| Advert.GroupSkip | src/main.ts:281-285 | positions where the pattern does not match do not change what is captured |
| Advert.SwallowPerson | src/main.ts:281 | in "4 person 1 person." the `person` pattern captures only 4 |
| Advert.GroupRunSwallowsDigit | src/main.ts:281 | the first match's `[^a-zA-Z]+` run consumes "1 ", so the second phrase is never captured although the pattern matches there; the group size is 4 |
| ExclusionFile.SetAdd | src/main.ts:313 | `set.add(v)` keeps the set duplicate-free, holds exactly the old elements and `v`, and appends `v` only when it is new |
| ExclusionFile.Join | src/main.ts:86 | defines `join('\n')`: the values with one newline between neighbours, the empty string for none |
| ExclusionFile.FileText | src/main.ts:84-87 | defines the contents `saveExcludedLinks` writes: the set in insertion order, joined with newlines |
| ExclusionFile.Split | src/main.ts:156 | `split('\n')` always gives at least one piece |
| ExclusionFile.SplitNoNewline | src/main.ts:156 | a string without newlines splits into itself |
| ExclusionFile.SplitSnoc | src/main.ts:156 | one more character either starts a new piece (a newline) or extends the last piece |
| ExclusionFile.SplitAtNewline | src/main.ts:156 | splitting at a newline concatenates the pieces of both sides |
| ExclusionFile.SplitJoin | src/main.ts:156 | joining newline-free values with newlines (line 86) and splitting the text again gives the values back |
| ExclusionFile.AddPieces | src/main.ts:156 | adding the non-empty pieces keeps the set duplicate-free and adds exactly those pieces |
| ExclusionFile.Loaded | src/main.ts:151-159 | the excluded links at start-up are duplicate-free, hold no empty string, and are exactly the non-empty pieces of the file (none when the file is missing) |
| ExclusionFile.AddDistinctPieces | src/main.ts:156 | distinct, new, non-empty pieces are appended in order |
| ExclusionFile.SaveLoadRoundTrip | src/main.ts:151-159 | saving (the join at line 86) and loading again restores distinct, non-empty, newline-free excluded links in their order |
| ExclusionFile.NewlineValueSplits | src/main.ts:156 | a link `a + "\n" + b` of two distinct non-empty newline-free parts comes back as the two links `a` and `b` |
| Listings.ReconciledIsChecking | src/main.ts:226-239 | the state after reconciliation meets the invariant the advert loop keeps |
| Listings.ExtendsTrans | src/main.ts:190-224 | keeping exclusions, records and worklist prefix composes over phases |
| Listings.AddLink | src/main.ts:66-77 | defines one link of a page: passed over when it has a record or an exclusion, else a fresh record at this radius, the flag set and the link pushed on the worklist |
| Listings.AddLinks | src/main.ts:65-78 | defines the dedup loop of `scanLinks`: the page's links one after another |
| Listings.AddLinksFacts | src/main.ts:65-78 | the records gain exactly the page's links that had neither a record nor an exclusion, each as a fresh record at this radius, and no existing record changes; the worklist gains exactly those links, once each; the dirty flag is set exactly when something was added |
| Listings.RepeatedLinkOnce | src/main.ts:65-78 | a link shown twice on a page is added once |
| Listings.PageLinks | src/main.ts:209-215 | defines what page `p` of a tier shows: page 1 is the tier page itself, the others their own result page |
| Listings.ScanPages | src/main.ts:209-216 | defines scanning a sequence of pages: each page's links added in turn |
| Listings.ScanTier | src/main.ts:194-217 | defines one radius: the pages the tier's page count selects, in order |
| Listings.ScanTiers | src/main.ts:193-219 | defines radii 0 up to `n - 1` of one city, in order |
| Listings.TierCount | src/main.ts:193 | defines the number of radii `0 <= d <= maxDistanceKm` |
| Listings.CollectPlaces | src/main.ts:190-224 | defines the collecting phase: the radii of each place in turn |
| Listings.ScanPagesSnoc | src/main.ts:209-215 | scanning one more page adds that page's links to the store the earlier pages left |
| Listings.TierPages | src/main.ts:209-217 | every page scanned in a tier is numbered 1 or more |
| Listings.TierPagesSpec | src/main.ts:209-217 | the pages scanned in a tier are 1 up to min(pageCount, 4), each once, in order; a page count of 1 or less scans page 1 only |
| Listings.ScanPagesFacts | src/main.ts:209-217 | scanning a tier's pages keeps the store's earlier contents and the collecting invariant, and adds only fresh records at this radius |
| Listings.ScanTiersFacts | src/main.ts:193-218 | over radii 0 to n − 1, every record added has a radius below n and no details |
| Listings.CollectPlacesFacts | src/main.ts:190-224 | after collecting, every worklist link has a record (the assertion at lines 221-223); the worklist is duplicate-free and holds no excluded link; earlier records are kept; new records have a non-negative radius and no details |
| Listings.ReconcileKey | src/main.ts:227-234 | defines one key: a key not excluded is pushed on the worklist unless already there; an excluded key loses its record and sets the flag |
| Listings.ReconcileKeys | src/main.ts:226-235 | defines the reconciliation loop over the keys in the given order |
| Listings.ReconcileKeysFacts | src/main.ts:226-235 | over distinct keys: exactly the excluded keys lose their record, other records are unchanged, every key that is not excluded ends up in the worklist, the worklist keeps its order, and the dirty flag is set exactly when a record was dropped |
| Listings.ReconcileEstablishes | src/main.ts:226-235 | over all keys, no record is excluded and every record is on the worklist; the records are the old ones minus the excluded ones; the worklist extends the old one |
| Listings.Exclude | src/main.ts:313-315 | the link becomes excluded, loses its record, and the dirty flag is set |
| Listings.ExcludeKeeps | src/main.ts:313-315 | excluding a worklist link keeps the checking invariant, drops only that record, and adds only that link to the exclusions |
| Listings.CheckAdvert | src/main.ts:239-331 | defines one pass of the advert loop: skipped with details unless refreshing, excluded when vanished, otherwise enriched and then excluded, or kept with its concerns and suitability, by the verdict |
| Listings.CheckAdvertFacts | src/main.ts:239-331 | skipped exactly when details exist and are not refreshed, and then nothing changes; excluded when the advert has vanished or is blacklisted; otherwise the record gets details, concerns, a price per person and `suitable`, which is false exactly when over the ceiling; every other record is untouched |
| Listings.CheckAdvertKeeps | src/main.ts:239-331 | each pass keeps the checking invariant and the worklist, and changes no other record |
| Listings.CheckAllStep | src/main.ts:239-241 | the next worklist link, when it has a record, is checked in the state the earlier links left |
| Listings.CheckAll | src/main.ts:239-367 | defines the advert loop over the worklist in order; no store (the TypeError) when a link has no record |
| Listings.CheckAllFacts | src/main.ts:239-367 | over distinct links that have records, the advert loop never meets a missing record (no TypeError), keeps the checking invariant, and leaves unvisited records alone |
| Listings.CheckingPhase | src/main.ts:237-367 | after reconciliation, the advert loop completes and leaves records and exclusions disjoint |
| Listings.WholeRun | src/main.ts:146-367 | from the loaded files through collecting, reconciling and checking, the advert loop completes; no record ends excluded; every worklist link ends with a record or an exclusion |
| Persistence.StartSaving | src/main.ts:100-101 | `saveSometimes` records the current size of the set and starts no write |
| Persistence.OnTick | src/main.ts:102-111 | a tick starts an `excludedLinks.txt` write of the set exactly when its size differs from the recorded one, and a `data.json` write of the records exactly when the flag is set; nothing else changes |
| Persistence.OnDataWritten | src/main.ts:95-98 | defines the completion of the oldest `data.json` write: the file holds what it carried and the flag is cleared |
| Persistence.OnExclWritten | src/main.ts:104-106 | defines the completion of the oldest `excludedLinks.txt` write: the file holds what it carried and the current size is recorded |
| Persistence.Step | src/main.ts:91-111 | defines one event: a change that notifies, a tick, or a completion |
| Persistence.Run | src/main.ts:100-111 | defines a run of events in order |
| Persistence.Ticks | src/main.ts:102 | a run of n timer ticks |
| Persistence.TicksFacts | src/main.ts:102-111 | ticks never change the store, the recorded size or the files; with the flag clear no data write starts; with the size unchanged no exclusion write starts |
| Persistence.LastDataWrite | src/main.ts:95-98 | when the last data write completes, the flag is clear, and the file is up to date exactly when no record changed after the write started |
| Persistence.LastExclWrite | src/main.ts:104-106 | when the last exclusion write completes, the recorded size is the current size, and the file is up to date exactly when the set did not change after the write started |
| Persistence.QuietFlush | src/main.ts:95-111 | with no change while writes are in flight, a tick and the completion of its writes bring both files up to date |
| Persistence.OneDataWrite | src/main.ts:95-110 | with no change in between, tick, completion, tick starts exactly one `data.json` write (the second tick starts none) and leaves the file up to date and the flag clear |
| Persistence.TwoTicksTwoWrites | src/main.ts:95-110 | two ticks before the write completes start two writes of the same records; the first completion clears the flag with the second still in flight |
| Persistence.RunThree | src/main.ts:102-111 | running three events, then the rest |
| Persistence.DataUpdateLost | src/main.ts:95-110 | a record added while a `data.json` write is in flight is cleared from the flag by that write's completion; no later tick writes it, so the file stays stale |
| Persistence.ExclusionLost | src/main.ts:103-106 | for any two distinct links, the second excluded while an `excludedLinks.txt` write is in flight is covered by the new size recorded at completion; no later tick writes it, so the loaded file lacks the link |
| Engine.LinkStore.constructor | src/common.ts:25-34 | the records start as the parsed `data.json`, or empty when it is missing; no exclusions, an empty worklist, a clean flag, no write in flight |
| Engine.LinkStore.Notify | src/main.ts:91-93 | `notifyChangedLinkInfo` sets the flag and nothing else |
| Engine.LinkStore.LoadExcludedLinks | src/main.ts:151-159 | the load loop leaves exactly the non-empty pieces of the file in the set |
| Engine.LinkStore.ScanLinks | src/main.ts:65-78 | the dedup loop of `scanLinks` leaves the store `AddLinks` describes |
| Engine.LinkStore.ScanTier | src/main.ts:196-217 | page 1, then the chunked loop from `si = 2`, leaves the store `Listings.ScanTier` describes |
| Engine.LinkStore.ScanChunk | src/main.ts:206-215 | the pages of one chunk, scanned one after another, leave the store `ScanPages` describes for the pages done so far followed by the chunk; the flush is untouched |
| Engine.LinkStore.CollectPlace | src/main.ts:193-218 | the radius loop of one place |
| Engine.LinkStore.CollectLinks | src/main.ts:190-224 | the collecting phase keeps the collecting invariant and leaves the store `CollectPlaces` describes, checking the assertion at lines 221-223 in the loop |
| Engine.LinkStore.Reconcile | src/main.ts:226-235 | the reconciliation loop leaves the store `ReconcileKeys` describes |
| Engine.LinkStore.ExcludeLink | src/main.ts:313-315 | the state `Exclude` describes |
| Engine.LinkStore.CheckAdvert | src/main.ts:241-332 | one pass, with the blacklist search and `concerningTexts` run as methods, yields the state and verdict `Listings.CheckAdvert` describes |
| Engine.LinkStore.Settle | src/main.ts:300-331 | the verdict is `Judge`'s; a rejected link ends excluded as `Exclude` describes; otherwise the record becomes the concluded one and the flag is set; the flush is untouched |
| Engine.LinkStore.CheckAdverts | src/main.ts:239-367 | the advert loop completes, leaves the state `CheckAll` describes, and keeps the checking invariant |
| Engine.LinkStore.SaveSometimes | src/main.ts:100-101 | the state `StartSaving` describes |
| Engine.LinkStore.Tick | src/main.ts:102-111 | the state `OnTick` describes |
| Engine.LinkStore.DataWriteDone | src/main.ts:95-98 | the oldest data write lands in the file and clears the flag |
| Engine.LinkStore.ExclWriteDone | src/main.ts:104-106 | the oldest exclusion write lands in the file and the current size is recorded |
| Engine.PrefixDistinct | src/main.ts:239 | a prefix of a duplicate-free worklist is duplicate-free and does not hold the next link |
| Engine.RunBot | src/main.ts:146-367 | `main` without the browser ends in the reconciled-then-checked store; the advert loop never fails; records and exclusions end disjoint; the flush has started with the loaded set's size |

## Left out

- Browser automation is not modelled: page navigation, the newsletter modal, cookies, login,
  `delay` and `page.close()`. What a page shows is an input:
  - `results`: the links of a search page, after the "rented" and "under option" filters;
  - `pageCounts`: the page count of a tier page;
  - `pages`: an `Advert` value per link, holding the not-found flag, the description, the
    bedroom count, the captured price text, the trimmed title and the e-mail.
- `trim` and the DOM's `innerText` are not modelled: titles and e-mails arrive already
  trimmed.
- JSON is not modelled. `data.json` is a map of records. The loss of `Infinity` to `null` on
  a save is not modelled.
- Logging (`console.log`, `chalk`) is not modelled.
- File I/O and timers are events: a write takes its contents when it starts, and writes to
  one file complete in the order they started. Writes that finish out of order are not
  modelled.
- Timer ticks that fall between the awaits of `main` are not modelled. `RunBot` runs the
  phases with no tick in between. `Persistence` models ticks, writes and changes in any
  order.
- `Promise.all` over the pages of a chunk is modelled as the pages in ascending order. The
  pages of one tier can only add disjoint new links, but the order of the new links on the
  worklist does depend on that order.
- `Object.keys` order is not modelled; it is the parameter `keys`, any duplicate-free
  enumeration of the records.
- `toLowerCase` is ASCII only here. Unicode case mapping is left out, along with lengths
  that change under it.
- Numbers are exact `real`s and `nat`s, so floating-point rounding of the price per person is
  not modelled. A non-numeric or non-integer page count or bedroom count (`NaN`) is not
  representable.
- The configuration (`config.ts`) is not modelled. The assertions at src/main.ts:382-386 are
  about its blacklist lists and are left out.
- `refreshContactDetails` is the parameter `refresh`; the program always passes false.
- Blacklist.PrefixPostfixSearch requires non-empty prefixes, because with an empty prefix the
  source loops forever (`indexOf` of the empty string keeps returning `start`) unless the text
  is empty (the `while` is never entered) or a postfix starts at position 0 (it returns true).
- Blacklist.BlacklistedIff holds only for prefixes that cannot overlap themselves. For other
  prefixes the source's scan can miss a phrase, and that is modelled as the code does it
  (`Blacklist.OverlappingPrefixMissed`).
- The `responder.ts` e-mail sender is not part of this model.
- A price heading the pattern `€\s*([\d.]+)` does not match makes the `!` at src/main.ts:289
  throw a TypeError, which rejects `main`. The model takes every advert page as one the
  pattern matched (`Listings.WellFormed`, required of `pages`).
- A failed `fs.writeFile` (src/main.ts:86, 96) is an unhandled rejection in the source; the
  model's writes always complete.
- `ConcerningMatch.index` and `substring` count UTF-16 code units (src/main.ts:122-137). A
  Dafny `char` is a Unicode scalar value, so the model's index is one less than the source's
  for each character outside the Basic Multilingual Plane before the match.

Two behaviours of the code that a reader might not expect, modelled as the code has them:

- One might expect the next tick to catch a change made while a write is in flight. It does
  not: `saveLinkInfo` clears the flag when the write completes, and the exclusion write
  records the size at completion (src/main.ts:97, 105). The change reaches the file only
  after a further change (`Persistence.DataUpdateLost`, `Persistence.ExclusionLost`).
- One might expect the blacklist search to check every occurrence of a prefix. It resumes
  after each occurrence, so it visits non-overlapping occurrences only (src/main.ts:399); for a
  prefix that overlaps itself it can miss a phrase (`Blacklist.OverlappingPrefixMissed`).
