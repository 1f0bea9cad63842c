/** The rules applied to one advert page (src/main.ts:241-331): the group
    size read from the description, the price per person, the fields that are
    written only once, and the verdict. The page reading itself is left out;
    what it yields is an `Advert` value. */
module Advert {
  import opened Text
  import opened Common
  import opened Paths
  import opened Blacklist
  import opened Concerns

  /** What an advert page yields: whether it shows "rental not found", the
      description text, the bedroom count (`+text || 0`), the characters
      the price pattern captured, the trimmed title, and the trimmed e-mail
      address when the page shows one. */
  datatype Advert = Advert(
    notFound: bool,
    description: string,
    bedroomCount: nat,
    priceText: string,
    title: string,
    email: Option<string>)

  /** The configuration values the rules read. */
  datatype Config = Config(prefixes: seq<string>, postfixes: seq<string>, maxRoomPrice: real)

  /** What happened to the advert; `Rejected` is the blacklist verdict. */
  datatype Verdict = Skipped | NotFound | Rejected | TooExpensive | Suitable

  // ---------------------------------------------------------------------
  // Group size

  const PeopleWords: seq<string> := ["person", "persons", "people", "persoon", "personen"]

  /** `/(\d)\s<word>[^a-zA-Z]+/` matches at `i`: a digit, one whitespace
      character, the word (case-sensitive) and at least one character that
      is not an ASCII letter. */
  predicate GroupMatchAt(d: string, word: string, i: nat) {
    i + 2 + |word| < |d| && IsDigit(d[i]) && IsJsWhitespace(d[i + 1]) &&
    d[i + 2..i + 2 + |word|] == word && !IsAsciiLetter(d[i + 2 + |word|])
  }

  /** The greedy `[^a-zA-Z]+` run: the first ASCII letter at or after `j`, or
      the end. */
  function RunEnd(d: string, j: nat): (k: nat)
    requires j <= |d|
    ensures j <= k <= |d|
    ensures k == |d| || IsAsciiLetter(d[k])
    ensures forall x :: j <= x < k ==> !IsAsciiLetter(d[x])
    decreases |d| - j
  {
    if j < |d| && !IsAsciiLetter(d[j]) then RunEnd(d, j + 1) else j
  }

  /** The digits `matchAll` captures for one word: the search tries each
      position from `from`, and after a match resumes where the run of
      non-letters ends, so a digit inside that run is never seen. */
  function GroupDigits(d: string, word: string, from: nat): (r: seq<nat>)
    requires from <= |d|
    ensures forall k :: 0 <= k < |r| ==> r[k] < 10
    decreases |d| - from
  {
    if from == |d| then []
    else if GroupMatchAt(d, word, from) then
      [d[from] as int - '0' as int] + GroupDigits(d, word, RunEnd(d, from + 2 + |word| + 1))
    else GroupDigits(d, word, from + 1)
  }

  /** Every captured digit is the digit of a real match. */
  lemma {:induction false} GroupDigitsSound(d: string, word: string, from: nat, k: nat)
    requires from <= |d| && k < |GroupDigits(d, word, from)|
    ensures exists i :: from <= i < |d| && GroupMatchAt(d, word, i) && GroupDigits(d, word, from)[k] == d[i] as int - '0' as int
    decreases |d| - from
  {
    if from < |d| {
      if GroupMatchAt(d, word, from) {
        if k > 0 {
          GroupDigitsSound(d, word, RunEnd(d, from + 2 + |word| + 1), k - 1);
        }
      } else {
        GroupDigitsSound(d, word, from + 1, k);
      }
    }
  }

  /** A match that no earlier match's run swallows is reported: in
      particular the first one. */
  lemma {:induction false} FirstGroupMatchFound(d: string, word: string, from: nat, i: nat)
    requires from <= i && GroupMatchAt(d, word, i)
    requires forall j :: from <= j < i ==> !GroupMatchAt(d, word, j)
    ensures |GroupDigits(d, word, from)| > 0 && GroupDigits(d, word, from)[0] == d[i] as int - '0' as int
    decreases i - from
  {
    if from < i {
      FirstGroupMatchFound(d, word, from + 1, i);
    }
  }

  /** All digits captured by the five patterns, in pattern order. */
  function GroupCandidates(d: string): seq<nat> {
    GroupDigits(d, PeopleWords[0], 0) + GroupDigits(d, PeopleWords[1], 0) + GroupDigits(d, PeopleWords[2], 0) +
    GroupDigits(d, PeopleWords[3], 0) + GroupDigits(d, PeopleWords[4], 0)
  }

  /** `Math.min(acc, ...xs)`. */
  function MinAll(acc: ExtNat, xs: seq<nat>): (r: ExtNat)
    ensures ExtLe(r, acc) && forall k :: 0 <= k < |xs| ==> ExtLe(r, Fin(xs[k]))
    ensures r == acc || exists k :: 0 <= k < |xs| && r == Fin(xs[k])
  {
    if xs == [] then acc
    else
      var m := MinAll(acc, xs[..|xs| - 1]);
      var r := ExtMin(m, Fin(xs[|xs| - 1]));
      assert forall k :: 0 <= k < |xs| - 1 ==> xs[..|xs| - 1][k] == xs[k];
      r
  }

  /** The bedroom count's contribution: `bedroomCount || Infinity`. */
  function BedroomBound(bedroomCount: nat): ExtNat {
    if bedroomCount == 0 then Inf else Fin(bedroomCount)
  }

  /** `peopleCount` (src/main.ts:279-286). */
  function PeopleCount(bedroomCount: nat, d: string): ExtNat {
    MinAll(BedroomBound(bedroomCount), GroupCandidates(d))
  }

  /** The group size is the least of the bedroom bound and the captured
      digits, and is one of them. */
  lemma PeopleCountIsMinimum(bedroomCount: nat, d: string)
    ensures var r := PeopleCount(bedroomCount, d);
      var cs := GroupCandidates(d);
      ExtLe(r, BedroomBound(bedroomCount)) && (forall k :: 0 <= k < |cs| ==> ExtLe(r, Fin(cs[k]))) &&
      (r == BedroomBound(bedroomCount) || exists k :: 0 <= k < |cs| && r == Fin(cs[k]))
  {
  }

  /** The size is unknown (Infinity) exactly when the bedroom count is 0 and
      no pattern matched; a known size found in the text is a single digit. */
  lemma PeopleCountInfinite(bedroomCount: nat, d: string)
    ensures PeopleCount(bedroomCount, d) == Inf <==> bedroomCount == 0 && GroupCandidates(d) == []
    ensures bedroomCount == 0 && PeopleCount(bedroomCount, d).Fin? ==> PeopleCount(bedroomCount, d).n < 10
  {
    var cs := GroupCandidates(d);
    var r := PeopleCount(bedroomCount, d);
    assert forall k :: 0 <= k < |cs| ==> cs[k] < 10;
    if cs != [] {
      assert ExtLe(r, Fin(cs[0]));
    }
  }

  // ---------------------------------------------------------------------
  // Price per person

  /** `price / peopleCount` as a JavaScript number. */
  function RoomPrice(price: nat, peopleCount: ExtNat): (r: JsNumber)
    ensures peopleCount == Inf ==> r == Finite(0.0)
    ensures peopleCount == Fin(0) ==> r == (if price == 0 then NaN else PosInfinity)
    ensures (peopleCount.Fin? && peopleCount.n > 0) ==> r.Finite? && r.r * peopleCount.n as real == price as real
  {
    match peopleCount
    case Inf => Finite(0.0)
    case Fin(n) => if n == 0 then (if price == 0 then NaN else PosInfinity) else Finite(price as real / n as real)
  }

  /** `roomPrice > MAX_ROOM_PRICE`: false for NaN, true for Infinity. */
  predicate OverCeiling(roomPrice: JsNumber, max: real) {
    match roomPrice
    case NaN => false
    case PosInfinity => true
    case Finite(x) => x > max
  }

  /** The ceiling test without division: a known group of n > 0 people is
      too expensive exactly when the price exceeds n times the ceiling; an
      unknown group size never is (for a non-negative ceiling); a group of 0
      always is unless the price is 0. */
  lemma CeilingExact(price: nat, peopleCount: ExtNat, max: real)
    ensures peopleCount.Fin? && peopleCount.n > 0 ==>
      (OverCeiling(RoomPrice(price, peopleCount), max) <==> price as real > max * peopleCount.n as real)
    ensures peopleCount == Inf ==> (OverCeiling(RoomPrice(price, peopleCount), max) <==> max < 0.0)
    ensures peopleCount == Fin(0) ==> (OverCeiling(RoomPrice(price, peopleCount), max) <==> price > 0)
  {
    if peopleCount.Fin? && peopleCount.n > 0 {
      var n := peopleCount.n as real;
      var x := price as real / n;
      assert x * n == price as real;
      if x > max {
        assert x * n > max * n;
      } else {
        assert x * n <= max * n;
      }
    }
  }

  // ---------------------------------------------------------------------
  // Updating the record

  /** `field ||= value` on an optional string: an unset or empty value is
      replaced. */
  function FillIfFalsy(field: Option<string>, value: string): (r: Option<string>)
    ensures field.Some? && field.value != "" ==> r == field
    ensures (field.None? || field.value == "") ==> r == Some(value)
  {
    if field.None? || field.value == "" then Some(value) else field
  }

  /** Lines 264-298: bedroom count and group size written only when unset;
      price and price per person recomputed; details marked as read;
      `responded ||= false`; title and e-mail written only when falsy. */
  function Enrich(info: LinkInfo, ad: Advert): (r: LinkInfo)
    requires PriceText(ad.priceText)
  {
    var bedrooms := if info.bedroomCount.None? then ad.bedroomCount else info.bedroomCount.value;
    var people := if info.peopleCount.None? then PeopleCount(bedrooms, ad.description) else info.peopleCount.value;
    var price := ParsePrice(ad.priceText);
    info.(
      bedroomCount := Some(bedrooms),
      peopleCount := Some(people),
      price := Some(price),
      roomPrice := Some(RoomPrice(price, people)),
      hasDetails := true,
      responded := Some(info.responded == Some(true)),
      title := FillIfFalsy(info.title, ad.title),
      email := if ad.email.Some? then FillIfFalsy(info.email, ad.email.value) else info.email)
  }

  /** What the enrichment guarantees: every computed field is present and the
      price per person is derived from this visit's price and the stored
      group size; the distance and the verdict fields are untouched. */
  lemma EnrichFacts(info: LinkInfo, ad: Advert)
    requires PriceText(ad.priceText)
    ensures var r := Enrich(info, ad);
      r.hasDetails && r.bedroomCount.Some? && r.peopleCount.Some? && r.responded.Some? && r.title.Some? &&
      r.price == Some(ParsePrice(ad.priceText)) &&
      r.roomPrice == Some(RoomPrice(r.price.value, r.peopleCount.value)) &&
      r.distance == info.distance && r.suitable == info.suitable && r.concerningTexts == info.concerningTexts &&
      (info.responded == Some(true) <==> r.responded == Some(true))
  {
  }

  /** First write wins: what an earlier visit stored for the bedroom count,
      the group size, a non-empty title and a non-empty e-mail survives every
      later visit, while the price follows the latest visit. */
  lemma FirstWriteWins(info: LinkInfo, first: Advert, later: Advert)
    requires PriceText(first.priceText) && PriceText(later.priceText)
    ensures var once := Enrich(info, first);
      var twice := Enrich(once, later);
      twice.bedroomCount == once.bedroomCount && twice.peopleCount == once.peopleCount &&
      (once.title.value != "" ==> twice.title == once.title) &&
      (once.email.Some? && once.email.value != "" ==> twice.email == once.email) &&
      twice.price == Some(ParsePrice(later.priceText)) &&
      twice.roomPrice == Some(RoomPrice(ParsePrice(later.priceText), once.peopleCount.value))
  {
  }

  /** Visiting the same page again changes nothing further. */
  lemma EnrichIdempotent(info: LinkInfo, ad: Advert)
    requires PriceText(ad.priceText)
    ensures Enrich(Enrich(info, ad), ad) == Enrich(info, ad)
  {
  }

  /** The verdict for an advert whose record has been enriched (lines
      308-328): blacklisted text first, then the price ceiling. */
  function Judge(info: LinkInfo, ad: Advert, cfg: Config): (v: Verdict)
    requires NonEmptyPrefixes(cfg.prefixes)
    requires info.roomPrice.Some?
    ensures v == Rejected ==> Blacklisted(cfg.prefixes, cfg.postfixes, Lower(ad.description))
    ensures v == TooExpensive ==> !Blacklisted(cfg.prefixes, cfg.postfixes, Lower(ad.description)) && OverCeiling(info.roomPrice.value, cfg.maxRoomPrice)
    ensures v == Suitable ==> !Blacklisted(cfg.prefixes, cfg.postfixes, Lower(ad.description)) && !OverCeiling(info.roomPrice.value, cfg.maxRoomPrice)
    ensures v != Skipped && v != NotFound
  {
    if Blacklisted(cfg.prefixes, cfg.postfixes, Lower(ad.description)) then Rejected
    else if OverCeiling(info.roomPrice.value, cfg.maxRoomPrice) then TooExpensive
    else Suitable
  }

  /** The record kept for a judged advert: concerns stored when none were
      stored yet (an empty list is a truthy array), and the suitability
      flag. */
  function Conclude(info: LinkInfo, ad: Advert, v: Verdict): (r: LinkInfo)
    requires v == TooExpensive || v == Suitable
    ensures r.suitable == Some(v == Suitable)
    ensures info.concerningTexts.Some? ==> r.concerningTexts == info.concerningTexts
    ensures info.concerningTexts.None? ==> r.concerningTexts == Some(Flagged(ad.description))
    ensures r.(suitable := info.suitable, concerningTexts := info.concerningTexts) == info
  {
    info.(
      concerningTexts := if info.concerningTexts.None? then Some(Flagged(ad.description)) else info.concerningTexts,
      suitable := Some(v == Suitable))
  }

  /** Group-size vectors: "2 persons," is a match for "persons" but not for
      "person" (an "s" follows it), so the size is 2. */
  lemma GroupSizeCase()
    ensures PeopleCount(0, "2 persons,") == Fin(2)
  {
    var d := "2 persons,";
    assert GroupMatchAt(d, "persons", 0);
    assert RunEnd(d, 10) == 10;
    assert GroupDigits(d, "persons", 0) == [2];
    assert !GroupMatchAt(d, "person", 0);
    assert forall i :: 0 < i < |d| ==> !IsDigit(d[i]);
    assert GroupDigits(d, "person", 0) == [];
    assert GroupDigits(d, "people", 0) == [];
    assert GroupDigits(d, "persoon", 0) == [];
    assert GroupDigits(d, "personen", 0) == [];
  }

  /** The search passes over positions where the pattern does not match. */
  lemma {:induction false} GroupSkip(d: string, word: string, from: nat, to: nat)
    requires from <= to <= |d|
    requires forall i :: from <= i < to ==> !GroupMatchAt(d, word, i)
    ensures GroupDigits(d, word, from) == GroupDigits(d, word, to)
    decreases |d| - from
  {
    if from < to {
      GroupSkip(d, word, from + 1, to);
    }
  }

  const Swallow: string := "4 person 1 person."

  lemma SwallowDigits()
    ensures forall i :: 0 <= i < |Swallow| && i != 0 && i != 9 ==> !IsDigit(Swallow[i])
  {
  }

  /** A word that matches at neither digit of `Swallow` captures nothing. */
  lemma SwallowOtherWord(word: string)
    requires !GroupMatchAt(Swallow, word, 0) && !GroupMatchAt(Swallow, word, 9)
    ensures GroupDigits(Swallow, word, 0) == []
  {
    SwallowDigits();
    GroupSkip(Swallow, word, 0, |Swallow|);
  }

  /** "person" matches at 0; its run ends at the second "person", and the
      rest holds no match. */
  lemma SwallowPerson()
    ensures GroupDigits(Swallow, "person", 0) == [4]
  {
    var d := Swallow;
    assert d[2..8] == "person";
    assert GroupMatchAt(d, "person", 0);
    assert RunEnd(d, 9) == 11 by {
      assert !IsAsciiLetter(d[9]) && !IsAsciiLetter(d[10]) && IsAsciiLetter(d[11]);
    }
    SwallowDigits();
    GroupSkip(d, "person", 11, |d|);
  }

  lemma SwallowPersons()
    ensures GroupDigits(Swallow, "persons", 0) == []
  {
    assert Swallow[8] == ' ' && Swallow[17] == '.';
    assert Swallow[2..9][6] == ' ' && Swallow[11..18][6] == '.';
    SwallowOtherWord("persons");
  }

  lemma SwallowPeople()
    ensures GroupDigits(Swallow, "people", 0) == []
  {
    assert Swallow[5] == 's' && Swallow[14] == 's';
    assert Swallow[2..8][3] == 's' && Swallow[11..17][3] == 's';
    SwallowOtherWord("people");
  }

  lemma SwallowPersoon()
    ensures GroupDigits(Swallow, "persoon", 0) == []
  {
    assert Swallow[7] == 'n' && Swallow[16] == 'n';
    assert Swallow[2..9][5] == 'n' && Swallow[11..18][5] == 'n';
    SwallowOtherWord("persoon");
  }

  lemma SwallowPersonen()
    ensures GroupDigits(Swallow, "personen", 0) == []
  {
    assert Swallow[8] == ' ';
    assert Swallow[2..10][6] == ' ';
    SwallowOtherWord("personen");
  }

  /** The run of non-letters after a match can swallow the next group size:
      in "4 person 1 person." the first match runs on to the second "person",
      so 1 is never captured although "1 person." matches on its own. */
  lemma GroupRunSwallowsDigit()
    ensures GroupMatchAt(Swallow, "person", 9)
    ensures PeopleCount(0, Swallow) == Fin(4)
  {
    assert Swallow[11..17] == "person";
    SwallowPerson();
    SwallowPersons();
    SwallowPeople();
    SwallowPersoon();
    SwallowPersonen();
    assert GroupCandidates(Swallow) == [4];
  }
}
