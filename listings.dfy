/** The listing store as values: the `linkInfos` map, the excluded-links set
    (in insertion order), the `links` worklist and the dirty flag, and what
    each phase of the run does to them: collecting links tier by tier
    (src/main.ts:65-78, 187-224), reconciling the stored keys with the
    exclusions (src/main.ts:227-235) and checking every advert
    (src/main.ts:239-331). The class in link_store.dfy performs these steps
    in place and is proved against the functions here. */
module Listings {
  import opened Text
  import opened Common
  import opened Paths
  import opened Blacklist
  import opened ExclusionFile
  import opened Advert

  datatype Store = Store(
    infos: map<string, LinkInfo>,
    excluded: seq<string>,
    links: seq<string>,
    changed: bool)

  /** One place of the configuration: a city and the largest radius. */
  datatype Place = Place(city: string, maxDistanceKm: int)

  // ---------------------------------------------------------------------
  // Invariants

  /** While links are collected: the worklist has no duplicates, and every
      link in it has a record and is not excluded. */
  predicate Collecting(s: Store) {
    Distinct(s.links) && forall l :: l in s.links ==> l in s.infos && l !in s.excluded
  }

  /** After reconciliation: in addition, no record is excluded and every
      record is in the worklist. */
  predicate Reconciled(s: Store) {
    Collecting(s) && (forall k :: k in s.infos ==> k !in s.excluded && k in s.links)
  }

  /** While adverts are checked: a link leaves the records only by being
      excluded, and records and exclusions stay disjoint. */
  predicate Checking(s: Store) {
    Distinct(s.links) &&
    (forall k :: k in s.infos ==> k !in s.excluded && k in s.links) &&
    (forall l :: l in s.links ==> l in s.infos || l in s.excluded)
  }

  lemma ReconciledIsChecking(s: Store)
    requires Reconciled(s)
    ensures Checking(s)
  {
  }

  /** What later steps keep of an earlier store: the exclusions, every record
      as it was, and the worklist as a prefix. */
  predicate Extends(s: Store, r: Store) {
    r.excluded == s.excluded &&
    (forall k :: k in s.infos ==> k in r.infos && r.infos[k] == s.infos[k]) &&
    |s.links| <= |r.links| && r.links[..|s.links|] == s.links
  }

  lemma ExtendsTrans(a: Store, b: Store, c: Store)
    requires Extends(a, b) && Extends(b, c)
    ensures Extends(a, c)
  {
    assert c.links[..|a.links|] == c.links[..|b.links|][..|a.links|];
  }

  // ---------------------------------------------------------------------
  // scanLinks: the dedup loop

  /** One link of a result page (src/main.ts:66-78): a link with a record or
      an exclusion is passed over; a new one gets a fresh record at the
      current radius, sets the dirty flag and joins the worklist. */
  function AddLink(s: Store, link: string, distance: int): Store {
    if link in s.infos || link in s.excluded then s
    else s.(infos := s.infos[link := NewLinkInfo(distance)], links := s.links + [link], changed := true)
  }

  function AddLinks(s: Store, pageLinks: seq<string>, distance: int): Store
    decreases |pageLinks|
  {
    if pageLinks == [] then s
    else AddLink(AddLinks(s, pageLinks[..|pageLinks| - 1], distance), pageLinks[|pageLinks| - 1], distance)
  }

  /** Whether the page holds a link that is new to the store. */
  predicate HasNewLink(s: Store, pageLinks: seq<string>) {
    exists k :: k in pageLinks && k !in s.infos && k !in s.excluded
  }

  /** What a result page does to the store: the records gain exactly the
      page's links that had neither a record nor an exclusion, each as a
      fresh record at this radius; the records already there are untouched;
      the worklist gains exactly those links, once each; the dirty flag is
      set iff something was added. */
  lemma AddLinksFacts(s: Store, pageLinks: seq<string>, distance: int)
    ensures var r := AddLinks(s, pageLinks, distance);
      Extends(s, r) &&
      (forall k :: k in r.infos <==> k in s.infos || (k in pageLinks && k !in s.excluded)) &&
      (forall k :: k in r.infos && k !in s.infos ==> r.infos[k] == NewLinkInfo(distance)) &&
      (forall k :: k in r.links[|s.links|..] <==> k in pageLinks && k !in s.infos && k !in s.excluded) &&
      (Collecting(s) ==> Collecting(r)) &&
      (r.changed <==> s.changed || HasNewLink(s, pageLinks))
  {
    AddLinksOutcome(s, pageLinks, distance);
  }

  /** The statement of AddLinksFacts about a store `r`. */
  ghost predicate AddOutcome(s: Store, pageLinks: seq<string>, distance: int, r: Store) {
    Extends(s, r) &&
    (forall k :: k in r.infos <==> k in s.infos || (k in pageLinks && k !in s.excluded)) &&
    (forall k :: k in r.infos && k !in s.infos ==> r.infos[k] == NewLinkInfo(distance)) &&
    (forall k :: k in r.links[|s.links|..] <==> k in pageLinks && k !in s.infos && k !in s.excluded) &&
    (Collecting(s) ==> Collecting(r)) &&
    (r.changed <==> s.changed || HasNewLink(s, pageLinks))
  }

  lemma {:induction false} AddLinksOutcome(s: Store, pageLinks: seq<string>, distance: int)
    ensures AddOutcome(s, pageLinks, distance, AddLinks(s, pageLinks, distance))
    decreases |pageLinks|
  {
    if pageLinks == [] {
      assert s.links[..|s.links|] == s.links;
      assert s.links[|s.links|..] == [];
    } else {
      var init := pageLinks[..|pageLinks| - 1];
      var link := pageLinks[|pageLinks| - 1];
      assert pageLinks == init + [link];
      AddLinksOutcome(s, init, distance);
      AddLinkStep(s, init, link, distance, AddLinks(s, init, distance));
    }
  }

  /** One more link of the page. */
  lemma AddLinkStep(s: Store, init: seq<string>, link: string, distance: int, m: Store)
    requires AddOutcome(s, init, distance, m)
    ensures AddOutcome(s, init + [link], distance, AddLink(m, link, distance))
  {
    if link in m.infos || link in m.excluded {
      KnownLinkStep(s, init, link, distance, m);
    } else {
      NewLinkStep(s, init, link, distance, m);
    }
  }

  /** A link with a record or an exclusion changes nothing. */
  lemma KnownLinkStep(s: Store, init: seq<string>, link: string, distance: int, m: Store)
    requires AddOutcome(s, init, distance, m) && (link in m.infos || link in m.excluded)
    ensures AddOutcome(s, init + [link], distance, AddLink(m, link, distance))
  {
    var pageLinks := init + [link];
    assert AddLink(m, link, distance) == m;
    assert forall k :: k in pageLinks <==> k in init || k == link;
    if link !in s.infos && link !in s.excluded {
      assert link in init;
    }
    assert HasNewLink(s, pageLinks) ==> HasNewLink(s, init);
  }

  /** A new link gets a fresh record, joins the worklist and sets the flag. */
  lemma NewLinkStep(s: Store, init: seq<string>, link: string, distance: int, m: Store)
    requires AddOutcome(s, init, distance, m) && link !in m.infos && link !in m.excluded
    ensures AddOutcome(s, init + [link], distance, AddLink(m, link, distance))
  {
    var pageLinks := init + [link];
    var r := m.(infos := m.infos[link := NewLinkInfo(distance)], links := m.links + [link], changed := true);
    assert AddLink(m, link, distance) == r;
    assert m.excluded == s.excluded && link !in s.infos;
    PrefixGrows(s.links, m.links, link);
    assert Extends(s, r);
    assert Collecting(s) ==> Collecting(r) by {
      if Collecting(s) {
        assert link !in m.links;
      }
    }
    assert forall k :: k in r.infos <==> k in s.infos || (k in pageLinks && k !in s.excluded) by {
      assert forall k :: k in pageLinks <==> k in init || k == link;
    }
    assert forall k :: k in r.links[|s.links|..] <==> k in pageLinks && k !in s.infos && k !in s.excluded by {
      assert forall k :: k in pageLinks <==> k in init || k == link;
      assert forall k :: k in r.links[|s.links|..] <==> k in m.links[|s.links|..] || k == link;
    }
    assert HasNewLink(s, pageLinks) by {
      assert link in pageLinks && link !in s.infos && link !in s.excluded;
    }
  }

  /** A link that occurs twice on a page is added once. */
  lemma RepeatedLinkOnce(s: Store, link: string, distance: int)
    requires link !in s.infos && link !in s.excluded
    ensures AddLinks(s, [link, link], distance) == AddLinks(s, [link], distance)
    ensures AddLinks(s, [link], distance).links == s.links + [link]
  {
    assert [link, link][..1] == [link];
    assert [link][..0] == [];
  }

  // ---------------------------------------------------------------------
  // Tiers

  function Min(a: int, b: int): int {
    if a <= b then a else b
  }

  /** The pages of one tier (src/main.ts:209-217): page 1 on the shared
      page, then the chunks of `interval` while `si < min(3, pageCount + 1)`
      with three pages per chunk. The loop condition lets a single chunk
      through, and only when there are at least two pages. */
  function TierPages(pageCount: int): (r: seq<int>)
    ensures forall k :: 0 <= k < |r| ==> r[k] >= 1
  {
    IntervalSpec(2, Min(pageCount + 1, 5));
    [1] + (if 2 < Min(3, pageCount + 1) then Interval(2, Min(pageCount + 1, 5)).value else [])
  }

  /** The pages scanned are 1 up to min(pageCount, 4), each once; a count
      below 1 still scans page 1. */
  lemma TierPagesSpec(pageCount: int)
    ensures pageCount >= 1 ==> TierPages(pageCount) == seq(Min(pageCount, 4), k => k + 1)
    ensures pageCount <= 1 ==> TierPages(pageCount) == [1]
    ensures forall p :: p in TierPages(pageCount) <==> p == 1 || 2 <= p <= Min(pageCount, 4)
  {
    IntervalSpec(2, Min(pageCount + 1, 5));
    var r := TierPages(pageCount);
    if pageCount >= 2 {
      var t := seq(Min(pageCount, 4), k => k + 1);
      assert |r| == |t|;
      forall k | 0 <= k < |r| ensures r[k] == t[k] {
        if k > 0 {
          assert r[k] == Interval(2, Min(pageCount + 1, 5)).value[k - 1];
        }
      }
      forall p | 2 <= p <= Min(pageCount, 4) ensures p in r {
        assert r[p - 1] == p;
      }
    }
  }

  /** The links the collector reads from page `p` of a tier: page 1 is the
      tier page itself, the others their own result pages. */
  function PageLinks(results: string -> seq<string>, city: string, distance: nat, p: int): seq<string>
    requires p >= 1
  {
    if p == 1 then results(TierUrl(city, distance)) else results(PageUrl(city, distance, p))
  }

  function ScanPages(s: Store, results: string -> seq<string>, city: string, distance: nat, pages: seq<int>): Store
    requires forall k :: 0 <= k < |pages| ==> pages[k] >= 1
    decreases |pages|
  {
    if pages == [] then s
    else
      var p := pages[|pages| - 1];
      AddLinks(ScanPages(s, results, city, distance, pages[..|pages| - 1]), PageLinks(results, city, distance, p), distance)
  }

  /** Scanning one more page adds that page's links. */
  lemma ScanPagesSnoc(s: Store, results: string -> seq<string>, city: string, distance: nat, pages: seq<int>, p: int)
    requires forall k :: 0 <= k < |pages| ==> pages[k] >= 1
    requires p >= 1
    ensures forall k :: 0 <= k < |pages + [p]| ==> (pages + [p])[k] >= 1
    ensures ScanPages(s, results, city, distance, pages + [p]) ==
      AddLinks(ScanPages(s, results, city, distance, pages), PageLinks(results, city, distance, p), distance)
  {
    assert (pages + [p])[..|pages|] == pages;
  }

  /** One radius of one city: the tier's pages in order. */
  function ScanTier(s: Store, results: string -> seq<string>, pageCounts: string -> int, city: string, distance: nat): Store {
    ScanPages(s, results, city, distance, TierPages(pageCounts(TierUrl(city, distance))))
  }

  /** Radii 0 up to `n - 1`. */
  function ScanTiers(s: Store, results: string -> seq<string>, pageCounts: string -> int, city: string, n: nat): Store {
    if n == 0 then s else ScanTier(ScanTiers(s, results, pageCounts, city, n - 1), results, pageCounts, city, n - 1)
  }

  /** The number of radii `0 <= d <= maxDistanceKm`. */
  function TierCount(maxDistanceKm: int): nat {
    if maxDistanceKm < 0 then 0 else maxDistanceKm + 1
  }

  /** The collecting phase (src/main.ts:187-225), place after place. */
  function CollectPlaces(s: Store, results: string -> seq<string>, pageCounts: string -> int, places: seq<Place>): Store
    decreases |places|
  {
    if places == [] then s
    else
      var last := places[|places| - 1];
      ScanTiers(CollectPlaces(s, results, pageCounts, places[..|places| - 1]), results, pageCounts, last.city, TierCount(last.maxDistanceKm))
  }

  /** Scanning a tier's pages keeps the store's earlier contents and the
      collecting invariant, and every record it adds is a fresh record at
      this radius. */
  lemma {:induction false} ScanPagesFacts(s: Store, results: string -> seq<string>, city: string, distance: nat, pages: seq<int>)
    requires forall k :: 0 <= k < |pages| ==> pages[k] >= 1
    ensures var r := ScanPages(s, results, city, distance, pages);
      Extends(s, r) && (Collecting(s) ==> Collecting(r)) &&
      forall k :: k in r.infos && k !in s.infos ==> r.infos[k] == NewLinkInfo(distance)
    decreases |pages|
  {
    if pages != [] {
      var m := ScanPages(s, results, city, distance, pages[..|pages| - 1]);
      ScanPagesFacts(s, results, city, distance, pages[..|pages| - 1]);
      AddLinksFacts(m, PageLinks(results, city, distance, pages[|pages| - 1]), distance);
      ExtendsTrans(s, m, ScanPages(s, results, city, distance, pages));
    }
  }

  /** The same over radii 0 up to `n - 1`: every record added was first
      seen at a radius below `n` and has no details yet. */
  lemma {:induction false} ScanTiersFacts(s: Store, results: string -> seq<string>, pageCounts: string -> int, city: string, n: nat)
    ensures var r := ScanTiers(s, results, pageCounts, city, n);
      Extends(s, r) && (Collecting(s) ==> Collecting(r)) &&
      forall k :: k in r.infos && k !in s.infos ==> 0 <= r.infos[k].distance < n && !r.infos[k].hasDetails
  {
    if n > 0 {
      var m := ScanTiers(s, results, pageCounts, city, n - 1);
      ScanTiersFacts(s, results, pageCounts, city, n - 1);
      ScanPagesFacts(m, results, city, n - 1, TierPages(pageCounts(TierUrl(city, n - 1))));
      ExtendsTrans(s, m, ScanTiers(s, results, pageCounts, city, n));
    }
  }

  /** The assertion at src/main.ts:221-223: after collecting, every link of
      the worklist has a record with a radius. */
  lemma {:induction false} CollectPlacesFacts(s: Store, results: string -> seq<string>, pageCounts: string -> int, places: seq<Place>)
    requires Collecting(s)
    ensures var r := CollectPlaces(s, results, pageCounts, places);
      Extends(s, r) && Collecting(r) && (forall l :: l in r.links ==> l in r.infos) &&
      forall k :: k in r.infos && k !in s.infos ==> r.infos[k].distance >= 0 && !r.infos[k].hasDetails
    decreases |places|
  {
    if places != [] {
      var init := places[..|places| - 1];
      var last := places[|places| - 1];
      var m := CollectPlaces(s, results, pageCounts, init);
      CollectPlacesFacts(s, results, pageCounts, init);
      ScanTiersFacts(m, results, pageCounts, last.city, TierCount(last.maxDistanceKm));
      ExtendsTrans(s, m, CollectPlaces(s, results, pageCounts, places));
    }
  }

  // ---------------------------------------------------------------------
  // Reconciliation

  /** One key of `Object.keys(linkInfos)` (src/main.ts:227-235): a key that
      is not excluded joins the worklist unless it is already there; an
      excluded key loses its record and sets the dirty flag. */
  function ReconcileKey(s: Store, key: string): Store {
    if key !in s.excluded then
      if key in s.links then s else s.(links := s.links + [key])
    else s.(infos := s.infos - {key}, changed := true)
  }

  function ReconcileKeys(s: Store, keys: seq<string>): Store
    decreases |keys|
  {
    if keys == [] then s else ReconcileKey(ReconcileKeys(s, keys[..|keys| - 1]), keys[|keys| - 1])
  }

  /** What reconciling the distinct keys `keys` of `s` leaves in `r`: the
      exclusions; the collecting invariant; exactly the records not both
      reconciled and excluded, unchanged; every reconciled key that is not
      excluded on the worklist, which gains only reconciled keys behind its
      old contents; the dirty flag set iff it was or some reconciled key
      was excluded. */
  ghost predicate ReconcileOutcome(s: Store, keys: seq<string>, r: Store) {
    r.excluded == s.excluded && Collecting(r) &&
    (forall k :: k in r.infos <==> k in s.infos && !(k in keys && k in s.excluded)) &&
    (forall k :: k in r.infos ==> k in s.infos && r.infos[k] == s.infos[k]) &&
    (forall k :: k in keys && k !in s.excluded ==> k in r.links) &&
    (forall k :: k in r.links ==> k in s.links || k in keys) &&
    |s.links| <= |r.links| && r.links[..|s.links|] == s.links &&
    (r.changed <==> s.changed || exists k :: k in keys && k in s.infos && k in s.excluded)
  }

  lemma {:induction false} ReconcileKeysOutcome(s: Store, keys: seq<string>)
    requires Collecting(s) && Distinct(keys)
    requires forall k :: k in keys ==> k in s.infos
    ensures ReconcileOutcome(s, keys, ReconcileKeys(s, keys))
    decreases |keys|
  {
    if keys == [] {
      assert s.links[..|s.links|] == s.links;
    } else {
      var init := keys[..|keys| - 1];
      var key := keys[|keys| - 1];
      assert keys == init + [key];
      assert Distinct(init) && key !in init;
      ReconcileKeysOutcome(s, init);
      ReconcileKeyStep(s, init, key, ReconcileKeys(s, init));
    }
  }

  /** One more key, distinct from those before it. */
  lemma ReconcileKeyStep(s: Store, init: seq<string>, key: string, m: Store)
    requires Collecting(s) && key !in init && key in s.infos
    requires ReconcileOutcome(s, init, m)
    ensures ReconcileOutcome(s, init + [key], ReconcileKey(m, key))
  {
    var keys := init + [key];
    assert forall k :: k in keys <==> k in init || k == key;
    if key in s.excluded {
      ExcludedKeyStep(s, init, key, m);
    } else if key in m.links {
      assert ReconcileKey(m, key) == m;
    } else {
      var r := m.(links := m.links + [key]);
      assert ReconcileKey(m, key) == r;
      assert r.links[..|s.links|] == m.links[..|s.links|];
      assert Distinct(r.links) by {
        assert forall i :: 0 <= i < |m.links| ==> r.links[i] == m.links[i];
      }
    }
  }

  /** An excluded key loses its record and sets the flag. */
  lemma ExcludedKeyStep(s: Store, init: seq<string>, key: string, m: Store)
    requires Collecting(s) && key !in init && key in s.infos && key in s.excluded
    requires ReconcileOutcome(s, init, m)
    ensures ReconcileOutcome(s, init + [key], ReconcileKey(m, key))
  {
    var keys := init + [key];
    assert forall k :: k in keys <==> k in init || k == key;
    var r := m.(infos := m.infos - {key}, changed := true);
    assert ReconcileKey(m, key) == r;
    assert key in keys && key in s.infos && key in s.excluded;
  }

  /** What reconciling some distinct keys of the store does. */
  lemma ReconcileKeysFacts(s: Store, keys: seq<string>)
    requires Collecting(s) && Distinct(keys)
    requires forall k :: k in keys ==> k in s.infos
    ensures var r := ReconcileKeys(s, keys);
      r.excluded == s.excluded && Collecting(r) &&
      (forall k :: k in r.infos <==> k in s.infos && !(k in keys && k in s.excluded)) &&
      (forall k :: k in r.infos ==> r.infos[k] == s.infos[k]) &&
      (forall k :: k in keys && k !in s.excluded ==> k in r.links) &&
      (forall k :: k in r.links ==> k in s.links || k in keys) &&
      |s.links| <= |r.links| && r.links[..|s.links|] == s.links &&
      (r.changed <==> s.changed || exists k :: k in keys && k in s.infos && k in s.excluded)
  {
    ReconcileKeysOutcome(s, keys);
  }

  /** Reconciliation over all of the store's keys, as `Object.keys` lists
      them, establishes the reconciled invariant: the excluded records are
      gone, the others are kept unchanged, the worklist keeps its order and
      ends with the stored keys it did not yet hold. */
  lemma ReconcileEstablishes(s: Store, keys: seq<string>)
    requires Collecting(s)
    requires Distinct(keys) && forall k :: k in keys <==> k in s.infos
    ensures var r := ReconcileKeys(s, keys);
      Reconciled(r) && r.excluded == s.excluded &&
      r.infos == (map k | k in s.infos && k !in s.excluded :: s.infos[k]) &&
      |s.links| <= |r.links| && r.links[..|s.links|] == s.links &&
      (r.changed <==> s.changed || exists k :: k in s.infos && k in s.excluded)
  {
    ReconcileKeysFacts(s, keys);
  }

  // ---------------------------------------------------------------------
  // Checking adverts

  /** `excludedLinks.add(link); delete linkInfos[link]; notifyChangedLinkInfo()`
      (src/main.ts:252-254 and 313-315). */
  function Exclude(s: Store, link: string): (r: Store)
    ensures link in r.excluded && link !in r.infos && r.changed
  {
    s.(excluded := SetAdd(s.excluded, link), infos := s.infos - {link}, changed := true)
  }

  /** Excluding keeps records and exclusions disjoint and the checking
      invariant; the other records are untouched. */
  lemma ExcludeKeeps(s: Store, link: string)
    requires Checking(s) && link in s.links
    ensures var r := Exclude(s, link);
      Checking(r) && r.links == s.links &&
      (forall k :: k in r.infos <==> k in s.infos && k != link) &&
      (forall k :: k in r.infos ==> r.infos[k] == s.infos[k]) &&
      (forall x :: x in r.excluded <==> x in s.excluded || x == link)
  {
  }

  /** A store change and the verdict. */
  datatype Checked = Checked(store: Store, verdict: Verdict)

  /** A page the price pattern matched. */
  predicate WellFormed(ad: Advert) {
    PriceText(ad.priceText)
  }

  /** One pass of the advert loop (src/main.ts:239-331): a record with
      details is skipped unless details are refreshed; a vanished advert is
      excluded; otherwise the record is enriched and then, by the verdict,
      excluded (blacklisted) or kept with its concerns and suitability. */
  function CheckAdvert(s: Store, link: string, ad: Advert, cfg: Config, refresh: bool): Checked
    requires link in s.infos && WellFormed(ad) && NonEmptyPrefixes(cfg.prefixes)
  {
    var info := s.infos[link];
    if info.hasDetails && !refresh then Checked(s, Skipped)
    else if ad.notFound then Checked(Exclude(s, link), NotFound)
    else
      var e := Enrich(info, ad);
      EnrichFacts(info, ad);
      var v := Judge(e, ad, cfg);
      if v == Rejected then Checked(Exclude(s, link), Rejected)
      else Checked(s.(infos := s.infos[link := Conclude(e, ad, v)], changed := true), v)
  }

  /** What one pass decides, verdict by verdict. */
  lemma CheckAdvertFacts(s: Store, link: string, ad: Advert, cfg: Config, refresh: bool)
    requires link in s.infos && WellFormed(ad) && NonEmptyPrefixes(cfg.prefixes)
    ensures var c := CheckAdvert(s, link, ad, cfg, refresh);
      var r := c.store;
      (c.verdict == Skipped <==> s.infos[link].hasDetails && !refresh) &&
      (c.verdict == Skipped ==> r == s) &&
      (c.verdict == NotFound <==> c.verdict != Skipped && ad.notFound) &&
      (c.verdict == Rejected <==> c.verdict != Skipped && !ad.notFound && Blacklisted(cfg.prefixes, cfg.postfixes, Lower(ad.description))) &&
      (c.verdict in {NotFound, Rejected} ==> r == Exclude(s, link)) &&
      (c.verdict in {TooExpensive, Suitable} ==>
        link in r.infos && r.changed && r.excluded == s.excluded && r.links == s.links &&
        r.infos[link].hasDetails && r.infos[link].suitable == Some(c.verdict == Suitable) &&
        r.infos[link].concerningTexts.Some? &&
        r.infos[link].roomPrice.Some? &&
        (c.verdict == TooExpensive <==> OverCeiling(r.infos[link].roomPrice.value, cfg.maxRoomPrice)) &&
        (forall k :: k in r.infos <==> k in s.infos) &&
        (forall k :: k in s.infos && k != link ==> r.infos[k] == s.infos[k]))
  {
    var info := s.infos[link];
    if !(info.hasDetails && !refresh) && !ad.notFound {
      EnrichFacts(info, ad);
    }
  }

  /** Each pass keeps records and exclusions disjoint, and touches no other
      record. */
  lemma CheckAdvertKeeps(s: Store, link: string, ad: Advert, cfg: Config, refresh: bool)
    requires Checking(s) && link in s.infos && WellFormed(ad) && NonEmptyPrefixes(cfg.prefixes)
    ensures var r := CheckAdvert(s, link, ad, cfg, refresh).store;
      Checking(r) && r.links == s.links &&
      (forall k :: k in r.infos ==> k in s.infos) &&
      (forall k :: k in s.infos && k != link ==> k in r.infos && r.infos[k] == s.infos[k])
  {
    CheckAdvertFacts(s, link, ad, cfg, refresh);
    var c := CheckAdvert(s, link, ad, cfg, refresh);
    if c.verdict in {NotFound, Rejected} {
      ExcludeKeeps(s, link);
    }
  }

  /** The advert loop over `links` in order, with the pages as inputs keyed
      by link. `None` is the TypeError the loop would raise on a link
      without a record. */
  function CheckAll(s: Store, ls: seq<string>, pages: string -> Advert, cfg: Config, refresh: bool): Option<Store>
    requires forall l :: WellFormed(pages(l))
    requires NonEmptyPrefixes(cfg.prefixes)
    decreases |ls|
  {
    if ls == [] then Some(s)
    else
      match CheckAll(s, ls[..|ls| - 1], pages, cfg, refresh)
      case None => None
      case Some(m) =>
        var link := ls[|ls| - 1];
        if link in m.infos then Some(CheckAdvert(m, link, pages(link), cfg, refresh).store) else None
  }

  /** One more link of the worklist: checked in the state the earlier ones
      left, when it has a record there. */
  lemma CheckAllStep(s: Store, ls: seq<string>, i: nat, pages: string -> Advert, cfg: Config, refresh: bool)
    requires forall l :: WellFormed(pages(l))
    requires NonEmptyPrefixes(cfg.prefixes)
    requires i < |ls|
    ensures var m := CheckAll(s, ls[..i], pages, cfg, refresh);
      m.Some? && ls[i] in m.value.infos ==>
        CheckAll(s, ls[..i + 1], pages, cfg, refresh) == Some(CheckAdvert(m.value, ls[i], pages(ls[i]), cfg, refresh).store)
  {
    assert ls[..i + 1][..i] == ls[..i];
  }

  /** Over distinct links that all have records the loop never fails, keeps
      the checking invariant, and leaves the records of other links alone. */
  lemma {:induction false} CheckAllFacts(s: Store, ls: seq<string>, pages: string -> Advert, cfg: Config, refresh: bool)
    requires forall l :: WellFormed(pages(l))
    requires NonEmptyPrefixes(cfg.prefixes)
    requires Checking(s) && Distinct(ls) && forall l :: l in ls ==> l in s.infos
    ensures var r := CheckAll(s, ls, pages, cfg, refresh);
      r.Some? && Checking(r.value) && r.value.links == s.links &&
      (forall k :: k in r.value.infos ==> k in s.infos) &&
      (forall k :: k in s.infos && k !in ls ==> k in r.value.infos && r.value.infos[k] == s.infos[k])
    decreases |ls|
  {
    if ls != [] {
      var init := ls[..|ls| - 1];
      var link := ls[|ls| - 1];
      assert ls == init + [link];
      assert Distinct(init);
      CheckAllFacts(s, init, pages, cfg, refresh);
      var m := CheckAll(s, init, pages, cfg, refresh).value;
      assert link !in init;
      CheckAdvertKeeps(m, link, pages(link), cfg, refresh);
    }
  }

  /** The whole checking phase after reconciliation: every link is visited,
      and records and exclusions end disjoint. */
  lemma CheckingPhase(s: Store, pages: string -> Advert, cfg: Config, refresh: bool)
    requires forall l :: WellFormed(pages(l))
    requires NonEmptyPrefixes(cfg.prefixes)
    requires Reconciled(s)
    ensures var r := CheckAll(s, s.links, pages, cfg, refresh);
      r.Some? && Checking(r.value) && r.value.links == s.links &&
      (forall k :: k in r.value.infos ==> k !in r.value.excluded)
  {
    CheckAllFacts(s, s.links, pages, cfg, refresh);
  }

  /** The run from start-up to the end of the advert loop: the stored
      records and the loaded exclusions, collection, reconciliation over an
      enumeration of the collected keys, and the checks. The loop never
      meets a link without a record, and at the end no record is excluded
      and every worklist link is either a record or excluded. */
  lemma WholeRun(stored: map<string, LinkInfo>, file: Option<string>, results: string -> seq<string>,
                 pageCounts: string -> int, places: seq<Place>, keys: seq<string>,
                 pages: string -> Advert, cfg: Config, refresh: bool)
    requires forall l :: WellFormed(pages(l))
    requires NonEmptyPrefixes(cfg.prefixes)
    requires var c := CollectPlaces(Store(stored, Loaded(file), [], false), results, pageCounts, places);
      Distinct(keys) && forall k :: k in keys <==> k in c.infos
    ensures var c := CollectPlaces(Store(stored, Loaded(file), [], false), results, pageCounts, places);
      var r := ReconcileKeys(c, keys);
      var f := CheckAll(r, r.links, pages, cfg, refresh);
      Reconciled(r) && f.Some? &&
      (forall k :: k in f.value.infos ==> k !in f.value.excluded) &&
      (forall l :: l in f.value.links ==> l in f.value.infos || l in f.value.excluded)
  {
    var s := Store(stored, Loaded(file), [], false);
    CollectPlacesFacts(s, results, pageCounts, places);
    var c := CollectPlaces(s, results, pageCounts, places);
    ReconcileEstablishes(c, keys);
    CheckingPhase(ReconcileKeys(c, keys), pages, cfg, refresh);
  }
}
