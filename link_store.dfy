/** The run's mutable state in place: the record map, the excluded-links set,
    the worklist and the dirty flag as fields, and the loops of src/main.ts
    that update them. Each method is proved to leave the state the matching
    function of listings.dfy describes. */
module Engine {
  import opened Common
  import opened Text
  import opened Paths
  import opened Blacklist
  import opened Concerns
  import opened ExclusionFile
  import opened Advert
  import opened Listings
  import opened Persistence

  class LinkStore {
    var linkInfos: map<string, LinkInfo>
    var excludedLinks: seq<string>
    var links: seq<string>
    var changedLinkInfo: bool

    function State(): Store
      reads this
    {
      Store(linkInfos, excludedLinks, links, changedLinkInfo)
    }

    var elCount: nat
    var dataWrites: seq<map<string, LinkInfo>>
    var exclWrites: seq<string>
    var dataFile: Option<map<string, LinkInfo>>
    var exclFile: Option<string>

    function Flush(): Flusher
      reads this
    {
      Flusher(elCount, dataWrites, exclWrites, dataFile, exclFile)
    }

    /** The state at the start of `main`: the records `loadLinkInfos`
        (src/common.ts:25-34) reads from `data.json`, or none when the file
        is missing; no exclusions yet, an empty worklist, a clean flag and
        no write in flight. */
    constructor (dataFile: Option<map<string, LinkInfo>>, exclFile: Option<string>)
      ensures State() == Store(if dataFile.Some? then dataFile.value else map[], [], [], false)
      ensures Flush() == Flusher(0, [], [], dataFile, exclFile)
    {
      linkInfos := if dataFile.Some? then dataFile.value else map[];
      excludedLinks := [];
      links := [];
      changedLinkInfo := false;
      elCount := 0;
      dataWrites := [];
      exclWrites := [];
      this.dataFile := dataFile;
      this.exclFile := exclFile;
    }

    /** `notifyChangedLinkInfo` (src/main.ts:91-93). */
    method Notify()
      modifies this
      ensures Flush() == old(Flush())
      ensures State() == old(State()).(changed := true)
    {
      changedLinkInfo := true;
    }

    /** Reading `excludedLinks.txt` (src/main.ts:151-159): each non-empty
        piece of the file is added; a missing file leaves the set as it is. */
    method LoadExcludedLinks()
      modifies this
      ensures Flush() == old(Flush())
      requires excludedLinks == []
      ensures State() == old(State()).(excluded := Loaded(exclFile))
    {
      if exclFile.Some? {
        var pieces := Split(exclFile.value);
        for i := 0 to |pieces|
          invariant Flush() == old(Flush())
          invariant AddPieces(excludedLinks, pieces[i..]) == AddPieces([], pieces)
          invariant State() == old(State()).(excluded := excludedLinks)
        {
          assert pieces[i..][1..] == pieces[i + 1..];
          if pieces[i] != "" {
            excludedLinks := SetAdd(excludedLinks, pieces[i]);
          }
        }
      }
    }

    /** The dedup loop of `scanLinks` (src/main.ts:65-78) over the links of
        one result page. */
    method ScanLinks(pageLinks: seq<string>, distance: int)
      modifies this
      ensures Flush() == old(Flush())
      ensures State() == AddLinks(old(State()), pageLinks, distance)
    {
      for i := 0 to |pageLinks|
        invariant Flush() == old(Flush())
        invariant State() == AddLinks(old(State()), pageLinks[..i], distance)
      {
        assert pageLinks[..i + 1][..i] == pageLinks[..i];
        var link := pageLinks[i];
        if link !in linkInfos && link !in excludedLinks {
          linkInfos := linkInfos[link := NewLinkInfo(distance)];
          Notify();
          links := links + [link];
        }
      }
      assert pageLinks[..|pageLinks|] == pageLinks;
    }

    /** One radius of one city (src/main.ts:196-217): page 1 on the shared
        page, then the chunks of `interval`, taken one page after another. */
    method ScanTier(results: string -> seq<string>, pageCounts: string -> int, city: string, distance: nat)
      modifies this
      ensures Flush() == old(Flush())
      ensures State() == Listings.ScanTier(old(State()), results, pageCounts, city, distance)
    {
      ghost var s0 := State();
      var pageCount := pageCounts(TierUrl(city, distance));
      ScanLinks(PageLinks(results, city, distance, 1), distance);
      assert [1][..0] == [];
      var chunkSize := 3;
      var si := 2;
      while si < Min(3, pageCount + 1)
        invariant Flush() == old(Flush())
        invariant si == 2 || si == 5
        invariant si == 2 ==> State() == ScanPages(s0, results, city, distance, [1])
        invariant si == 5 ==> State() == ScanPages(s0, results, city, distance, TierPages(pageCount)) && 2 < Min(3, pageCount + 1)
        decreases 5 - si
      {
        IntervalSpec(si, Min(pageCount + 1, si + chunkSize));
        var chunk := Interval(si, Min(pageCount + 1, si + chunkSize)).value;
        assert [1] + chunk == TierPages(pageCount);
        ScanChunk(results, city, distance, s0, [1], chunk);
        si := si + chunkSize;
      }
    }

    /** The pages of one chunk, one after another (src/main.ts:206-215),
        after the pages `done` already scanned from the state `s0`. */
    method ScanChunk(results: string -> seq<string>, city: string, distance: nat,
                     ghost s0: Store, ghost done: seq<int>, chunk: seq<int>)
      modifies this
      requires forall k :: 0 <= k < |done| ==> done[k] >= 1
      requires forall k :: 0 <= k < |chunk| ==> chunk[k] >= 1
      requires State() == ScanPages(s0, results, city, distance, done)
      ensures Flush() == old(Flush())
      ensures State() == ScanPages(s0, results, city, distance, done + chunk)
    {
      assert done + chunk[..0] == done;
      for j := 0 to |chunk|
        invariant Flush() == old(Flush())
        invariant State() == ScanPages(s0, results, city, distance, done + chunk[..j])
      {
        PrefixSnoc(done, chunk, j);
        ScanPagesSnoc(s0, results, city, distance, done + chunk[..j], chunk[j]);
        ScanLinks(PageLinks(results, city, distance, chunk[j]), distance);
      }
      assert chunk[..|chunk|] == chunk;
    }

    /** The radii of one place, 0 up to its largest (src/main.ts:190-218). */
    method CollectPlace(results: string -> seq<string>, pageCounts: string -> int, place: Place)
      modifies this
      ensures Flush() == old(Flush())
      ensures State() == ScanTiers(old(State()), results, pageCounts, place.city, TierCount(place.maxDistanceKm))
    {
      ghost var s0 := State();
      for currentMaxDistance := 0 to TierCount(place.maxDistanceKm)
        invariant Flush() == old(Flush())
        invariant State() == ScanTiers(s0, results, pageCounts, place.city, currentMaxDistance)
      {
        ScanTier(results, pageCounts, place.city, currentMaxDistance);
      }
    }

    /** The collecting phase (src/main.ts:187-225): every place in turn, each
        followed by the assertion that every link has a record with a
        radius. */
    method CollectLinks(results: string -> seq<string>, pageCounts: string -> int, places: seq<Place>)
      modifies this
      ensures Flush() == old(Flush())
      requires Collecting(State())
      ensures State() == CollectPlaces(old(State()), results, pageCounts, places)
      ensures Collecting(State())
    {
      ghost var s0 := State();
      for pi := 0 to |places|
        invariant Flush() == old(Flush())
        invariant State() == CollectPlaces(s0, results, pageCounts, places[..pi])
      {
        assert places[..pi + 1][..pi] == places[..pi];
        CollectPlace(results, pageCounts, places[pi]);
        CollectPlacesFacts(s0, results, pageCounts, places[..pi + 1]);
        assert forall l :: l in links ==> l in linkInfos;
      }
      assert places[..|places|] == places;
      CollectPlacesFacts(s0, results, pageCounts, places);
    }

    /** The reconciliation loop over `Object.keys(linkInfos)`
        (src/main.ts:227-235); `keys` is that enumeration. */
    method Reconcile(keys: seq<string>)
      modifies this
      ensures Flush() == old(Flush())
      requires Distinct(keys) && forall k :: k in keys <==> k in linkInfos
      ensures State() == ReconcileKeys(old(State()), keys)
    {
      for i := 0 to |keys|
        invariant Flush() == old(Flush())
        invariant State() == ReconcileKeys(old(State()), keys[..i])
      {
        assert keys[..i + 1][..i] == keys[..i];
        var key := keys[i];
        if key !in excludedLinks {
          if key !in links {
            links := links + [key];
          }
        } else {
          linkInfos := linkInfos - {key};
          Notify();
        }
      }
      assert keys[..|keys|] == keys;
    }

    /** Exclude a link and drop its record (src/main.ts:252-254, 313-315). */
    method ExcludeLink(link: string)
      modifies this
      ensures Flush() == old(Flush())
      ensures State() == Exclude(old(State()), link)
    {
      if link !in excludedLinks {
        excludedLinks := excludedLinks + [link];
      }
      linkInfos := linkInfos - {link};
      Notify();
    }

    /** One pass of the advert loop (src/main.ts:239-331), with the page's
        contents as `ad`. */
    method CheckAdvert(link: string, ad: Advert, cfg: Config, refresh: bool) returns (v: Verdict)
      modifies this
      ensures Flush() == old(Flush())
      requires link in linkInfos && WellFormed(ad) && NonEmptyPrefixes(cfg.prefixes)
      ensures Checked(State(), v) == Listings.CheckAdvert(old(State()), link, ad, cfg, refresh)
    {
      var info := linkInfos[link];
      if info.hasDetails && !refresh {
        return Skipped;
      }
      if ad.notFound {
        ExcludeLink(link);
        return NotFound;
      }
      EnrichFacts(info, ad);
      v := Settle(link, Enrich(info, ad), ad, cfg);
    }

    /** The rest of a pass once the page has been read into the record `e`
        (src/main.ts:292-331): the record is stored and the flag set; then
        the blacklist test runs the loops of blacklist.dfy, and the concern
        extraction those of concerns.dfy. */
    method Settle(link: string, e: LinkInfo, ad: Advert, cfg: Config) returns (v: Verdict)
      modifies this
      ensures Flush() == old(Flush())
      requires link in linkInfos && e.roomPrice.Some? && NonEmptyPrefixes(cfg.prefixes)
      ensures v == Judge(e, ad, cfg)
      ensures v == Rejected ==> State() == Exclude(old(State()), link)
      ensures v != Rejected ==>
        State() == old(State()).(infos := old(linkInfos)[link := Conclude(e, ad, v)], changed := true)
    {
      ghost var s := State();
      linkInfos := linkInfos[link := e];
      Notify();
      var blacklisted := PrefixPostfixSearch(cfg.prefixes, cfg.postfixes, Lower(ad.description));
      if blacklisted {
        ExcludeLink(link);
        assert linkInfos == s.infos - {link};
        return Rejected;
      }
      var info := e;
      if info.concerningTexts.None? {
        var concerns := ConcerningTexts(ad.description);
        info := info.(concerningTexts := Some(concerns));
      }
      if OverCeiling(info.roomPrice.value, cfg.maxRoomPrice) {
        v := TooExpensive;
      } else {
        v := Suitable;
      }
      info := info.(suitable := Some(v == Suitable));
      linkInfos := linkInfos[link := info];
      Notify();
    }

    /** The advert loop over the worklist in order; `pages` gives each link's
        page. After reconciliation no link is missing its record when its
        turn comes. */
    method CheckAdverts(pages: string -> Advert, cfg: Config, refresh: bool)
      modifies this
      ensures Flush() == old(Flush())
      requires forall l :: WellFormed(pages(l))
      requires NonEmptyPrefixes(cfg.prefixes)
      requires Reconciled(State())
      ensures Some(State()) == CheckAll(old(State()), old(links), pages, cfg, refresh)
      ensures Checking(State())
    {
      ghost var s0 := State();
      ReconciledIsChecking(s0);
      for i := 0 to |links|
        invariant Flush() == old(Flush())
        invariant links == s0.links
        invariant Some(State()) == CheckAll(s0, s0.links[..i], pages, cfg, refresh)
      {
        var link := links[i];
        assert link in linkInfos by {
          PrefixDistinct(s0.links, i);
          CheckAllFacts(s0, s0.links[..i], pages, cfg, refresh);
        }
        CheckAllStep(s0, s0.links, i, pages, cfg, refresh);
        var v := CheckAdvert(link, pages(link), cfg, refresh);
      }
      assert s0.links[..|s0.links|] == s0.links;
      assert Checking(State()) by {
        CheckAllFacts(s0, s0.links, pages, cfg, refresh);
      }
    }

    /** `saveSometimes` (src/main.ts:101-112) starting: the size of the set
        is recorded. */
    method SaveSometimes()
      modifies this
      requires dataWrites == [] && exclWrites == []
      ensures World(State(), Flush()) == StartSaving(old(State()), old(dataFile), old(exclFile))
    {
      elCount := |excludedLinks|;
    }

    /** One tick of the timer: the writes it starts carry the set joined by
        newlines and the records as they are now. */
    method Tick()
      modifies this
      ensures World(State(), Flush()) == OnTick(old(World(State(), Flush())))
    {
      if elCount != |excludedLinks| {
        exclWrites := exclWrites + [FileText(excludedLinks)];
      }
      if changedLinkInfo {
        dataWrites := dataWrites + [linkInfos];
      }
    }

    /** The oldest `data.json` write completes (src/main.ts:95-98). */
    method DataWriteDone()
      modifies this
      requires dataWrites != []
      ensures World(State(), Flush()) == OnDataWritten(old(World(State(), Flush())))
    {
      dataFile := Some(dataWrites[0]);
      dataWrites := dataWrites[1..];
      changedLinkInfo := false;
    }

    /** The oldest `excludedLinks.txt` write completes
        (src/main.ts:104-106). */
    method ExclWriteDone()
      modifies this
      requires exclWrites != []
      ensures World(State(), Flush()) == OnExclWritten(old(World(State(), Flush())))
    {
      exclFile := Some(exclWrites[0]);
      exclWrites := exclWrites[1..];
      elCount := |excludedLinks|;
    }
  }

  /** A prefix of a duplicate-free list is duplicate-free and does not hold
      the next element. */
  lemma PrefixDistinct(xs: seq<string>, i: nat)
    requires Distinct(xs) && i < |xs|
    ensures Distinct(xs[..i]) && xs[i] !in xs[..i]
  {
  }

  /** `main` (src/main.ts:146-372) without the browser: the records of
      `data.json` and the excluded links are loaded, the flush is started,
      the links of every place are collected, the stored keys are
      reconciled in the order `keys` gives, and every worklist link is
      checked. The run ends with the store the functions of listings.dfy
      describe; the advert loop meets no link without a record, and no
      record is excluded at the end. */
  method RunBot(dataFile: Option<map<string, LinkInfo>>, exclFile: Option<string>,
                results: string -> seq<string>, pageCounts: string -> int, places: seq<Place>,
                keys: seq<string>, pages: string -> Advert, cfg: Config, refresh: bool)
    returns (bot: LinkStore)
    requires forall l :: WellFormed(pages(l))
    requires NonEmptyPrefixes(cfg.prefixes)
    requires var c := CollectPlaces(Store(if dataFile.Some? then dataFile.value else map[], Loaded(exclFile), [], false),
                                    results, pageCounts, places);
      Distinct(keys) && forall k :: k in keys <==> k in c.infos
    ensures fresh(bot)
    ensures var c := CollectPlaces(Store(if dataFile.Some? then dataFile.value else map[], Loaded(exclFile), [], false),
                                   results, pageCounts, places);
      var r := ReconcileKeys(c, keys);
      Reconciled(r) && Some(bot.State()) == CheckAll(r, r.links, pages, cfg, refresh)
    ensures Checking(bot.State()) && forall k :: k in bot.linkInfos ==> k !in bot.excludedLinks
    ensures bot.Flush() == Flusher(|Loaded(exclFile)|, [], [], dataFile, exclFile)
  {
    bot := new LinkStore(dataFile, exclFile);
    bot.LoadExcludedLinks();
    bot.SaveSometimes();
    ghost var s := bot.State();
    bot.CollectLinks(results, pageCounts, places);
    bot.Reconcile(keys);
    ReconcileEstablishes(CollectPlaces(s, results, pageCounts, places), keys);
    bot.CheckAdverts(pages, cfg, refresh);
  }
}
