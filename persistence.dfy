/** The periodic flush of src/main.ts:84-112: `notifyChangedLinkInfo` sets a
    dirty flag; every tick of the timer started by `saveSometimes` starts a
    write of `excludedLinks.txt` when the set's size differs from the size
    last recorded, and a write of `data.json` when the flag is set. A write
    takes its contents when it starts; the flag is cleared, and the size
    recorded, when it completes. The run is a sequence of events; writes
    complete in the order they were started. */
module Persistence {
  import opened Common
  import opened ExclusionFile
  import opened Listings

  /** The flush state beside the store: `ELCount`, the writes in flight (the
      contents each one carries, oldest first) and the two files. */
  datatype Flusher = Flusher(
    elCount: nat,
    dataWrites: seq<map<string, LinkInfo>>,
    exclWrites: seq<string>,
    dataFile: Option<map<string, LinkInfo>>,
    exclFile: Option<string>)

  datatype World = World(store: Store, flusher: Flusher)

  datatype Event =
    | Mutate(infos: map<string, LinkInfo>, excluded: seq<string>)  // a change followed by notifyChangedLinkInfo
    | Tick                                                          // the interval timer fires
    | DataWritten                                                   // the oldest data.json write completes
    | ExclWritten                                                   // the oldest excludedLinks.txt write completes

  /** `saveSometimes` starting: the size is recorded, nothing is in flight. */
  function StartSaving(store: Store, dataFile: Option<map<string, LinkInfo>>, exclFile: Option<string>): (w: World)
    ensures w.store == store && w.flusher.elCount == |store.excluded|
    ensures w.flusher.dataWrites == [] && w.flusher.exclWrites == []
  {
    World(store, Flusher(|store.excluded|, [], [], dataFile, exclFile))
  }

  /** One tick (src/main.ts:103-110). */
  function OnTick(w: World): (r: World)
    ensures r.store == w.store
    ensures r.flusher.elCount == w.flusher.elCount
    ensures r.flusher.dataFile == w.flusher.dataFile && r.flusher.exclFile == w.flusher.exclFile
    ensures w.store.changed ==> r.flusher.dataWrites == w.flusher.dataWrites + [w.store.infos]
    ensures !w.store.changed ==> r.flusher.dataWrites == w.flusher.dataWrites
    ensures w.flusher.elCount != |w.store.excluded| ==> r.flusher.exclWrites == w.flusher.exclWrites + [FileText(w.store.excluded)]
    ensures w.flusher.elCount == |w.store.excluded| ==> r.flusher.exclWrites == w.flusher.exclWrites
  {
    var f := w.flusher;
    var ex := if f.elCount != |w.store.excluded| then f.exclWrites + [FileText(w.store.excluded)] else f.exclWrites;
    var da := if w.store.changed then f.dataWrites + [w.store.infos] else f.dataWrites;
    w.(flusher := f.(dataWrites := da, exclWrites := ex))
  }

  /** A `data.json` write completes (src/main.ts:95-98): the file holds what
      that write carried and the flag is cleared, whatever happened since. */
  function OnDataWritten(w: World): (r: World)
    requires w.flusher.dataWrites != []
  {
    var f := w.flusher;
    World(w.store.(changed := false), f.(dataFile := Some(f.dataWrites[0]), dataWrites := f.dataWrites[1..]))
  }

  /** An `excludedLinks.txt` write completes (src/main.ts:104-106): the file
      holds what the write carried and the size recorded is the size now. */
  function OnExclWritten(w: World): (r: World)
    requires w.flusher.exclWrites != []
  {
    var f := w.flusher;
    w.(flusher := f.(exclFile := Some(f.exclWrites[0]), exclWrites := f.exclWrites[1..], elCount := |w.store.excluded|))
  }

  /** One event; a completion with nothing in flight cannot occur and
      changes nothing. */
  function Step(w: World, e: Event): World {
    match e
    case Mutate(infos, excluded) => w.(store := w.store.(infos := infos, excluded := excluded, changed := true))
    case Tick => OnTick(w)
    case DataWritten => if w.flusher.dataWrites == [] then w else OnDataWritten(w)
    case ExclWritten => if w.flusher.exclWrites == [] then w else OnExclWritten(w)
  }

  function Run(w: World, events: seq<Event>): World
    decreases |events|
  {
    if events == [] then w else Run(Step(w, events[0]), events[1..])
  }

  function Ticks(n: nat): (r: seq<Event>)
    ensures |r| == n && forall k :: 0 <= k < n ==> r[k] == Tick
  {
    if n == 0 then [] else [Tick] + Ticks(n - 1)
  }

  // ---------------------------------------------------------------------
  // When the files are up to date

  /** With nothing pending and nothing in flight, the data file holds the
      records. */
  predicate DataSynced(w: World) {
    !w.store.changed && w.flusher.dataWrites == [] ==> w.flusher.dataFile == Some(w.store.infos)
  }

  /** With the size recorded and nothing in flight, the exclusion file holds
      the set. */
  predicate ExclSynced(w: World) {
    w.flusher.elCount == |w.store.excluded| && w.flusher.exclWrites == [] ==>
      w.flusher.exclFile == Some(FileText(w.store.excluded))
  }

  /** Ticks never touch the store, the recorded size or the files; with the
      flag clear they start no data write, and with the size unchanged no
      exclusion write, however many there are. */
  lemma {:induction false} TicksFacts(w: World, n: nat)
    ensures var r := Run(w, Ticks(n));
      r.store == w.store && r.flusher.elCount == w.flusher.elCount &&
      r.flusher.dataFile == w.flusher.dataFile && r.flusher.exclFile == w.flusher.exclFile &&
      (!w.store.changed ==> r.flusher.dataWrites == w.flusher.dataWrites) &&
      (w.flusher.elCount == |w.store.excluded| ==> r.flusher.exclWrites == w.flusher.exclWrites)
    decreases n
  {
    if n > 0 {
      assert Ticks(n)[0] == Tick && Ticks(n)[1..] == Ticks(n - 1);
      TicksFacts(OnTick(w), n - 1);
    }
  }

  /** When the last data write in flight completes, the file is up to date
      exactly when no record changed after that write started. */
  lemma LastDataWrite(w: World)
    requires |w.flusher.dataWrites| == 1
    ensures var r := OnDataWritten(w);
      !r.store.changed && r.flusher.dataWrites == [] &&
      (DataSynced(r) <==> w.flusher.dataWrites[0] == w.store.infos)
  {
  }

  /** The same for the exclusion file: up to date exactly when the set did
      not change after the write started. */
  lemma LastExclWrite(w: World)
    requires |w.flusher.exclWrites| == 1
    ensures var r := OnExclWritten(w);
      r.flusher.elCount == |r.store.excluded| && r.flusher.exclWrites == [] &&
      (ExclSynced(r) <==> w.flusher.exclWrites[0] == FileText(w.store.excluded))
  {
  }

  /** Without a change while they are in flight, a tick and the completion
      of its writes bring both files up to date. */
  lemma QuietFlush(w: World)
    requires w.flusher.dataWrites == [] && w.flusher.exclWrites == []
    requires w.store.changed && w.flusher.elCount != |w.store.excluded|
    ensures var r := Run(w, [Tick, DataWritten, ExclWritten]);
      DataSynced(r) && ExclSynced(r) && !r.store.changed && r.flusher.elCount == |r.store.excluded| &&
      r.flusher.dataFile == Some(w.store.infos) && r.flusher.exclFile == Some(FileText(w.store.excluded))
  {
    var t := OnTick(w);
    var d := OnDataWritten(t);
    assert Run(w, [Tick, DataWritten, ExclWritten]) == Run(t, [DataWritten, ExclWritten]);
    assert Run(t, [DataWritten, ExclWritten]) == Run(d, [ExclWritten]);
    assert [DataWritten, ExclWritten][1..] == [ExclWritten];
    assert [Tick, DataWritten, ExclWritten][1..] == [DataWritten, ExclWritten];
  }

  /** The flush when nothing changes meanwhile: the first tick starts one
      `data.json` write, its completion brings the file up to date and
      clears the flag, and the next tick starts no further write. */
  lemma OneDataWrite(w: World)
    requires w.store.changed && w.flusher.dataWrites == []
    ensures Step(w, Tick).flusher.dataWrites == [w.store.infos]
    ensures var r := Run(w, [Tick, DataWritten, Tick]);
      r.flusher.dataWrites == [] && r.flusher.dataFile == Some(w.store.infos) &&
      r.store.infos == w.store.infos && !r.store.changed && DataSynced(r)
  {
    RunThree(w, Tick, DataWritten, Tick, []);
    assert [Tick, DataWritten, Tick] + [] == [Tick, DataWritten, Tick];
  }

  /** Two ticks before the write completes: the flag is still set at the
      second tick, so a second write of the same records starts; the first
      completion then clears the flag while the second write is in flight. */
  lemma TwoTicksTwoWrites(w: World)
    requires w.store.changed && w.flusher.dataWrites == []
    ensures Run(w, [Tick, Tick]).flusher.dataWrites == [w.store.infos, w.store.infos]
    ensures var r := Run(w, [Tick, Tick, DataWritten]);
      r.flusher.dataWrites == [w.store.infos] && !r.store.changed && r.flusher.dataFile == Some(w.store.infos)
  {
    assert [Tick, Tick][1..] == [Tick];
    RunThree(w, Tick, Tick, DataWritten, []);
    assert [Tick, Tick, DataWritten] + [] == [Tick, Tick, DataWritten];
  }

  // ---------------------------------------------------------------------
  // The lost update

  /** Three events, then the rest. */
  lemma RunThree(w: World, a: Event, b: Event, c: Event, rest: seq<Event>)
    ensures Run(w, [a, b, c] + rest) == Run(Step(Step(Step(w, a), b), c), rest)
  {
    var es := [a, b, c] + rest;
    assert es[0] == a && es[1..] == [b, c] + rest;
    assert ([b, c] + rest)[0] == b && ([b, c] + rest)[1..] == [c] + rest;
    assert ([c] + rest)[0] == c && ([c] + rest)[1..] == rest;
    assert Run(w, es) == Run(Step(w, a), [b, c] + rest);
    assert Run(Step(w, a), [b, c] + rest) == Run(Step(Step(w, a), b), [c] + rest);
    assert Run(Step(Step(w, a), b), [c] + rest) == Run(Step(Step(Step(w, a), b), c), rest);
  }

  const Before: map<string, LinkInfo> := map[]
  const After: map<string, LinkInfo> := map["/appartement/huren/a" := NewLinkInfo(0)]

  /** A clean start with the records `Before` marked changed. */
  function Dirty(): World {
    World(Store(Before, [], [], true), Flusher(0, [], [], None, None))
  }

  /** A record added while the `data.json` write is in flight is cleared
      from the flag by that write's completion but is not in the file, and
      no later tick writes it: the file stays stale until the next change. */
  lemma {:induction false} DataUpdateLost(n: nat)
    ensures var r := Run(Dirty(), [Tick, Mutate(After, []), DataWritten] + Ticks(n));
      r.store.infos == After && r.flusher.dataFile == Some(Before) && Before != After &&
      !r.store.changed && r.flusher.dataWrites == [] && !DataSynced(r)
  {
    var w1 := OnTick(Dirty());
    var w2 := Step(w1, Mutate(After, []));
    var w3 := OnDataWritten(w2);
    RunThree(Dirty(), Tick, Mutate(After, []), DataWritten, Ticks(n));
    TicksFacts(w3, n);
    assert "/appartement/huren/a" in After;
  }

  /** A link `y` excluded while the `excludedLinks.txt` write of `[x]` is in
      flight: the completion records the new size, so no later tick writes
      the file, which lacks `y`. */
  lemma {:induction false} ExclusionLost(x: string, y: string, n: nat)
    requires x != "" && NoNewline(x) && x != y
    ensures var start := World(Store(Before, [x], [], false), Flusher(0, [], [], None, None));
      var r := Run(start, [Tick, Mutate(Before, [x, y]), ExclWritten] + Ticks(n));
      r.store.excluded == [x, y] && r.flusher.exclFile == Some(x) &&
      Loaded(r.flusher.exclFile) == [x] && r.flusher.exclWrites == [] && !ExclSynced(r)
  {
    var start := World(Store(Before, [x], [], false), Flusher(0, [], [], None, None));
    assert FileText([x]) == x;
    var w1 := OnTick(start);
    assert w1.flusher.exclWrites == [x];
    var w2 := Step(w1, Mutate(Before, [x, y]));
    var w3 := OnExclWritten(w2);
    assert w3.flusher.exclFile == Some(x) && w3.flusher.elCount == 2 && w3.flusher.exclWrites == [];
    RunThree(start, Tick, Mutate(Before, [x, y]), ExclWritten, Ticks(n));
    TicksFacts(w3, n);
    assert Loaded(Some(x)) == [x] by {
      SaveLoadRoundTrip([x]);
    }
    assert FileText([x, y]) == x + "\n" + y by {
      assert [x, y][..1] == [x];
    }
  }
}
