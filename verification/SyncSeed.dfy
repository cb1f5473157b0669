/** The pre-cursor seed of a flush: which synced signals the store hands over, and why they suffice. */
module SyncSeed {
  import opened Prelude
  import opened Timeline
  import opened TextOrder
  import opened Accounting
  import opened Windows
  import Windowings
  import opened Events
  import opened EventStore
  import opened CompactionRuns
  import opened RollupRows

  function Signals(events: seq<RawEvent>): seq<Stamped<Opener>> {
    SignalsBy(events, OpenerOf)
  }

  /** At or before the cursor; without one nothing has been synced yet. */
  predicate IsSynced(e: RawEvent, cursor: Option<string>) {
    cursor.Some? && LexLeq(e.id, cursor.value) && !IsProbe(e.session)
  }

  function Synced(cursor: Option<string>): RawEvent -> bool {
    (e: RawEvent) => IsSynced(e, cursor)
  }

  function InSeed(cursor: Option<string>, lo: int, hi: int): RawEvent -> bool {
    (e: RawEvent) => IsSynced(e, cursor) && e.kind.IsHumanSignal() && lo <= e.at <= hi
  }

  /** Chosen by time, not by id: a back-dated signal may have any id. */
  function HumanSignalSeed(events: seq<RawEvent>, cursor: Option<string>, lo: int, hi: int): seq<RawEvent> {
    if cursor.None? then [] else Untimed(ByTime(Filter(events, InSeed(cursor, lo, hi))))
  }

  /** The sync window `(cursor, until]`. */
  function InWindow(cursor: Option<string>, until: string): RawEvent -> bool {
    (e: RawEvent) => (cursor.Some? ==> LexLess(cursor.value, e.id)) && LexLeq(e.id, until) && !IsProbe(e.session)
  }

  /** The seed is the synced signals of the band, in time order. */
  lemma {:induction false} SeedSignals(events: seq<RawEvent>, cursor: Option<string>, lo: int, hi: int)
    ensures Signals(HumanSignalSeed(events, cursor, lo, hi)) ==
            SortByTime(Filter(Signals(Filter(events, Synced(cursor))), Between(lo, hi)))
  {
    if cursor.None? {
      FilterNone(events, Synced(cursor));
      return;
    }
    var synced := Filter(events, Synced(cursor));
    var inBand := (e: RawEvent) => e.kind.IsHumanSignal() && lo <= e.at <= hi;
    FilterFilter(events, Synced(cursor), inBand, InSeed(cursor, lo, hi));
    SignalsOfFilter(synced, OpenerOf, inBand, Between(lo, hi));
    SignalsInOrder(Filter(events, InSeed(cursor, lo, hi)), OpenerOf);
  }

  /** A flush seeded from the band emits what it would emit seeded from the whole synced log. */
  lemma {:induction false} BandIsEnough(events: seq<RawEvent>, cursor: Option<string>, window: seq<RawEvent>, idle: int, lo: int, hi: int)
    requires 0 <= idle
    requires forall w :: w in Signals(window) ==> lo + idle <= w.at <= hi - idle
    ensures EmittedOf(Merged(Signals(HumanSignalSeed(events, cursor, lo, hi)), Signals(window)), idle) ==
            EmittedOf(Merged(Signals(Filter(events, Synced(cursor))), Signals(window)), idle)
  {
    SeedSignals(events, cursor, lo, hi);
    SeedIsEnough(Signals(Filter(events, Synced(cursor))), Signals(window), idle, lo, hi);
  }

  lemma {:induction false} SplitTimes(events: seq<RawEvent>, cursor: Option<string>, until: string, t: int)
    requires cursor.Some? ==> LexLeq(cursor.value, until)
    ensures HasTime(Signals(Filter(events, Synced(Some(until)))), t) <==>
            HasTime(Signals(Filter(events, Synced(cursor))), t) || HasTime(Signals(Filter(events, InWindow(cursor, until))), t)
  {
    SignalTimes(Filter(events, Synced(Some(until))), OpenerOf, t);
    SignalTimes(Filter(events, Synced(cursor)), OpenerOf, t);
    SignalTimes(Filter(events, InWindow(cursor, until)), OpenerOf, t);
    forall e ensures e in Filter(events, Synced(Some(until))) <==>
                     e in Filter(events, Synced(cursor)) || e in Filter(events, InWindow(cursor, until))
    {
      FilterMember(events, Synced(Some(until)), e);
      FilterMember(events, Synced(cursor), e);
      FilterMember(events, InWindow(cursor, until), e);
      SyncedOrWindow(e, cursor, until);
    }
  }

  lemma {:induction false} SyncedOrWindow(e: RawEvent, cursor: Option<string>, until: string)
    requires cursor.Some? ==> LexLeq(cursor.value, until)
    ensures IsSynced(e, Some(until)) <==> IsSynced(e, cursor) || InWindow(cursor, until)(e)
  {
    if cursor.Some? {
      var c := cursor.value;
      LexTrichotomy(e.id, c);
      if LexLess(e.id, c) && LexLess(c, until) { LexTransitive(e.id, c, until); }
    }
  }

  /**
   Windowed accounting is global accounting: a flush over `(cursor, until]`, seeded from any band one
   idle wider than its signals, emits exactly the counted gaps of the whole log up to `until` that a
   window signal opens, or that end where no synced signal stands.
   */
  lemma {:induction false} FlushIsGlobal(events: seq<RawEvent>, cursor: Option<string>, until: string, idle: int,
                                         lo: int, hi: int, a: int, b: int)
    requires 0 <= idle && (cursor.Some? ==> LexLeq(cursor.value, until))
    requires forall w :: w in Signals(Filter(events, InWindow(cursor, until))) ==> lo + idle <= w.at <= hi - idle
    ensures var seed, window := Signals(HumanSignalSeed(events, cursor, lo, hi)),
                                Signals(Filter(events, InWindow(cursor, until)));
            HasGap(EmittedOf(Merged(seed, window), idle), a, b) <==>
            && HasGap(GapsOf(SortByTime(Signals(Filter(events, Synced(Some(until))))), idle), a, b)
            && (HasTime(window, a) || !HasTime(Signals(Filter(events, Synced(cursor))), b))
  {
    var synced, window := Signals(Filter(events, Synced(cursor))), Signals(Filter(events, InWindow(cursor, until)));
    var all := Signals(Filter(events, Synced(Some(until))));
    BandIsEnough(events, cursor, Filter(events, InWindow(cursor, until)), idle, lo, hi);
    EmittedIsTouched(synced, window, idle, a, b);
    CountedGapsAreAdjacentPairs(all, idle, a, b);
    forall t ensures HasTime(synced + window, t) <==> HasTime(all, t) {
      SplitTimes(events, cursor, until, t);
    }
    AdjacentByTimes(synced + window, all, idle, a, b);
  }

  method Span<K>(s: seq<Stamped<K>>) returns (lo: int, hi: int)
    requires s != []
    ensures forall x :: x in s ==> lo <= x.at <= hi
  {
    lo, hi := s[0].at, s[0].at;
    for i := 1 to |s|
      invariant forall j :: 0 <= j < i ==> lo <= s[j].at <= hi
    {
      if s[i].at < lo { lo := s[i].at; }
      if s[i].at > hi { hi := s[i].at; }
    }
  }

  /** The gaps a flush owes: counted in the whole log, and touching its window. */
  ghost predicate Owed(events: seq<RawEvent>, cursor: Option<string>, until: string, idle: int, a: int, b: int) {
    && HasGap(GapsOf(SortByTime(Signals(Filter(events, Synced(Some(until))))), idle), a, b)
    && (HasTime(Signals(Filter(events, InWindow(cursor, until))), a) || !HasTime(Signals(Filter(events, Synced(cursor))), b))
  }

  /** The event opens the gap, and the gap is attributed to its project and session. */
  ghost predicate Opens(e: RawEvent, until: string, g: Gap<Opener>) {
    && IsSynced(e, Some(until)) && e.kind.IsHumanSignal() && e.at == g.start
    && g.key.project == e.project && g.key.session == e.session
  }

  ghost predicate OpenedByOne(events: seq<RawEvent>, until: string, g: Gap<Opener>) {
    exists e :: e in events && Opens(e, until, g)
  }

  /** Every interval of a flush names the project and session of a signal that stands at its start. */
  lemma {:induction false} FlushNamesOpeners(events: seq<RawEvent>, cursor: Option<string>, until: string, seed: seq<RawEvent>,
                                             lo: int, hi: int, idle: int, g: Gap<Opener>)
    requires cursor.Some? ==> LexLeq(cursor.value, until)
    requires seed == [] || seed == HumanSignalSeed(events, cursor, lo, hi)
    requires var window := Filter(events, InWindow(cursor, until));
             g in EmittedOf(Merged(Signals(seed), Signals(window)), idle)
    ensures OpenedByOne(events, until, g)
  {
    var window := Filter(events, InWindow(cursor, until));
    var x := Stamped(g.start, g.key);
    EmittedStartsAtSignal(Signals(seed), Signals(window), idle, g);
    if x in Signals(window) {
      SignalIsAnEvents(window, OpenerOf, x);
      var e :| e in window && e.kind.IsHumanSignal() && x == Stamped(e.at, OpenerOf(e));
      FilterMember(events, InWindow(cursor, until), e);
      SyncedOrWindow(e, cursor, until);
      assert Opens(e, until, g);
    } else {
      SeedSignals(events, cursor, lo, hi);
      SeedSignalIsSynced(events, cursor, lo, hi, x);
      var e :| e in events && IsSynced(e, cursor) && e.kind.IsHumanSignal() && x == Stamped(e.at, OpenerOf(e));
      SyncedOrWindow(e, cursor, until);
      assert Opens(e, until, g);
    }
  }

  lemma {:induction false} EmittedStartsAtSignal(seed: seq<Stamped<Opener>>, window: seq<Stamped<Opener>>, idle: int, g: Gap<Opener>)
    requires g in EmittedOf(Merged(seed, window), idle)
    ensures Stamped(g.start, g.key) in seed || Stamped(g.start, g.key) in window
  {
    Windowings.EmittedAreGaps(Merged(seed, window), idle, g);
    Windowings.UnmarkMerged(seed, window);
    GapEndsAreTimes(SortByTime(seed + window), idle, g);
    SortMember(seed + window, Stamped(g.start, g.key));
  }

  lemma {:induction false} SeedSignalIsSynced(events: seq<RawEvent>, cursor: Option<string>, lo: int, hi: int, x: Stamped<Opener>)
    requires x in Signals(HumanSignalSeed(events, cursor, lo, hi))
    ensures exists e :: e in events && IsSynced(e, cursor) && e.kind.IsHumanSignal() && x == Stamped(e.at, OpenerOf(e))
  {
    var synced := Filter(events, Synced(cursor));
    SeedSignals(events, cursor, lo, hi);
    SortMember(Filter(Signals(synced), Between(lo, hi)), x);
    FilterMember(Signals(synced), Between(lo, hi), x);
    SignalIsAnEvents(synced, OpenerOf, x);
    var e :| e in synced && e.kind.IsHumanSignal() && x == Stamped(e.at, OpenerOf(e));
    FilterMember(events, Synced(cursor), e);
  }

  // ---- flush after flush -------------------------------------------------------------------

  /** Where flush `n` of a run of flushes takes over. */
  function Before(cursors: seq<string>, n: nat): Option<string>
    requires n <= |cursors|
  {
    if n == 0 then None else Some(cursors[n - 1])
  }

  /** Flush `n` takes the event in. */
  ghost predicate TakenBy(cursors: seq<string>, n: nat, e: RawEvent) {
    n < |cursors| && InWindow(Before(cursors, n), cursors[n])(e)
  }

  /** As the cursor moves on, every event it has reached was in exactly one flush's window, and no other was. */
  lemma {:induction false} WindowsPartition(cursors: seq<string>, e: RawEvent)
    requires cursors != [] && forall i :: 0 < i < |cursors| ==> LexLeq(cursors[i - 1], cursors[i])
    ensures IsSynced(e, Some(cursors[|cursors| - 1])) <==> exists n: nat :: TakenBy(cursors, n, e)
    ensures forall m: nat, n: nat :: TakenBy(cursors, m, e) && TakenBy(cursors, n, e) ==> m == n
  {
    hide LexLeq;
    var last := |cursors| - 1;
    LastFlush(cursors, e);
    if last > 0 {
      var t := cursors[..last];
      forall i | 0 < i < last ensures LexLeq(t[i - 1], t[i]) {}
      WindowsPartition(t, e);
    } else {
      assert forall n: nat :: TakenBy(cursors, n, e) ==> n == 0;
    }
    hide TakenBy;
    hide IsSynced;
  }

  lemma {:induction false} LastFlush(cursors: seq<string>, e: RawEvent)
    requires cursors != []
    requires |cursors| > 1 ==> LexLeq(cursors[|cursors| - 2], cursors[|cursors| - 1])
    ensures var last := |cursors| - 1;
            && (IsSynced(e, Some(cursors[last])) <==> IsSynced(e, Before(cursors, last)) || TakenBy(cursors, last, e))
            && !(IsSynced(e, Before(cursors, last)) && TakenBy(cursors, last, e))
            && (forall n: nat :: n < last ==> (TakenBy(cursors[..last], n, e) <==> TakenBy(cursors, n, e)))
            && (forall n: nat :: n >= last ==> !TakenBy(cursors[..last], n, e))
            && (forall n: nat :: n > last ==> !TakenBy(cursors, n, e))
  {
    var last := |cursors| - 1;
    SyncedOrWindow(e, Before(cursors, last), cursors[last]);
    if last > 0 { SyncedNotAfter(e, cursors[last - 1], cursors[last]); }
    hide IsSynced;
    hide InWindow;
    hide LexLeq;
  }

  lemma {:induction false} SyncedNotAfter(e: RawEvent, cursor: string, until: string)
    ensures !(IsSynced(e, Some(cursor)) && InWindow(Some(cursor), until)(e))
  {
    LexTrichotomy(e.id, cursor);
  }

  /** One flush, the first one included: its band is its signals' span, one idle wider on each side. */
  method Flush(events: seq<RawEvent>, cursor: Option<string>, until: string, idle: int) returns (out: seq<Gap<Opener>>)
    requires 0 <= idle && (cursor.Some? ==> LexLeq(cursor.value, until))
    ensures forall a, b :: HasGap(out, a, b) <==> Owed(events, cursor, until, idle, a, b)
    ensures forall g :: g in out ==> OpenedByOne(events, until, g)
  {
    var window := Filter(events, InWindow(cursor, until));
    var humans := Signals(window);
    var lo, hi := 0, 0;
    var seed := [];
    if humans != [] {
      lo, hi := Span(humans);
      lo, hi := lo - idle, hi + idle;
      seed := HumanSignalSeed(events, cursor, lo, hi);
    }
    out := BuildIntervalsSeeded(humans, idle, Signals(seed));
    forall g | g in out ensures OpenedByOne(events, until, g) {
      FlushNamesOpeners(events, cursor, until, seed, lo, hi, idle, g);
    }
    if humans == [] {
      SeedAloneEmitsNothing<Opener>([], idle);
      assert out == [];
      forall a, b ensures !Owed(events, cursor, until, idle, a, b) {
        FlushIsGlobal(events, cursor, until, idle, lo, hi, a, b);
        NothingWithoutWindow(Signals(HumanSignalSeed(events, cursor, lo, hi)), idle);
      }
    } else {
      forall a, b ensures HasGap(out, a, b) <==> Owed(events, cursor, until, idle, a, b) {
        FlushIsGlobal(events, cursor, until, idle, lo, hi, a, b);
      }
    }
  }

  lemma {:induction false} NothingWithoutWindow<K>(seed: seq<Stamped<K>>, idle: int)
    ensures EmittedOf(Merged(seed, []), idle) == []
  {
    SortRetag(seed, (k: K) => Sig(k, false));
    assert Mark(seed, false) + Mark([], true) == Mark(seed, false);
    SeedAloneEmitsNothing(SortByTime(seed), idle);
  }
}
