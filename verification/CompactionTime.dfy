/** What a compaction pass does to the human time a full report shows, for any log. */
module CompactionTime {
  import opened Prelude
  import opened Timeline
  import opened MapSums
  import opened Accounting
  import opened StoredAt
  import opened Events
  import Report
  import opened TokenTable
  import opened EventStore
  import opened CompactionDays
  import opened RollupRows
  import opened StoreReport
  import opened Cells

  // ---- the two accounts of a compacted day -------------------------------------------------

  function HumanTime(events: seq<RawEvent>, idle: int): int {
    TotalHumanSeconds(Report.ProjectSignals(events), idle)
  }

  /** The billable events a pass compacts. */
  function Batch(events: seq<RawEvent>, cursor: string, cutoff: int): seq<RawEvent> {
    Filter(events, Eligible(cursor, Bound(events, cursor, cutoff)))
  }

  function OnDay(day: string): RawEvent -> bool {
    (e: RawEvent) => DayText(e.at) == day
  }

  function DaysOf(batch: seq<RawEvent>): set<string> {
    set e | e in batch :: DayText(e.at)
  }

  function KeysOf(batch: seq<RawEvent>): set<Key> {
    set e | e in batch :: KeyOf(e)
  }

  /** Each compacted day's human time, de-duplicated over its sessions. */
  function DayTimes(batch: seq<RawEvent>, idle: int): map<string, int> {
    map d | d in DaysOf(batch) :: HumanTime(Filter(batch, OnDay(d)), idle)
  }

  const HUMAN: Report.RollupColumn := Report.HumanColumnOf
  const AGENT: Report.RollupColumn := Report.AgentColumnOf

  /** What the row rule makes of some events. */
  function RowTime(events: seq<RawEvent>, c: Report.RollupColumn, idle: int): int {
    if c == HUMAN then HumanTime(events, idle) else ActiveSeconds(ActivityTimes(events), idle)
  }

  /** Each compacted day's time, session by session on its own. */
  function SessionTimes(batch: seq<RawEvent>, c: Report.RollupColumn, idle: int): map<Key, int> {
    map k | k in KeysOf(batch) :: RowTime(Filter(batch, HasKey(k)), c, idle)
  }

  const DayOf: Key -> string := (k: Key) => k.day

  /** What keeping a day's sessions apart takes from it; negative where their times overlap. */
  ghost function DayLoss(batch: seq<RawEvent>, idle: int, day: string): int {
    HumanTime(Filter(batch, OnDay(day)), idle) - SumMap(Where(SessionTimes(batch, HUMAN, idle), DayOf, day))
  }

  ghost function DayLosses(batch: seq<RawEvent>, idle: int): map<string, int> {
    map d | d in DaysOf(batch) :: DayLoss(batch, idle, d)
  }

  /** A gap that starts in a compacted day and ends in another one. */
  function LeavesCompactedDay(bound: int): Gap<Option<string>> -> bool {
    (g: Gap<Option<string>>) => g.start < bound && g.start / DAY != g.end / DAY
  }

  // ---- where a pass puts a time ------------------------------------------------------------

  /** Under its day, or nowhere: still in the log. */
  function PlaceOf(bound: int): int -> string {
    (t: int) => if t < bound then DayText(t) else ""
  }

  lemma {:induction false} PlacesDiffer(bound: int, t: int, u: int)
    requires InRange(t) && InRange(u) && t <= u && Midnight(bound) == bound
    ensures PlaceOf(bound)(t) != PlaceOf(bound)(u) <==> t < bound && t / DAY != u / DAY
  {
    hide DayText;
    DayTextIsDay(t, u);
    DayTextIsDay(u, t);
    MidnightBelow(t, bound);
    MidnightBelow(u, bound);
  }

  ghost predicate TimesInRange<K>(s: seq<Stamped<K>>) {
    forall x :: x in s ==> InRange(x.at)
  }

  lemma {:induction false} PlacesBetween(bound: int, t: int, u: int, v: int)
    requires InRange(t) && InRange(u) && InRange(v) && t <= u <= v && Midnight(bound) == bound
    requires PlaceOf(bound)(t) == PlaceOf(bound)(v)
    ensures PlaceOf(bound)(u) == PlaceOf(bound)(t)
  {
    PlacesDiffer(bound, t, v);
    PlacesDiffer(bound, t, u);
    if t < bound { DaysBetween(t, u, v); }
  }

  lemma {:induction false} DaysBetween(t: int, u: int, v: int)
    requires t <= u <= v && t / DAY == v / DAY
    ensures t / DAY == u / DAY
  {
  }

  lemma {:induction false} PlacesAreStretches<K>(s: seq<Stamped<K>>, bound: int)
    requires Sorted(s) && TimesInRange(s) && Midnight(bound) == bound
    ensures IsStretches(s, PlaceOf(bound))
  {
    hide PlaceOf;
    hide Midnight;
    forall i, j, n | 0 <= i <= j <= n < |s| && PlaceOf(bound)(s[i].at) == PlaceOf(bound)(s[n].at)
      ensures PlaceOf(bound)(s[j].at) == PlaceOf(bound)(s[i].at)
    {
      assert s[i] in s && s[j] in s && s[n] in s;
      PlacesBetween(bound, s[i].at, s[j].at, s[n].at);
    }
  }

  lemma {:induction false} CrossingIsLeaving(s: seq<Stamped<Option<string>>>, idle: int, bound: int)
    requires TimesInRange(s) && Midnight(bound) == bound
    ensures Filter(GapsOf(s, idle), Crosses(PlaceOf(bound))) == Filter(GapsOf(s, idle), LeavesCompactedDay(bound))
  {
    forall g | g in GapsOf(s, idle) ensures Crosses(PlaceOf(bound))(g) <==> LeavesCompactedDay(bound)(g) {
      GapEndsAreTimes(s, idle, g);
      PlacesDiffer(bound, g.start, g.end);
    }
    FilterAgree(GapsOf(s, idle), Crosses(PlaceOf(bound)), LeavesCompactedDay(bound));
  }

  function RealSignals(events: seq<RawEvent>): seq<Stamped<Option<string>>> {
    SortByTime(Report.ProjectSignals(Filter(events, IsReal)))
  }

  lemma {:induction false} StreamIsCut(events: seq<RawEvent>, cursor: string, cutoff: int)
    requires AllInRange(events)
    ensures TimesInRange(RealSignals(events)) && IsStretches(RealSignals(events), PlaceOf(Bound(events, cursor, cutoff)))
  {
    var signals := Report.ProjectSignals(Filter(events, IsReal));
    SortSorted(signals);
    BoundIsAligned(events, cursor, cutoff);
    forall x | x in SortByTime(signals) ensures InRange(x.at) {
      SortMember(signals, x);
      SignalTimes(Filter(events, IsReal), ProjectOf, x.at);
      var e :| e in Filter(events, IsReal) && e.at == x.at;
      FilterMember(events, IsReal, e);
    }
    PlacesAreStretches(SortByTime(signals), Bound(events, cursor, cutoff));
  }

  // ---- what the places hold ----------------------------------------------------------------

  /** Human time of the part of the log a pass puts in one place. */
  lemma {:induction false} TimeInPlace(events: seq<RawEvent>, p: RawEvent -> bool, cell: int -> string, c: string,
                                       idle: int)
    requires forall e :: e in events ==> (p(e) <==> cell(e.at) == c)
    ensures SumSeconds(GapsOf(Filter(SortByTime(Report.ProjectSignals(events)), InCell(cell, c)), idle)) ==
            HumanTime(Filter(events, p), idle)
  {
    SignalsOfFilter(events, ProjectOf, p, InCell(cell, c));
    SortFilter(Report.ProjectSignals(events), InCell(cell, c));
  }

  /** The live events of a report after the pass. */
  function StillLive(events: seq<RawEvent>, cursor: string, cutoff: int): seq<RawEvent> {
    Filter(Filter(events, Kept(cursor, Bound(events, cursor, cutoff))), IsReal)
  }

  lemma {:induction false} PlaceOfReal(events: seq<RawEvent>, cursor: string, cutoff: int, e: RawEvent)
    requires AllInRange(events) && e in events && IsReal(e)
    ensures var bound := Bound(events, cursor, cutoff);
            && (PlaceOf(bound)(e.at) == "" <==> Kept(cursor, bound)(e))
            && (Eligible(cursor, bound)(e) <==> e.at < bound) && DayText(e.at) != ""
  {
    EligibleIsBefore(events, cursor, cutoff, e);
    DayTextIsDay(e.at, e.at);
  }

  lemma {:induction false} TimeStillInLog(events: seq<RawEvent>, cursor: string, cutoff: int, idle: int)
    requires AllInRange(events)
    ensures SumSeconds(GapsOf(Filter(RealSignals(events), InCell(PlaceOf(Bound(events, cursor, cutoff)), "")), idle)) ==
            HumanTime(StillLive(events, cursor, cutoff), idle)
  {
    var bound := Bound(events, cursor, cutoff);
    var both := (e: RawEvent) => IsReal(e) && Kept(cursor, bound)(e);
    forall e | e in Filter(events, IsReal) ensures Kept(cursor, bound)(e) <==> PlaceOf(bound)(e.at) == "" {
      FilterMember(events, IsReal, e);
      PlaceOfReal(events, cursor, cutoff, e);
    }
    TimeInPlace(Filter(events, IsReal), Kept(cursor, bound), PlaceOf(bound), "", idle);
    FilterFilter(events, IsReal, Kept(cursor, bound), both);
    FilterFilter(events, Kept(cursor, bound), IsReal, both);
  }

  lemma {:induction false} TimeUnderDay(events: seq<RawEvent>, cursor: string, cutoff: int, idle: int, day: string)
    requires AllInRange(events) && day != ""
    ensures SumSeconds(GapsOf(Filter(RealSignals(events), InCell(PlaceOf(Bound(events, cursor, cutoff)), day)), idle)) ==
            HumanTime(Filter(Batch(events, cursor, cutoff), OnDay(day)), idle)
  {
    var bound := Bound(events, cursor, cutoff);
    var under := (e: RawEvent) => PlaceOf(bound)(e.at) == day;
    var both := (e: RawEvent) => IsReal(e) && under(e);
    forall e | e in events ensures both(e) <==> Eligible(cursor, bound)(e) && OnDay(day)(e) {
      if IsReal(e) { PlaceOfReal(events, cursor, cutoff, e); }
    }
    TimeInPlace(Filter(events, IsReal), under, PlaceOf(bound), day, idle);
    FilterFilter(events, IsReal, under, both);
    FilterFilter(events, Eligible(cursor, bound), OnDay(day), both);
  }

  lemma {:induction false} BatchMember(events: seq<RawEvent>, cursor: string, cutoff: int, e: RawEvent)
    requires AllInRange(events) && e in Batch(events, cursor, cutoff)
    ensures e in events && IsReal(e) && DayText(e.at) != ""
  {
    FilterMember(events, Eligible(cursor, Bound(events, cursor, cutoff)), e);
    DayTextIsDay(e.at, e.at);
  }

  lemma {:induction false} NoSuchDay(batch: seq<RawEvent>, idle: int, day: string)
    requires day !in DaysOf(batch)
    ensures HumanTime(Filter(batch, OnDay(day)), idle) == 0
  {
    FilterNone(batch, OnDay(day));
  }

  /** The cells of the live stream hold what the log keeps and what each compacted day comes to. */
  lemma {:induction false} PlaceHolds(events: seq<RawEvent>, cursor: string, cutoff: int, idle: int, c: string)
    requires AllInRange(events)
    ensures Get(PerKey(InnerGaps(RealSignals(events), PlaceOf(Bound(events, cursor, cutoff)), idle)), c) ==
            Get(DayTimes(Batch(events, cursor, cutoff), idle), c) +
            Get(map["" := HumanTime(StillLive(events, cursor, cutoff), idle)], c)
  {
    hide HumanTime;
    var batch := Batch(events, cursor, cutoff);
    StreamIsCut(events, cursor, cutoff);
    CellTime(RealSignals(events), PlaceOf(Bound(events, cursor, cutoff)), idle, c);
    if c == "" {
      TimeStillInLog(events, cursor, cutoff, idle);
      forall e | e in batch ensures DayText(e.at) != "" { BatchMember(events, cursor, cutoff, e); }
    } else {
      TimeUnderDay(events, cursor, cutoff, idle, c);
      if c !in DaysOf(batch) { NoSuchDay(batch, idle, c); }
    }
  }

  lemma {:induction false} SumMapSingle<K>(m: map<K, int>, k: K)
    requires m.Keys == {k}
    ensures SumMap(m) == m[k]
  {
    SumMapRemove(m, k);
    assert m - {k} == map[];
  }

  /** Live time before: what stays live, the compacted days, and the gaps that leave them. */
  lemma {:induction false} LiveTimeSplits(events: seq<RawEvent>, cursor: string, cutoff: int, idle: int)
    requires AllInRange(events)
    ensures HumanTime(Filter(events, IsReal), idle) ==
            HumanTime(StillLive(events, cursor, cutoff), idle) + SumMap(DayTimes(Batch(events, cursor, cutoff), idle)) +
            SumSeconds(Filter(GapsOf(RealSignals(events), idle), LeavesCompactedDay(Bound(events, cursor, cutoff))))
  {
    var bound, s := Bound(events, cursor, cutoff), RealSignals(events);
    var inner, days := InnerGaps(s, PlaceOf(bound), idle), DayTimes(Batch(events, cursor, cutoff), idle);
    var live := map["" := HumanTime(StillLive(events, cursor, cutoff), idle)];
    forall c ensures Get(PerKey(inner), c) == Get(days, c) + Get(live, c) { PlaceHolds(events, cursor, cutoff, idle, c); }
    SumMapSplit(PerKey(inner), days, live);
    SumMapSingle(live, "");
    PerKeySumsToTotal(inner);
    InnerAndCrossing(s, PlaceOf(bound), idle);
    StreamIsCut(events, cursor, cutoff);
    BoundIsAligned(events, cursor, cutoff);
    CrossingIsLeaving(s, idle, bound);
  }

  // ---- what the rows gain ------------------------------------------------------------------

  lemma {:induction false} RowTimesMove(rollup: Rollup, batch: seq<RawEvent>, tokens: seq<TokenRow>,
                                        c: Report.RollupColumn,
                                        idle: int, k: Key)
    ensures Get(RowTimes(Rolled(rollup, Groups(ByTime(batch)), tokens, idle), c), k) ==
            Get(RowTimes(rollup, c), k) + RowTime(Filter(batch, HasKey(k)), c, idle)
  {
    RowIsIsolated(batch, k, tokens, idle);
    assert TotalHumanSeconds<Option<string>>([], idle) == 0 == ActiveSeconds([], idle);
  }

  lemma {:induction false} NoSuchKey(batch: seq<RawEvent>, c: Report.RollupColumn, idle: int, k: Key)
    requires k !in KeysOf(batch)
    ensures RowTime(Filter(batch, HasKey(k)), c, idle) == 0
  {
    FilterNone(batch, HasKey(k));
  }

  /** The rows gain what each session's day comes to on its own. */
  lemma {:induction false} RowsGain(rollup: Rollup, batch: seq<RawEvent>, tokens: seq<TokenRow>,
                                    c: Report.RollupColumn, idle: int)
    ensures SumMap(RowTimes(Rolled(rollup, Groups(ByTime(batch)), tokens, idle), c)) ==
            SumMap(RowTimes(rollup, c)) + SumMap(SessionTimes(batch, c, idle))
  {
    hide RowTime;
    hide RowTimes;
    var after := RowTimes(Rolled(rollup, Groups(ByTime(batch)), tokens, idle), c);
    forall k ensures Get(after, k) == Get(RowTimes(rollup, c), k) + Get(SessionTimes(batch, c, idle), k) {
      RowTimesMove(rollup, batch, tokens, c, idle, k);
      if k !in KeysOf(batch) { NoSuchKey(batch, c, idle, k); }
    }
    SumMapSplit(after, RowTimes(rollup, c), SessionTimes(batch, c, idle));
  }

  ghost function SessionTimesByDay(batch: seq<RawEvent>, idle: int): map<string, int> {
    map d | d in DaysOf(batch) :: SumMap(Where(SessionTimes(batch, HUMAN, idle), DayOf, d))
  }

  lemma {:induction false} SessionsByDayAddUp(batch: seq<RawEvent>, idle: int)
    ensures SumMap(SessionTimesByDay(batch, idle)) == SumMap(SessionTimes(batch, HUMAN, idle))
  {
    hide HumanTime;
    var m, days := SessionTimes(batch, HUMAN, idle), SessionTimesByDay(batch, idle);
    forall d ensures Get(days, d) == SumMap(Where(m, DayOf, d)) {
      if d !in DaysOf(batch) { assert Where(m, DayOf, d) == map[]; }
    }
    SumByGroup(m, DayOf, days);
  }

  lemma {:induction false} LossesAddUp(batch: seq<RawEvent>, idle: int)
    ensures SumMap(DayLosses(batch, idle)) == SumMap(DayTimes(batch, idle)) - SumMap(SessionTimes(batch, HUMAN, idle))
  {
    hide RowTime;
    hide HumanTime;
    hide SessionTimes;
    SessionsByDayAddUp(batch, idle);
    var days, own, losses := DayTimes(batch, idle), SessionTimesByDay(batch, idle), DayLosses(batch, idle);
    forall d ensures Get(days, d) == Get(losses, d) + Get(own, d) {}
    SumMapSplit(days, losses, own);
  }

  // ---- before and after --------------------------------------------------------------------

  lemma {:induction false} ReportedOfAll(db: Db, idle: int)
    ensures ReportedHuman(db, None, idle) ==
            HumanTime(Filter(db.events, IsReal), idle) + SumMap(RowTimes(db.rollup, HUMAN))
  {
    FilterAgree(db.events, Listed(None), IsReal);
    assert RowsSince(db.rollup, None) == db.rollup;
  }

  /** A pass that finds nothing billable leaves the same live events and rows as one that writes nothing. */
  lemma {:induction false} EmptyBatch(db: Db, cursor: string, cutoff: int, idle: int)
    requires Batch(db.events, cursor, cutoff) == []
    ensures StillLive(db.events, cursor, cutoff) == Filter(db.events, IsReal)
    ensures Rolled(db.rollup, Groups(ByTime([])), db.tokens, idle) == db.rollup
  {
    var bound := Bound(db.events, cursor, cutoff);
    forall e | e in db.events && IsReal(e) ensures Kept(cursor, bound)(e) {
      FilterMember(db.events, Eligible(cursor, bound), e);
    }
    FilterFilter(db.events, Kept(cursor, bound), IsReal, IsReal);
    assert Groups(ByTime([])) == map[];
  }

  /** What a report reads after the pass. */
  lemma {:induction false} AfterPass(db: Db, cursor: string, cutoff: int, idle: int)
    ensures var after := Compacted(db, Some(cursor), cutoff, idle);
            && Filter(after.events, IsReal) == StillLive(db.events, cursor, cutoff)
            && after.rollup == Rolled(db.rollup, Groups(ByTime(Batch(db.events, cursor, cutoff))), db.tokens, idle)
  {
    if Batch(db.events, cursor, cutoff) == [] { EmptyBatch(db, cursor, cutoff, idle); }
  }

  lemma {:induction false} ReportedAfter(db: Db, cursor: string, cutoff: int, idle: int)
    ensures var batch := Batch(db.events, cursor, cutoff);
            ReportedHuman(Compacted(db, Some(cursor), cutoff, idle), None, idle) ==
            HumanTime(StillLive(db.events, cursor, cutoff), idle) +
            SumMap(RowTimes(Rolled(db.rollup, Groups(ByTime(batch)), db.tokens, idle), HUMAN))
  {
    hide HumanTime;
    hide RowTimes;
    hide Compacted;
    ReportedOfAll(Compacted(db, Some(cursor), cutoff, idle), idle);
    AfterPass(db, cursor, cutoff, idle);
  }

  ghost function ReportLoss(db: Db, cursor: string, cutoff: int, idle: int): int {
    ReportedHuman(db, None, idle) - ReportedHuman(Compacted(db, Some(cursor), cutoff, idle), None, idle)
  }

  /** The counted gaps of the live report that start in a compacted day and end in another one. */
  function LeavingGaps(events: seq<RawEvent>, cursor: string, cutoff: int, idle: int): seq<Gap<Option<string>>> {
    Filter(GapsOf(RealSignals(events), idle), LeavesCompactedDay(Bound(events, cursor, cutoff)))
  }

  /**
   What a pass takes from the reported human time of any log: the counted gaps that leave a compacted day,
   and for each compacted day its de-duplicated time less that of each of its sessions on its own.
   */
  lemma {:induction false} PassChangesTimeBy(db: Db, cursor: string, cutoff: int, idle: int)
    requires AllInRange(db.events)
    ensures ReportLoss(db, cursor, cutoff, idle) ==
            SumSeconds(LeavingGaps(db.events, cursor, cutoff, idle)) +
            SumMap(DayLosses(Batch(db.events, cursor, cutoff), idle))
  {
    hide ReportedHuman;
    hide HumanTime;
    var batch := Batch(db.events, cursor, cutoff);
    ReportedOfAll(db, idle);
    ReportedAfter(db, cursor, cutoff, idle);
    LiveTimeSplits(db.events, cursor, cutoff, idle);
    RowsGain(db.rollup, batch, db.tokens, HUMAN, idle);
    LossesAddUp(batch, idle);
  }

  // ---- one signalling session a day --------------------------------------------------------

  /** On no compacted day did two sessions see a human. */
  ghost predicate OneSignallerADay(batch: seq<RawEvent>) {
    forall e, f :: e in batch && f in batch && e.kind.IsHumanSignal() && f.kind.IsHumanSignal() ==>
      DayText(e.at) == DayText(f.at) ==> e.session == f.session
  }

  lemma {:induction false} OwnTimeOnDay(batch: seq<RawEvent>, idle: int, e: RawEvent, k: Key)
    requires OneSignallerADay(batch) && e in batch && e.kind.IsHumanSignal() && k.day == DayText(e.at)
    ensures HumanTime(Filter(batch, HasKey(k)), idle) ==
            if k == KeyOf(e) then HumanTime(Filter(batch, OnDay(k.day)), idle) else 0
  {
    if k == KeyOf(e) {
      SignalsAgree(batch, ProjectOf, HasKey(k), OnDay(k.day));
    } else {
      SignalsAgree(batch, ProjectOf, HasKey(k), (x: RawEvent) => false);
      FilterNone(batch, (x: RawEvent) => false);
    }
  }

  lemma {:induction false} NoSignalNoTime(batch: seq<RawEvent>, idle: int, p: RawEvent -> bool)
    requires forall e :: e in batch && p(e) ==> !e.kind.IsHumanSignal()
    ensures HumanTime(Filter(batch, p), idle) == 0
  {
    SignalsAgree(batch, ProjectOf, p, (x: RawEvent) => false);
    FilterNone(batch, (x: RawEvent) => false);
  }

  lemma {:induction false} QuietDayLosesNothing(batch: seq<RawEvent>, idle: int, day: string)
    requires forall e :: e in batch && DayText(e.at) == day ==> !e.kind.IsHumanSignal()
    ensures DayLoss(batch, idle, day) == 0
  {
    hide HumanTime;
    var own := Where(SessionTimes(batch, HUMAN, idle), DayOf, day);
    forall k | k in own ensures own[k] == 0 { NoSignalNoTime(batch, idle, HasKey(k)); }
    SumMapZero(own);
    NoSignalNoTime(batch, idle, OnDay(day));
  }

  lemma {:induction false} OneSignallerLosesNothing(batch: seq<RawEvent>, idle: int, e: RawEvent)
    requires OneSignallerADay(batch) && e in batch && e.kind.IsHumanSignal()
    ensures DayLoss(batch, idle, DayText(e.at)) == 0
  {
    hide HumanTime;
    var day := DayText(e.at);
    var own, all := Where(SessionTimes(batch, HUMAN, idle), DayOf, day), map[KeyOf(e) := HumanTime(Filter(batch, OnDay(day)), idle)];
    forall k | k in own || k in all ensures Get(own, k) == Get(all, k) {
      OwnTimeOnDay(batch, idle, e, k);
      assert KeyOf(e) in KeysOf(batch);
    }
    SumMapExtensional(own, all);
    SumMapSingle(all, KeyOf(e));
  }

  lemma {:induction false} OneSignallerNoLosses(batch: seq<RawEvent>, idle: int)
    requires OneSignallerADay(batch)
    ensures SumMap(DayLosses(batch, idle)) == 0
  {
    hide DayLoss;
    forall d | d in DaysOf(batch) ensures DayLoss(batch, idle, d) == 0 {
      if e :| e in batch && DayText(e.at) == d && e.kind.IsHumanSignal() {
        OneSignallerLosesNothing(batch, idle, e);
      } else {
        QuietDayLosesNothing(batch, idle, d);
      }
    }
    SumMapZero(DayLosses(batch, idle));
  }

  lemma {:induction false} NoTimeIff<K>(gaps: seq<Gap<K>>)
    requires forall g :: g in gaps ==> g.start <= g.end
    ensures SumSeconds(gaps) >= 0
    ensures SumSeconds(gaps) == 0 <==> forall g :: g in gaps ==> g.Seconds() == 0
  {
    if gaps != [] {
      var t, l := gaps[..|gaps| - 1], gaps[|gaps| - 1];
      assert gaps == t + [l];
      NoTimeIff(t);
    }
  }

  /**
   Where each compacted day had one signalling session, a pass takes exactly the counted gaps that leave a
   compacted day: nothing at all if and only if none of them was worth a whole second.
   */
  lemma {:induction false} OnlyMidnightGapsAreLost(db: Db, cursor: string, cutoff: int, idle: int)
    requires AllInRange(db.events) && OneSignallerADay(Batch(db.events, cursor, cutoff))
    ensures var gaps := LeavingGaps(db.events, cursor, cutoff, idle);
            && ReportLoss(db, cursor, cutoff, idle) == SumSeconds(gaps)
            && (ReportLoss(db, cursor, cutoff, idle) == 0 <==> forall g :: g in gaps ==> g.Seconds() == 0)
  {
    hide ReportLoss;
    var gaps := LeavingGaps(db.events, cursor, cutoff, idle);
    PassChangesTimeBy(db, cursor, cutoff, idle);
    OneSignallerNoLosses(Batch(db.events, cursor, cutoff), idle);
    forall g | g in gaps ensures g.start <= g.end {
      FilterMember(GapsOf(RealSignals(db.events), idle), LeavesCompactedDay(Bound(db.events, cursor, cutoff)), g);
      GapEndsAreTimes(RealSignals(db.events), idle, g);
    }
    NoTimeIff(gaps);
  }
}
