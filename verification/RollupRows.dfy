/** What a rollup row says about its day: the accounting of that session's day on its own. */
module RollupRows {
  import opened Prelude
  import opened Timeline
  import opened TextOrder
  import opened Accounting
  import opened Calendar
  import opened StoredAt
  import opened Events
  import Report
  import opened TokenTable
  import opened EventStore
  import opened CompactionDays
  import opened CompactionRuns

  /** The times of agent activity. */
  function ActivityTimes(events: seq<RawEvent>): seq<Stamped<()>> {
    if events == [] then []
    else
      var r, e := ActivityTimes(events[..|events| - 1]), events[|events| - 1];
      if e.kind.IsAgentActivity() then r + [Stamped(e.at, ())] else r
  }

  function HasKey(k: Key): RawEvent -> bool {
    (e: RawEvent) => KeyOf(e) == k
  }

  function StampedActive(x: Stamped<RawEvent>): bool {
    x.tag.kind.IsAgentActivity()
  }

  ghost predicate Faithful(s: seq<Stamped<RawEvent>>) {
    forall i :: 0 <= i < |s| ==> s[i].at == s[i].tag.at
  }

  lemma {:induction false} ByTimeIsFaithful(events: seq<RawEvent>)
    ensures Faithful(ByTime(events))
  {
    var s := ByTime(events);
    forall i | 0 <= i < |s| ensures s[i].at == s[i].tag.at {
      SortMember(Timed(events), s[i]);
      assert s[i] in s;
    }
  }

  const NothingOf: RawEvent -> () := (e: RawEvent) => ()

  lemma {:induction false} UntimedSignals<K>(s: seq<Stamped<RawEvent>>, key: RawEvent -> K)
    requires Faithful(s)
    ensures SignalsBy(Untimed(s), key) == Retag(Filter(s, StampedHuman), key)
  {
    if s != [] {
      var t, x := s[..|s| - 1], s[|s| - 1];
      UntimedSignals(t, key);
      assert Untimed(s) == Untimed(t) + [x.tag];
    }
  }

  /** Reading the log in time order sorts its signals. */
  lemma {:induction false} SignalsInOrder<K>(events: seq<RawEvent>, key: RawEvent -> K)
    ensures SignalsBy(Untimed(ByTime(events)), key) == SortByTime(SignalsBy(events, key))
  {
    ByTimeIsFaithful(events);
    UntimedSignals(ByTime(events), key);
    UntimedSignals(Timed(events), key);
    assert Untimed(Timed(events)) == events;
    SortFilter(Timed(events), StampedHuman);
    SortRetag(Filter(Timed(events), StampedHuman), key);
  }

  lemma {:induction false} AccInParts(s: seq<Stamped<RawEvent>>)
    requires Faithful(s)
    ensures AccOf(s).signals == Retag(Filter(s, StampedHuman), ProjectOf)
    ensures AccOf(s).activity == Retag(Filter(s, StampedActive), NothingOf)
  {
    if s != [] {
      var t, x := s[..|s| - 1], s[|s| - 1];
      AccInParts(t);
    }
  }

  lemma {:induction false} TimedInParts(events: seq<RawEvent>)
    ensures Retag(Filter(Timed(events), StampedHuman), ProjectOf) == Report.ProjectSignals(events)
    ensures Retag(Filter(Timed(events), StampedActive), NothingOf) == ActivityTimes(events)
  {
    if events != [] {
      var t, e := events[..|events| - 1], events[|events| - 1];
      TimedInParts(t);
      assert Timed(events)[..|events| - 1] == Timed(t);
    }
  }

  /** A batch read in time order accumulates its signals and activity in time order. */
  lemma {:induction false} AccIsSorted(events: seq<RawEvent>)
    ensures AccOf(ByTime(events)).signals == SortByTime(Report.ProjectSignals(events))
    ensures AccOf(ByTime(events)).activity == SortByTime(ActivityTimes(events))
  {
    ByTimeIsFaithful(events);
    AccInParts(ByTime(events));
    TimedInParts(events);
    SortFilter(Timed(events), StampedHuman);
    SortFilter(Timed(events), StampedActive);
    SortRetag(Filter(Timed(events), StampedHuman), ProjectOf);
    SortRetag(Filter(Timed(events), StampedActive), NothingOf);
  }

  lemma {:induction false} TimedSnoc(t: seq<RawEvent>, e: RawEvent)
    ensures Timed(t + [e]) == Timed(t) + [Stamped(e.at, e)]
  {
  }

  lemma {:induction false} TimedSelect(events: seq<RawEvent>, p: RawEvent -> bool, q: Stamped<RawEvent> -> bool)
    requires forall e: RawEvent :: q(Stamped(e.at, e)) <==> p(e)
    ensures Filter(Timed(events), q) == Timed(Filter(events, p))
  {
    if events != [] {
      var t, e := events[..|events| - 1], events[|events| - 1];
      TimedSelect(t, p, q);
      TimedSnoc(t, e);
      TimedSnoc(Filter(t, p), e);
      assert events == t + [e];
      FilterSnoc(Timed(t), Stamped(e.at, e), q);
    }
  }

  lemma {:induction false} UntimedSelect(s: seq<Stamped<RawEvent>>, p: RawEvent -> bool, q: Stamped<RawEvent> -> bool)
    requires forall x: Stamped<RawEvent> :: q(x) <==> p(x.tag)
    ensures Filter(Untimed(s), p) == Untimed(Filter(s, q))
  {
    if s != [] {
      var t, x := s[..|s| - 1], s[|s| - 1];
      UntimedSelect(t, p, q);
      assert s == t + [x] && Untimed(s) == Untimed(t) + [x.tag];
      FilterSnoc(Untimed(t), x.tag, p);
      assert Untimed(Filter(t, q) + [x]) == Untimed(Filter(t, q)) + [x.tag];
    }
  }

  /** Selecting from the log read in time order is reading the selection in time order. */
  lemma {:induction false} SelectInOrder(events: seq<RawEvent>, p: RawEvent -> bool)
    ensures Filter(Untimed(ByTime(events)), p) == Untimed(ByTime(Filter(events, p)))
  {
    var q := (x: Stamped<RawEvent>) => p(x.tag);
    UntimedSelect(ByTime(events), p, q);
    SortFilter(Timed(events), q);
    TimedSelect(events, p, q);
  }

  /** The group of a key is that key's events, in time order. */
  lemma {:induction false} GroupIsKeyEvents(events: seq<RawEvent>, k: Key)
    ensures GroupOf(ByTime(events), k) == ByTime(Filter(events, HasKey(k)))
  {
    SortFilter(Timed(events), InGroup(k));
    TimedSelect(events, HasKey(k), InGroup(k));
  }

  /** Every row of a batch is the accounting of its key's events on their own. */
  lemma {:induction false} RowIsIsolated(events: seq<RawEvent>, k: Key, tokens: seq<TokenRow>, idle: int)
    ensures var mine := Filter(events, HasKey(k));
            var acc := AccAt(Groups(ByTime(events)), k);
            && RowOf(acc, k, tokens, idle).human == TotalHumanSeconds(Report.ProjectSignals(mine), idle)
            && RowOf(acc, k, tokens, idle).active == ActiveSeconds(ActivityTimes(mine), idle)
            && acc.prompts == |Report.ProjectSignals(mine)|
            && (acc.Idle() <==> Report.ProjectSignals(mine) == [] && ActivityTimes(mine) == [])
  {
    var mine := Filter(events, HasKey(k));
    AccAtGroup(ByTime(events), k);
    GroupIsKeyEvents(events, k);
    AccIsSorted(mine);
    PromptsAreSignals(ByTime(mine));
    SortTwice(Report.ProjectSignals(mine));
    SortTwice(ActivityTimes(mine));
  }

  /** The project of the earliest event that has one. */
  ghost predicate IsFirstProject(s: seq<Stamped<RawEvent>>, p: Option<string>) {
    if p.None? then forall i :: 0 <= i < |s| ==> s[i].tag.project.None?
    else exists i :: 0 <= i < |s| && s[i].tag.project == p && forall j :: 0 <= j < i ==> s[j].tag.project.None?
  }

  lemma {:induction false} AccProjectIsFirst(s: seq<Stamped<RawEvent>>)
    ensures IsFirstProject(s, AccOf(s).project)
  {
    if s != [] {
      var t, n := s[..|s| - 1], |s| - 1;
      AccProjectIsFirst(t);
      var p := AccOf(t).project;
      if p.Some? {
        var i :| 0 <= i < |t| && t[i].tag.project == p && forall j :: 0 <= j < i ==> t[j].tag.project.None?;
        assert s[i].tag.project == p && forall j :: 0 <= j < i ==> s[j] == t[j];
      } else {
        assert forall j :: 0 <= j < n ==> s[j] == t[j];
      }
    }
  }

  /** A known project is never overwritten; a fresh row takes the first one its group knows, in time order. */
  lemma {:induction false} RowProject(rollup: Rollup, events: seq<RawEvent>, tokens: seq<TokenRow>, idle: int, k: Key)
    requires k in Rolled(rollup, Groups(ByTime(events)), tokens, idle)
    ensures var p := Rolled(rollup, Groups(ByTime(events)), tokens, idle)[k].project;
            if k in rollup && rollup[k].project.Some? then p == rollup[k].project
            else IsFirstProject(ByTime(Filter(events, HasKey(k))), p) || (k in rollup && p == rollup[k].project)
  {
    AccAtGroup(ByTime(events), k);
    GroupIsKeyEvents(events, k);
    AccProjectIsFirst(ByTime(Filter(events, HasKey(k))));
  }

  // ---- days that are never both rolled and raw ----------------------------------------------

  /** No UTC day has both a rollup row and a billable raw event. */
  ghost predicate NoDayInBoth(db: Db) {
    forall k, e :: k in db.rollup && e in db.events && !IsProbe(e.session) ==> DayText(e.at) != k.day
  }

  /** The event's day has been compacted already, for whichever session. */
  ghost predicate DayIsRolled(rollup: Rollup, day: string) {
    exists k :: k in rollup && k.day == day
  }

  lemma {:induction false} DayTextIsDay(t: int, u: int)
    requires InRange(t) && InRange(u)
    ensures DayText(t) == DayText(u) <==> t / DAY == u / DAY
    ensures |DayText(t)| == 10
  {
    DateTextOrder(DateOf(t / DAY), DateOf(u / DAY));
  }

  /** A token row stored in canonical text falls on the day an event of that instant falls on. */
  lemma {:induction false} TokenDayIsEventDay(t: Instant)
    ensures DayOfText(Text(t)) == DayText(t)
  {
    hide DateOf;
    DayTextIsDay(t, t);
  }

  ghost predicate AllInRange(events: seq<RawEvent>) {
    forall e :: e in events ==> InRange(e.at)
  }

  lemma {:induction false} EligibleIsBefore(events: seq<RawEvent>, cursor: string, cutoff: int, e: RawEvent)
    requires e in events && !IsProbe(e.session)
    ensures var bound := Bound(events, cursor, cutoff);
            Eligible(cursor, bound)(e) <==> e.at < bound
  {
    BoundIsAligned(events, cursor, cutoff);
    LexTrichotomy(e.id, cursor);
  }

  /** If any event of a key is eligible, all of them are. */
  lemma {:induction false} KeyGoesWhole(events: seq<RawEvent>, cursor: string, cutoff: int, f: RawEvent, e: RawEvent)
    requires AllInRange(events) && f in events && e in events
    requires Eligible(cursor, Bound(events, cursor, cutoff))(f)
    requires DayText(e.at) == DayText(f.at) && !IsProbe(e.session)
    ensures Eligible(cursor, Bound(events, cursor, cutoff))(e)
  {
    var bound := Bound(events, cursor, cutoff);
    DayTextIsDay(e.at, f.at);
    BoundIsAligned(events, cursor, cutoff);
    MidnightBelow(e.at, bound);
    MidnightBelow(f.at, bound);
    EligibleIsBefore(events, cursor, cutoff, e);
  }

  lemma {:induction false} GroupHasEvent(events: seq<RawEvent>, k: Key)
    ensures k in Groups(ByTime(events)) <==> exists e :: e in events && KeyOf(e) == k
  {
    NoGroup(ByTime(events), k);
    GroupIsKeyEvents(events, k);
    var mine := Filter(events, HasKey(k));
    if mine != [] {
      FilterMember(events, HasKey(k), mine[0]);
    }
    if e :| e in events && KeyOf(e) == k {
      FilterMember(events, HasKey(k), e);
    }
  }

  /** A pass keeps rolled days and raw days apart. */
  lemma {:induction false} CompactKeepsDaysApart(db: Db, cursor: Option<string>, cutoff: int, idle: int)
    requires NoDayInBoth(db) && AllInRange(db.events)
    ensures NoDayInBoth(Compacted(db, cursor, cutoff, idle))
  {
    var after := Compacted(db, cursor, cutoff, idle);
    if after != db {
      var c, bound := cursor.value, Bound(db.events, cursor.value, cutoff);
      var batch := Filter(db.events, Eligible(c, bound));
      forall k, e | k in after.rollup && e in after.events && !IsProbe(e.session) ensures DayText(e.at) != k.day {
        FilterMember(db.events, Kept(c, bound), e);
        if k !in db.rollup {
          GroupHasEvent(batch, k);
          var f :| f in batch && KeyOf(f) == k;
          FilterMember(db.events, Eligible(c, bound), f);
          if DayText(e.at) == k.day { KeyGoesWhole(db.events, c, cutoff, f, e); }
        }
      }
    }
  }

}
