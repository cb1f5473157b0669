/** Compaction removes whole UTC days, never an unsynced event, and settles in one pass. */
module CompactionDays {
  import opened Prelude
  import opened TextOrder
  import opened StoredAt
  import opened Events
  import opened EventStore

  /** The reserved sessions are those named `dira-probe-` and anything, in letters of either case. */
  lemma {:induction false} ProbeIff(session: string)
    ensures IsProbe(session) <==> "dira-probe-" <= Apply(LowerAscii, session)
  {
  }

  lemma {:induction false} MidnightBelow(t: int, m: int)
    requires Midnight(m) == m
    ensures m <= t <==> m <= Midnight(t)
    ensures Midnight(Midnight(t)) == Midnight(t)
  {
    assert t == t / DAY * DAY + t % DAY;
  }

  /** The bound is a midnight, no later than the cutoff's, and no later than any held-back day. */
  lemma {:induction false} BoundIsAligned(events: seq<RawEvent>, cursor: string, cutoff: int)
    ensures var b := Bound(events, cursor, cutoff);
            && Midnight(b) == b <= Midnight(cutoff)
            && (forall e :: e in events && LexLess(cursor, e.id) && !IsProbe(e.session) ==> b <= e.at)
            && (b == Midnight(cutoff) || exists e :: e in events && LexLess(cursor, e.id) && !IsProbe(e.session) && b == Midnight(e.at))
  {
    MidnightBelow(cutoff, Midnight(0));
    if events != [] {
      var t, l := events[..|events| - 1], events[|events| - 1];
      BoundIsAligned(t, cursor, cutoff);
      assert events == t + [l];
      assert Midnight(l.at) <= l.at;
      MidnightBelow(l.at, Midnight(0));
    }
  }

  lemma {:induction false} BoundAfterFilter(events: seq<RawEvent>, cursor: string, cutoff: int, p: RawEvent -> bool)
    requires forall e :: e in events && HoldsBack(e, cursor) ==> p(e)
    ensures Bound(Filter(events, p), cursor, cutoff) == Bound(events, cursor, cutoff)
  {
    if events != [] {
      var t, l := events[..|events| - 1], events[|events| - 1];
      assert l in events;
      BoundAfterFilter(t, cursor, cutoff, p);
    }
  }

  /** What a pass leaves in the log, event by event. */
  lemma {:induction false} SurvivesIff(db: Db, cursor: string, cutoff: int, idle: int, e: RawEvent)
    requires e in db.events
    ensures var bound := Bound(db.events, cursor, cutoff);
            var after := Compacted(db, Some(cursor), cutoff, idle);
            && (!IsProbe(e.session) ==> (e in after.events <==> bound <= e.at))
            && (LexLess(cursor, e.id) ==> e in after.events)
  {
    var bound := Bound(db.events, cursor, cutoff);
    BoundIsAligned(db.events, cursor, cutoff);
    LexTrichotomy(e.id, cursor);
    FilterMember(db.events, Kept(cursor, bound), e);
    FilterMember(db.events, Eligible(cursor, bound), e);
  }

  /** Un-synced data is never pruned: what leaves the log is at or behind a cursor, and old. */
  lemma {:induction false} OnlySyncedLeave(db: Db, cursor: Option<string>, cutoff: int, idle: int, e: RawEvent)
    requires e in db.events && e !in Compacted(db, cursor, cutoff, idle).events
    ensures cursor.Some? && LexLeq(e.id, cursor.value) && e.at < Midnight(cutoff)
  {
    if cursor.Some? {
      BoundIsAligned(db.events, cursor.value, cutoff);
      FilterMember(db.events, Kept(cursor.value, Bound(db.events, cursor.value, cutoff)), e);
    }
  }

  /** Compaction works in whole days: of one UTC day everything billable goes or everything stays. */
  lemma {:induction false} NoDayIsSplit(db: Db, cursor: string, cutoff: int, idle: int, e: RawEvent, f: RawEvent)
    requires e in db.events && f in db.events && !IsProbe(e.session) && !IsProbe(f.session)
    requires e.at / DAY == f.at / DAY
    ensures var after := Compacted(db, Some(cursor), cutoff, idle);
            e in after.events <==> f in after.events
  {
    SurvivesIff(db, cursor, cutoff, idle, e);
    SurvivesIff(db, cursor, cutoff, idle, f);
    BoundIsAligned(db.events, cursor, cutoff);
    var b := Bound(db.events, cursor, cutoff);
    MidnightBelow(e.at, b);
    MidnightBelow(f.at, b);
  }

  /** Nothing is invented, and the survivors keep their order. */
  lemma {:induction false} SurvivorsAreOld(db: Db, cursor: Option<string>, cutoff: int, idle: int, e: RawEvent)
    requires e in Compacted(db, cursor, cutoff, idle).events
    ensures e in db.events
  {
    if cursor.Some? {
      FilterMember(db.events, Kept(cursor.value, Bound(db.events, cursor.value, cutoff)), e);
    }
  }

  /** The same call again changes nothing. */
  lemma {:induction false} SecondPassDoesNothing(db: Db, cursor: Option<string>, cutoff: int, idle: int)
    ensures var once := Compacted(db, cursor, cutoff, idle);
            Compacted(once, cursor, cutoff, idle) == once
  {
    var once := Compacted(db, cursor, cutoff, idle);
    if once != db {
      var c, bound := cursor.value, Bound(db.events, cursor.value, cutoff);
      BoundIsAligned(db.events, c, cutoff);
      assert once.events == Filter(db.events, Kept(c, bound));
      BoundAfterFilter(db.events, c, cutoff, Kept(c, bound));
      forall e | e in once.events ensures !Eligible(c, bound)(e) {
        FilterMember(db.events, Kept(c, bound), e);
      }
      FilterNone(once.events, Eligible(c, bound));
    }
  }

  /** Reserved probe rows go only together with something billable: alone they stay. */
  lemma {:induction false} ProbeRowsGoAlong(db: Db, cursor: string, cutoff: int, idle: int, e: RawEvent)
    requires e in db.events && IsProbe(e.session)
    ensures var bound := Bound(db.events, cursor, cutoff);
            e !in Compacted(db, Some(cursor), cutoff, idle).events <==>
            && LexLeq(e.id, cursor) && e.at < bound
            && exists f :: f in db.events && !IsProbe(f.session) && LexLeq(f.id, cursor) && f.at < bound
  {
    var bound := Bound(db.events, cursor, cutoff);
    FilterMember(db.events, Kept(cursor, bound), e);
    var eligible := Filter(db.events, Eligible(cursor, bound));
    if eligible != [] {
      FilterMember(db.events, Eligible(cursor, bound), eligible[0]);
    } else {
      forall f | f in db.events ensures !Eligible(cursor, bound)(f) {
        FilterMember(db.events, Eligible(cursor, bound), f);
      }
    }
  }
}
