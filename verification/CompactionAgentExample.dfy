/** One session's day through a pass: the live rule before it, the row rule after it. */
module CompactionAgentExample {
  import opened Prelude
  import opened Timeline
  import opened MapSums
  import opened TextOrder
  import opened Accounting
  import opened AgentTime
  import opened StoredAt
  import opened Events
  import Report
  import opened EventStore
  import opened CompactionDays
  import opened RollupRows
  import opened StoreReport
  import opened CompactionTime
  import opened CompactionAgent

  /** One real session's events of one UTC day, synced and older than the cutoff's day. */
  ghost predicate IsOldDay(log: seq<RawEvent>, e: RawEvent, cursor: string, cutoff: int) {
    && e in log && !IsProbe(e.session) && InRange(e.at)
    && forall x :: x in log ==>
         && x.session == e.session && InRange(x.at) && x.at / DAY == e.at / DAY
         && LexLeq(x.id, cursor) && x.at < Midnight(cutoff)
  }

  lemma {:induction false} DayIsSwept(log: seq<RawEvent>, e: RawEvent, cursor: string, cutoff: int)
    requires IsOldDay(log, e, cursor, cutoff)
    ensures Batch(log, cursor, cutoff) == log == Filter(log, IsReal) && StillLive(log, cursor, cutoff) == []
  {
    var bound := Bound(log, cursor, cutoff);
    BoundIsAligned(log, cursor, cutoff);
    forall x | x in log ensures !HoldsBack(x, cursor) { LexTrichotomy(x.id, cursor); }
    assert bound == Midnight(cutoff);
    FilterAll(log, Eligible(cursor, bound));
    FilterAll(log, IsReal);
    FilterNone(log, Kept(cursor, bound));
  }

  lemma {:induction false} DayLive(log: seq<RawEvent>, e: RawEvent, cursor: string, cutoff: int, policy: AgentPolicy)
    requires IsOldDay(log, e, cursor, cutoff)
    ensures SumMap(SessionCredits(log, policy)) == if HasActivity(log) then AgentActiveSeconds(Samples(log), policy) else 0
  {
    hide AgentActiveSeconds;
    hide Samples;
    hide HasActivity;
    var credits := SessionCredits(log, policy);
    forall x ensures x in Report.SessionIds(log) <==> x == e.session { SessionOfAnEvent(log, x); }
    FilterAll(log, OfSession(e.session));
    SumMapSingle(credits, e.session);
  }

  lemma {:induction false} DayRows(log: seq<RawEvent>, e: RawEvent, cursor: string, cutoff: int, idle: int)
    requires IsOldDay(log, e, cursor, cutoff)
    ensures SumMap(SessionTimes(log, AGENT, idle)) == ActiveSeconds(ActivityTimes(log), idle)
  {
    var k, rows := KeyOf(e), SessionTimes(log, AGENT, idle);
    forall x | x in log ensures KeyOf(x) == k { DayTextIsDay(x.at, e.at); }
    assert KeysOf(log) == {k};
    FilterAll(log, HasKey(k));
    SumMapSingle(rows, k);
  }

  /** A pass turns the live credit of the day into the active time of its agent activity alone. */
  lemma {:induction false} PassOverDay(log: seq<RawEvent>, e: RawEvent, cursor: string, cutoff: int, idle: int,
                                       policy: AgentPolicy)
    requires IsOldDay(log, e, cursor, cutoff)
    ensures var db := EMPTY.(events := log);
            && ReportedAgent(db, None, policy) == (if HasActivity(log) then AgentActiveSeconds(Samples(log), policy) else 0)
            && ReportedAgent(Compacted(db, Some(cursor), cutoff, idle), None, policy) == ActiveSeconds(ActivityTimes(log), idle)
  {
    hide ReportedAgent;
    hide Compacted;
    hide AgentActiveSeconds;
    hide ActiveSeconds;
    hide SessionTimes;
    hide HasActivity;
    var db := EMPTY.(events := log);
    DayIsSwept(log, e, cursor, cutoff);
    AgentOfAll(db, policy);
    AgentLossInParts(db, cursor, cutoff, idle, policy);
    DayLive(log, e, cursor, cutoff, policy);
    DayRows(log, e, cursor, cutoff, idle);
    NothingLeft(policy);
  }

  lemma {:induction false} NothingLeft(policy: AgentPolicy)
    ensures SumMap(SessionCredits([], policy)) == 0 == SumMap(RowTimes(map[], AGENT))
  {
    SumMapZero(SessionCredits([], policy));
    SumMapZero(RowTimes(map[], AGENT));
  }

  // ---- three such days ---------------------------------------------------------------------

  lemma {:induction false} PairSamples(e: RawEvent, f: RawEvent, policy: AgentPolicy)
    requires e.at < f.at
    ensures AgentActiveSeconds(Samples([e, f]), policy) == AgentGapSeconds(f.at - e.at, OPENS(e), policy)
  {
    var s := [Stamped(e.at, OPENS(e))];
    assert Samples([e, f]) == s + [Stamped(f.at, OPENS(f))];
    SortOfSorted(Samples([e, f]));
    AgentSnoc(s, Stamped(f.at, OPENS(f)), policy);
    assert AgentActiveOf(s, policy) == 0;
  }

  lemma {:induction false} PairActivity(e: RawEvent, f: RawEvent, idle: int)
    requires e.kind.IsAgentActivity() && f.kind.IsAgentActivity() && e.at < f.at
    ensures ActiveSeconds(ActivityTimes([e, f]), idle) == Credit(f.at - e.at, idle)
  {
    var s, t := [Stamped(e.at, ())], [Stamped(e.at, ()), Stamped(f.at, ())];
    assert [e, f][..1] == [e] && [e][..0] == [];
    assert ActivityTimes([e]) == s;
    assert ActivityTimes([e, f]) == t == s + [Stamped(f.at, ())];
    SortOfSorted(t);
    ActiveSnoc(s, Stamped(f.at, ()), idle);
    assert ActiveOf(s, idle) == 0;
  }

  lemma {:induction false} PassOverPair(e: RawEvent, f: RawEvent, cursor: string, cutoff: int, idle: int,
                                        policy: AgentPolicy)
    requires IsOldDay([e, f], e, cursor, cutoff) && e.at < f.at && e.kind.IsAgentActivity() && f.kind.IsAgentActivity()
    ensures var db := EMPTY.(events := [e, f]);
            && ReportedAgent(db, None, policy) == AgentGapSeconds(f.at - e.at, OPENS(e), policy)
            && ReportedAgent(Compacted(db, Some(cursor), cutoff, idle), None, policy) == Credit(f.at - e.at, idle)
  {
    hide ReportedAgent;
    hide Compacted;
    assert [e, f][0] == e;
    PassOverDay([e, f], e, cursor, cutoff, idle, policy);
    PairSamples(e, f, policy);
    PairActivity(e, f, idle);
  }

  /** A two-hour tool call, credited in full while live, is worth nothing in its row. */
  lemma {:induction false} ToolCallsAreLost(e: RawEvent, f: RawEvent, cursor: string, cutoff: int)
    requires IsOldDay([e, f], e, cursor, cutoff) && e.kind == PreTool && f.kind == PostTool && f.at - e.at == 7200 * NANOS
    ensures var db, policy := EMPTY.(events := [e, f]), ConfiguredPolicy(300, 28800);
            && ReportedAgent(db, None, policy) == 7200
            && ReportedAgent(Compacted(db, Some(cursor), cutoff, 300 * NANOS), None, policy) == 0
  {
    PassOverPair(e, f, cursor, cutoff, 300 * NANOS, ConfiguredPolicy(300, 28800));
    hide ReportedAgent;
    hide Compacted;
  }

  /** With an agent idle narrower than the human one a pass can add: a minute becomes 500 seconds. */
  lemma {:induction false} CompactionCanAddAgentTime(e: RawEvent, f: RawEvent, cursor: string, cutoff: int)
    requires IsOldDay([e, f], e, cursor, cutoff) && e.kind == Stop == f.kind && f.at - e.at == 500 * NANOS
    ensures var db, policy := EMPTY.(events := [e, f]), ConfiguredPolicy(60, 28800);
            && ReportedAgent(db, None, policy) == 60
            && ReportedAgent(Compacted(db, Some(cursor), cutoff, 600 * NANOS), None, policy) == 500
  {
    PassOverPair(e, f, cursor, cutoff, 600 * NANOS, ConfiguredPolicy(60, 28800));
    hide ReportedAgent;
    hide Compacted;
  }

  lemma {:induction false} ThreeSamples(e: RawEvent, g: RawEvent, f: RawEvent, policy: AgentPolicy)
    requires e.at < g.at < f.at
    ensures AgentActiveSeconds(Samples([e, g, f]), policy) ==
            AgentGapSeconds(g.at - e.at, OPENS(e), policy) + AgentGapSeconds(f.at - g.at, OPENS(g), policy)
  {
    hide AgentGapSeconds;
    var s, l := Samples([e, g]), Stamped(f.at, OPENS(f));
    assert Samples([e, g, f]) == s + [l];
    SortOfSorted(s);
    SortOfSorted(s + [l]);
    PairSamples(e, g, policy);
    AgentSnoc(s, l, policy);
    hide AgentActiveOf;
    hide SortByTime;
  }

  lemma {:induction false} PromptIsNoActivity(e: RawEvent, g: RawEvent, f: RawEvent)
    requires !g.kind.IsAgentActivity()
    ensures ActivityTimes([e, g, f]) == ActivityTimes([e, f])
  {
    assert [e, g, f][..2] == [e, g] && [e, g][..1] == [e] == [e, f][..1];
  }

  lemma {:induction false} HalfSeconds(e: RawEvent, g: RawEvent, f: RawEvent)
    requires e.kind == Stop == f.kind && g.kind == UserPrompt && g.at - e.at == NANOS / 2 == f.at - g.at
    ensures AgentActiveSeconds(Samples([e, g, f]), ConfiguredPolicy(300, 28800)) == 0
    ensures ActiveSeconds(ActivityTimes([e, g, f]), 300 * NANOS) == 1
  {
    ThreeSamples(e, g, f, ConfiguredPolicy(300, 28800));
    PromptIsNoActivity(e, g, f);
    PairActivity(e, f, 300 * NANOS);
    hide AgentActiveSeconds;
    hide ActiveSeconds;
    hide ActivityTimes;
    hide Samples;
  }

  /** With fractional times it can add whatever the ceilings: a prompt in the middle hid the second the row counts. */
  lemma {:induction false} FractionsCanAddAgentTime(e: RawEvent, g: RawEvent, f: RawEvent, cursor: string, cutoff: int)
    requires IsOldDay([e, g, f], e, cursor, cutoff) && e.kind == Stop == f.kind && g.kind == UserPrompt
    requires g.at - e.at == NANOS / 2 == f.at - g.at
    ensures var db, policy := EMPTY.(events := [e, g, f]), ConfiguredPolicy(300, 28800);
            && ReportedAgent(db, None, policy) == 0
            && ReportedAgent(Compacted(db, Some(cursor), cutoff, 300 * NANOS), None, policy) == 1
  {
    hide ReportedAgent;
    hide Compacted;
    hide AgentActiveSeconds;
    hide ActiveSeconds;
    hide Samples;
    hide ActivityTimes;
    assert [e, g, f][0] == e;
    PassOverDay([e, g, f], e, cursor, cutoff, 300 * NANOS, ConfiguredPolicy(300, 28800));
    HalfSeconds(e, g, f);
  }
}
