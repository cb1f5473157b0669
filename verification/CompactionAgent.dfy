/** What a compaction pass does to the agent time a full report shows, for any log. */
module CompactionAgent {
  import opened Prelude
  import opened Timeline
  import opened MapSums
  import opened Accounting
  import opened AgentTime
  import opened StoredAt
  import opened Events
  import Report
  import opened EventStore
  import opened RollupRows
  import opened StoreReport
  import opened Cells
  import opened CompactionTime

  // ---- the live rule, session by session ---------------------------------------------------

  function OfSession(session: string): RawEvent -> bool {
    (e: RawEvent) => e.session == session
  }

  predicate HasActivity(events: seq<RawEvent>) {
    exists i :: 0 <= i < |events| && events[i].kind.IsAgentActivity()
  }

  const OPENS: RawEvent -> bool := (e: RawEvent) => e.kind.OpensAgentSpan()

  /** A session's timeline: every event is a sample. */
  function Samples(events: seq<RawEvent>): (r: seq<Stamped<bool>>)
    ensures |r| == |events|
  {
    Retag(Timed(events), OPENS)
  }

  /** What the live report credits to a session: nothing without agent activity. */
  function SessionCredit(live: seq<RawEvent>, session: string, policy: AgentPolicy): int {
    var mine := Filter(live, OfSession(session));
    if HasActivity(mine) then AgentActiveSeconds(Samples(mine), policy) else 0
  }

  function SessionCredits(live: seq<RawEvent>, policy: AgentPolicy): map<string, int> {
    map s | s in Report.SessionIds(live) :: SessionCredit(live, s, policy)
  }

  lemma {:induction false} SamplesSnoc(t: seq<RawEvent>, e: RawEvent)
    ensures Samples(t + [e]) == Samples(t) + [Stamped(e.at, OPENS(e))]
  {
    TimedSnoc(t, e);
  }

  lemma {:induction false} AccIsSamples(events: seq<RawEvent>)
    ensures Report.AccOf(events).samples == Samples(events)
    ensures Report.AccOf(events).active <==> HasActivity(events)
  {
    if events != [] {
      var t, e := events[..|events| - 1], events[|events| - 1];
      AccIsSamples(t);
      assert events == t + [e];
      SamplesSnoc(t, e);
      ActivitySnoc(t, e);
    }
  }

  lemma {:induction false} ActivitySnoc(t: seq<RawEvent>, e: RawEvent)
    ensures HasActivity(t + [e]) <==> HasActivity(t) || e.kind.IsAgentActivity()
  {
    var s := t + [e];
    assert s[|t|] == e;
    assert forall i :: 0 <= i < |t| ==> s[i] == t[i];
  }

  lemma {:induction false} ActivityIsAnEvents(events: seq<RawEvent>)
    ensures HasActivity(events) <==> exists e :: e in events && e.kind.IsAgentActivity()
  {
    if HasActivity(events) {
      var i :| 0 <= i < |events| && events[i].kind.IsAgentActivity();
      assert events[i] in events;
    }
  }

  /** A session's events are read in time order. */
  lemma {:induction false} SessionInOrder(live: seq<RawEvent>, session: string)
    ensures Report.EventsOf(Untimed(ByTime(live)), session) == Untimed(ByTime(Filter(live, OfSession(session))))
  {
    SelectInOrder(live, OfSession(session));
    FilterAgree(Untimed(ByTime(live)), OfSession(session), (e: RawEvent) => e.session == session);
  }

  lemma {:induction false} InOrderSameCredit(events: seq<RawEvent>, policy: AgentPolicy)
    ensures AgentActiveSeconds(Samples(Untimed(ByTime(events))), policy) == AgentActiveSeconds(Samples(events), policy)
    ensures HasActivity(Untimed(ByTime(events))) <==> HasActivity(events)
  {
    var s := ByTime(events);
    ByTimeIsFaithful(events);
    assert Timed(Untimed(s)) == s;
    SortRetag(Timed(events), OPENS);
    SortTwice(Samples(events));
    ActivityIsAnEvents(Untimed(s));
    ActivityIsAnEvents(events);
    forall e ensures e in Untimed(s) <==> e in events { InOrderSameEvents(events, e); }
  }

  lemma {:induction false} BankIsCredit(live: seq<RawEvent>, policy: AgentPolicy, session: string)
    ensures Get(Report.Credits(Report.BanksOf(Untimed(ByTime(live)), policy)), session) ==
            Get(SessionCredits(live, policy), session)
  {
    InOrderSameSessions(live);
    SessionInOrder(live, session);
    var mine := Filter(live, OfSession(session));
    AccIsSamples(Untimed(ByTime(mine)));
    InOrderSameCredit(mine, policy);
    hide AgentActiveSeconds;
    hide HasActivity;
    hide Samples;
    hide ByTime;
  }

  /** The report's agent total is what its sessions are credited. */
  lemma {:induction false} AgentTotalIsCredits(live: seq<RawEvent>, policy: AgentPolicy)
    ensures Report.AgentTotal(Untimed(ByTime(live)), policy) == SumMap(SessionCredits(live, policy))
  {
    var banked, credits := Report.Credits(Report.BanksOf(Untimed(ByTime(live)), policy)), SessionCredits(live, policy);
    forall s | s in banked || s in credits ensures Get(banked, s) == Get(credits, s) { BankIsCredit(live, policy, s); }
    SumMapExtensional(banked, credits);
  }

  // ---- what a session loses ----------------------------------------------------------------

  function From<T>(bound: int): Stamped<T> -> bool {
    (x: Stamped<T>) => x.at >= bound
  }

  function Until<T>(bound: int): Stamped<T> -> bool {
    (x: Stamped<T>) => x.at < bound
  }

  function AtOrAfter(bound: int): RawEvent -> bool {
    (e: RawEvent) => e.at >= bound
  }

  function Earlier(bound: int): RawEvent -> bool {
    (e: RawEvent) => e.at < bound
  }

  /** The credit of the gaps of a sorted timeline that are opened before `bound`. */
  function OpenedBefore(s: seq<Stamped<bool>>, policy: AgentPolicy, bound: int): int {
    if |s| < 2 then 0
    else
      var a, b := s[|s| - 2], s[|s| - 1];
      OpenedBefore(s[..|s| - 1], policy, bound) +
      if a.at < bound then AgentGapSeconds(b.at - a.at, a.tag, policy) else 0
  }

  lemma {:induction false} OpenedSnoc(t: seq<Stamped<bool>>, l: Stamped<bool>, policy: AgentPolicy, bound: int)
    requires t != []
    ensures var a := t[|t| - 1];
            OpenedBefore(t + [l], policy, bound) ==
            OpenedBefore(t, policy, bound) + if a.at < bound then AgentGapSeconds(l.at - a.at, a.tag, policy) else 0
  {
    assert (t + [l])[..|t|] == t;
  }

  lemma {:induction false} SortedPrefix<T>(t: seq<Stamped<T>>, l: Stamped<T>)
    requires Sorted(t + [l])
    ensures Sorted(t) && forall x :: x in t ==> x.at <= l.at
    ensures t != [] ==> forall x :: x in t ==> x.at <= t[|t| - 1].at
  {
    var s := t + [l];
    forall i, j | 0 <= i < j < |t| ensures t[i].at <= t[j].at { assert s[i] == t[i] && s[j] == t[j]; }
    forall x | x in t ensures x.at <= l.at {
      var i :| 0 <= i < |t| && t[i] == x;
      assert s[i] == x && s[|t|] == l;
    }
  }

  /** The part from `bound` on is credited as before; the rest is opened before it. */
  lemma {:induction false} LiveSplits(s: seq<Stamped<bool>>, policy: AgentPolicy, bound: int)
    requires Sorted(s)
    ensures AgentActiveOf(s, policy) == OpenedBefore(s, policy, bound) + AgentActiveOf(Filter(s, From(bound)), policy)
  {
    if |s| >= 2 {
      var t, l := s[..|s| - 1], s[|s| - 1];
      assert s == t + [l];
      SortedPrefix(t, l);
      LiveSplits(t, policy, bound);
      LiveSplitsSnoc(t, l, policy, bound);
    } else {
      assert |Filter(s, From(bound))| < 2;
    }
  }

  lemma {:induction false} KeptSnoc(t: seq<Stamped<bool>>, l: Stamped<bool>, policy: AgentPolicy, bound: int)
    requires t != [] && Sorted(t + [l])
    ensures var p, kept := t[|t| - 1], Filter(t, From(bound));
            AgentActiveOf(Filter(t + [l], From(bound)), policy) == AgentActiveOf(kept, policy) +
            if p.at >= bound then AgentGapSeconds(l.at - p.at, p.tag, policy) else 0
  {
    hide AgentGapSeconds;
    SortedPrefix(t, l);
    hide Sorted;
    FilterSnoc(t, l, From(bound));
    var kept, p := Filter(t, From(bound)), t[|t| - 1];
    if p.at < bound {
      FilterNone(t, From(bound));
      assert [] + [l] == [l];
    } else {
      assert kept[|kept| - 1] == p;
      AgentSnoc(kept, l, policy);
    }
  }

  lemma {:induction false} LiveSplitsSnoc(t: seq<Stamped<bool>>, l: Stamped<bool>, policy: AgentPolicy, bound: int)
    requires t != [] && Sorted(t + [l])
    requires AgentActiveOf(t, policy) == OpenedBefore(t, policy, bound) + AgentActiveOf(Filter(t, From(bound)), policy)
    ensures AgentActiveOf(t + [l], policy) ==
            OpenedBefore(t + [l], policy, bound) + AgentActiveOf(Filter(t + [l], From(bound)), policy)
  {
    hide *;
    AgentSnoc(t, l, policy);
    OpenedSnoc(t, l, policy, bound);
    KeptSnoc(t, l, policy, bound);
  }

  /** The part before `bound` on its own never earns more than the gaps it opens. */
  lemma {:induction false} EarlierEarnsNoMore(s: seq<Stamped<bool>>, policy: AgentPolicy, bound: int)
    requires Sorted(s) && policy.Sane()
    ensures 0 <= AgentActiveOf(Filter(s, Until(bound)), policy) <= OpenedBefore(s, policy, bound)
  {
    if |s| >= 2 {
      var t, l := s[..|s| - 1], s[|s| - 1];
      assert s == t + [l];
      SortedPrefix(t, l);
      EarlierEarnsNoMore(t, policy, bound);
      EarlierEarnsSnoc(t, l, policy, bound);
    } else {
      assert |Filter(s, Until(bound))| < 2;
    }
  }

  lemma {:induction false} GapIsNotNegative(gap: int, opens: bool, policy: AgentPolicy)
    requires policy.Sane()
    ensures AgentGapSeconds(gap, opens, policy) >= 0
  {
  }

  lemma {:induction false} EarlierEarnsSnoc(t: seq<Stamped<bool>>, l: Stamped<bool>, policy: AgentPolicy, bound: int)
    requires t != [] && Sorted(t + [l]) && policy.Sane()
    requires 0 <= AgentActiveOf(Filter(t, Until(bound)), policy) <= OpenedBefore(t, policy, bound)
    ensures 0 <= AgentActiveOf(Filter(t + [l], Until(bound)), policy) <= OpenedBefore(t + [l], policy, bound)
  {
    hide AgentGapSeconds;
    var p := t[|t| - 1];
    SortedPrefix(t, l);
    OpenedSnoc(t, l, policy, bound);
    FilterSnoc(t, l, Until(bound));
    GapIsNotNegative(l.at - p.at, p.tag, policy);
    if l.at < bound {
      forall x | x in t ensures x.at < bound {}
      FilterAll(t, Until(bound));
      AgentSnoc(t, l, policy);
    }
    hide AgentActiveOf;
    hide OpenedBefore;
  }

  /**
   What the live report loses of a session: the credit of the gaps opened before the bound, and, when what it
   keeps shows no agent activity any more, the credit of the rest.
   */
  function LiveLoss(live: seq<RawEvent>, session: string, policy: AgentPolicy, bound: int): int {
    var mine := Filter(live, OfSession(session));
    var kept := Filter(mine, AtOrAfter(bound));
    if !HasActivity(mine) then 0
    else
      OpenedBefore(SortByTime(Samples(mine)), policy, bound) +
      if HasActivity(kept) then 0 else AgentActiveSeconds(Samples(kept), policy)
  }

  lemma {:induction false} SamplesSelect(events: seq<RawEvent>, p: RawEvent -> bool, q: Stamped<bool> -> bool)
    requires forall e: RawEvent :: q(Stamped(e.at, OPENS(e))) <==> p(e)
    ensures Filter(Samples(events), q) == Samples(Filter(events, p))
  {
    if events != [] {
      var t, e := events[..|events| - 1], events[|events| - 1];
      SamplesSelect(t, p, q);
      assert events == t + [e];
      SamplesSnoc(t, e);
      SamplesSnoc(Filter(t, p), e);
      FilterSnoc(Samples(t), Stamped(e.at, OPENS(e)), q);
      hide Samples;
    }
  }

  lemma {:induction false} CreditSplits(mine: seq<RawEvent>, policy: AgentPolicy, bound: int)
    ensures AgentActiveSeconds(Samples(mine), policy) ==
            OpenedBefore(SortByTime(Samples(mine)), policy, bound) + AgentActiveSeconds(Samples(Filter(mine, AtOrAfter(bound))), policy)
  {
    var s := Samples(mine);
    SortSorted(s);
    LiveSplits(SortByTime(s), policy, bound);
    SortFilter(s, From(bound));
    SamplesSelect(mine, AtOrAfter(bound), From(bound));
  }

  lemma {:induction false} KeptOfSession(events: seq<RawEvent>, cursor: string, cutoff: int, session: string)
    ensures var live, bound := Filter(events, IsReal), Bound(events, cursor, cutoff);
            Filter(StillLive(events, cursor, cutoff), OfSession(session)) ==
            Filter(Filter(live, OfSession(session)), AtOrAfter(bound))
  {
    var bound := Bound(events, cursor, cutoff);
    var stays := (e: RawEvent) => IsReal(e) && Kept(cursor, bound)(e);
    var mine := (e: RawEvent) => IsReal(e) && e.session == session;
    var both := (e: RawEvent) => mine(e) && e.at >= bound;
    forall e | e in events ensures (stays(e) && OfSession(session)(e)) <==> both(e) {
      if IsReal(e) {
        EligibleIsBefore(events, cursor, cutoff, e);
        assert Kept(cursor, bound)(e) <==> !Eligible(cursor, bound)(e);
      }
    }
    FilterFilter(events, Kept(cursor, bound), IsReal, stays);
    FilterFilter(events, stays, OfSession(session), both);
    FilterFilter(events, IsReal, OfSession(session), mine);
    FilterFilter(events, mine, AtOrAfter(bound), both);
  }

  lemma {:induction false} CreditChanges(events: seq<RawEvent>, cursor: string, cutoff: int, session: string,
                                         policy: AgentPolicy)
    ensures var live := Filter(events, IsReal);
            SessionCredit(live, session, policy) - SessionCredit(StillLive(events, cursor, cutoff), session, policy) ==
            LiveLoss(live, session, policy, Bound(events, cursor, cutoff))
  {
    var live, bound := Filter(events, IsReal), Bound(events, cursor, cutoff);
    var mine := Filter(live, OfSession(session));
    KeptOfSession(events, cursor, cutoff, session);
    CreditSplits(mine, policy, bound);
    KeptActivity(mine, bound);
    hide AgentActiveSeconds;
    hide OpenedBefore;
    hide Samples;
    hide HasActivity;
  }

  lemma {:induction false} KeptActivity(mine: seq<RawEvent>, bound: int)
    ensures HasActivity(Filter(mine, AtOrAfter(bound))) ==> HasActivity(mine)
  {
    ActivityIsAnEvents(mine);
    ActivityIsAnEvents(Filter(mine, AtOrAfter(bound)));
    forall e | e in Filter(mine, AtOrAfter(bound)) ensures e in mine { FilterMember(mine, AtOrAfter(bound), e); }
  }

  // ---- the exact change --------------------------------------------------------------------

  const SessionOf: Key -> string := (k: Key) => k.session

  /** What a session's rows gain: each of its compacted days by the row rule. */
  ghost function RowGain(batch: seq<RawEvent>, idle: int, session: string): int {
    SumMap(Where(SessionTimes(batch, AGENT, idle), SessionOf, session))
  }

  ghost function AgentLoss(events: seq<RawEvent>, cursor: string, cutoff: int, idle: int, policy: AgentPolicy,
                           session: string): int {
    LiveLoss(Filter(events, IsReal), session, policy, Bound(events, cursor, cutoff)) -
    RowGain(Batch(events, cursor, cutoff), idle, session)
  }

  ghost function AgentLosses(events: seq<RawEvent>, cursor: string, cutoff: int, idle: int,
                             policy: AgentPolicy): map<string, int> {
    map s | s in Report.SessionIds(Filter(events, IsReal)) :: AgentLoss(events, cursor, cutoff, idle, policy, s)
  }

  ghost function AgentReportLoss(db: Db, cursor: string, cutoff: int, idle: int, policy: AgentPolicy): int {
    ReportedAgent(db, None, policy) - ReportedAgent(Compacted(db, Some(cursor), cutoff, idle), None, policy)
  }

  lemma {:induction false} AgentOfAll(db: Db, policy: AgentPolicy)
    ensures ReportedAgent(db, None, policy) ==
            SumMap(SessionCredits(Filter(db.events, IsReal), policy)) + SumMap(RowTimes(db.rollup, AGENT))
  {
    hide SessionCredits;
    FilterAgree(db.events, Listed(None), IsReal);
    assert RowsSince(db.rollup, None) == db.rollup;
    AgentTotalIsCredits(Filter(db.events, IsReal), policy);
  }

  lemma {:induction false} SessionsOfBatch(events: seq<RawEvent>, cursor: string, cutoff: int, e: RawEvent)
    requires e in Batch(events, cursor, cutoff)
    ensures e.session in Report.SessionIds(Filter(events, IsReal))
  {
    FilterMember(events, Eligible(cursor, Bound(events, cursor, cutoff)), e);
    FilterMember(events, IsReal, e);
    SessionOfAnEvent(Filter(events, IsReal), e.session);
  }

  lemma {:induction false} GainsAddUp(events: seq<RawEvent>, cursor: string, cutoff: int, idle: int)
    ensures var batch := Batch(events, cursor, cutoff);
            SumMap(map s | s in Report.SessionIds(Filter(events, IsReal)) :: RowGain(batch, idle, s)) ==
            SumMap(SessionTimes(batch, AGENT, idle))
  {
    hide RowTime;
    hide Batch;
    var batch, rows := Batch(events, cursor, cutoff), SessionTimes(Batch(events, cursor, cutoff), AGENT, idle);
    var gains := map s | s in Report.SessionIds(Filter(events, IsReal)) :: RowGain(batch, idle, s);
    forall s ensures Get(gains, s) == SumMap(Where(rows, SessionOf, s)) {
      if s !in gains {
        forall e | e in batch ensures e.session != s { SessionsOfBatch(events, cursor, cutoff, e); }
        assert Where(rows, SessionOf, s) == map[];
      }
    }
    SumByGroup(rows, SessionOf, gains);
  }

  lemma {:induction false} GoneHasNoCredit(events: seq<RawEvent>, policy: AgentPolicy, session: string)
    requires session !in Report.SessionIds(events)
    ensures SessionCredit(events, session, policy) == 0
  {
    forall e | e in events ensures !OfSession(session)(e) { SessionOfAnEvent(events, session); }
    FilterNone(events, OfSession(session));
  }

  lemma {:induction false} CreditsChange(events: seq<RawEvent>, cursor: string, cutoff: int, policy: AgentPolicy)
    ensures var live := Filter(events, IsReal);
            SumMap(SessionCredits(live, policy)) - SumMap(SessionCredits(StillLive(events, cursor, cutoff), policy)) ==
            SumMap(map s | s in Report.SessionIds(live) :: LiveLoss(live, s, policy, Bound(events, cursor, cutoff)))
  {
    hide SessionCredit;
    hide LiveLoss;
    hide StillLive;
    var live, still := Filter(events, IsReal), StillLive(events, cursor, cutoff);
    var lost := map s | s in Report.SessionIds(live) :: LiveLoss(live, s, policy, Bound(events, cursor, cutoff));
    forall s ensures Get(SessionCredits(live, policy), s) == Get(SessionCredits(still, policy), s) + Get(lost, s) {
      CreditChanges(events, cursor, cutoff, s, policy);
      if s !in Report.SessionIds(still) { GoneHasNoCredit(still, policy, s); }
      if s !in Report.SessionIds(live) { StillWasLive(events, cursor, cutoff, s); }
    }
    SumMapSplit(SessionCredits(live, policy), SessionCredits(still, policy), lost);
  }

  lemma {:induction false} StillWasLive(events: seq<RawEvent>, cursor: string, cutoff: int, session: string)
    ensures session in Report.SessionIds(StillLive(events, cursor, cutoff)) ==> session in Report.SessionIds(Filter(events, IsReal))
  {
    var kept := Kept(cursor, Bound(events, cursor, cutoff));
    var still := StillLive(events, cursor, cutoff);
    SessionOfAnEvent(still, session);
    SessionOfAnEvent(Filter(events, IsReal), session);
    if e :| e in still && e.session == session {
      FilterMember(Filter(events, kept), IsReal, e);
      FilterMember(events, kept, e);
      FilterMember(events, IsReal, e);
    }
  }

  /**
   What a pass takes from the reported agent time of any log: for each session what its live timeline loses,
   less what its rows gain.
   */
  lemma {:induction false} PassChangesAgentTimeBy(db: Db, cursor: string, cutoff: int, idle: int, policy: AgentPolicy)
    ensures AgentReportLoss(db, cursor, cutoff, idle, policy) == SumMap(AgentLosses(db.events, cursor, cutoff, idle, policy))
  {
    AgentLossInParts(db, cursor, cutoff, idle, policy);
    LossesInParts(db.events, cursor, cutoff, idle, policy);
    CreditsChange(db.events, cursor, cutoff, policy);
    GainsAddUp(db.events, cursor, cutoff, idle);
    hide *;
  }

  lemma {:induction false} AgentLossInParts(db: Db, cursor: string, cutoff: int, idle: int, policy: AgentPolicy)
    ensures AgentReportLoss(db, cursor, cutoff, idle, policy) ==
            SumMap(SessionCredits(Filter(db.events, IsReal), policy)) -
            SumMap(SessionCredits(StillLive(db.events, cursor, cutoff), policy)) -
            SumMap(SessionTimes(Batch(db.events, cursor, cutoff), AGENT, idle))
  {
    hide ReportedAgent;
    hide SessionCredits;
    hide SessionTimes;
    hide RowTimes;
    hide Compacted;
    AgentOfAll(db, policy);
    AgentOfAll(Compacted(db, Some(cursor), cutoff, idle), policy);
    AfterPass(db, cursor, cutoff, idle);
    RowsGain(db.rollup, Batch(db.events, cursor, cutoff), db.tokens, AGENT, idle);
  }

  lemma {:induction false} LossesInParts(events: seq<RawEvent>, cursor: string, cutoff: int, idle: int,
                                         policy: AgentPolicy)
    ensures var live, batch := Filter(events, IsReal), Batch(events, cursor, cutoff);
            SumMap(AgentLosses(events, cursor, cutoff, idle, policy)) ==
            SumMap(map s | s in Report.SessionIds(live) :: LiveLoss(live, s, policy, Bound(events, cursor, cutoff))) -
            SumMap(map s | s in Report.SessionIds(live) :: RowGain(batch, idle, s))
  {
    hide LiveLoss;
    hide RowGain;
    hide Batch;
    var live, batch := Filter(events, IsReal), Batch(events, cursor, cutoff);
    var lost := map s | s in Report.SessionIds(live) :: LiveLoss(live, s, policy, Bound(events, cursor, cutoff));
    var gained := map s | s in Report.SessionIds(live) :: RowGain(batch, idle, s);
    var losses := AgentLosses(events, cursor, cutoff, idle, policy);
    forall s ensures Get(lost, s) == Get(losses, s) + Get(gained, s) {}
    SumMapSplit(lost, losses, gained);
  }

  // ---- with whole seconds and a wide enough agent idle, time only goes ----------------------

  lemma {:induction false} CreditGrows(delta: int, idle: int, wider: int)
    requires idle <= wider
    ensures 0 <= Credit(delta, idle) <= Credit(delta, wider)
  {
  }

  lemma {:induction false} ActiveGrows(s: seq<Stamped<()>>, idle: int, wider: int)
    requires idle <= wider
    ensures ActiveOf(s, idle) <= ActiveOf(s, wider)
  {
    if |s| >= 2 {
      ActiveGrows(s[..|s| - 1], idle, wider);
      CreditGrows(s[|s| - 1].at - s[|s| - 2].at, idle, wider);
    }
  }

  ghost predicate WholeSecondsOnly(events: seq<RawEvent>) {
    forall e :: e in events ==> e.at % NANOS == 0
  }

  /** The times of the events that are no agent activity. */
  function OtherTimes(events: seq<RawEvent>): seq<Stamped<()>> {
    if events == [] then []
    else
      var r, e := OtherTimes(events[..|events| - 1]), events[|events| - 1];
      if e.kind.IsAgentActivity() then r else r + [Stamped(e.at, ())]
  }

  lemma {:induction false} TimesInParts(events: seq<RawEvent>)
    ensures multiset(Untag(Samples(events))) == multiset(ActivityTimes(events)) + multiset(OtherTimes(events))
  {
    if events != [] {
      var t, e := events[..|events| - 1], events[|events| - 1];
      TimesInParts(t);
      assert events == t + [e];
      SamplesSnoc(t, e);
      UntagSnoc(Samples(t), Stamped(e.at, OPENS(e)));
      hide Samples;
      hide Untag;
    }
  }

  lemma {:induction false} TimesAreEvents(events: seq<RawEvent>, x: Stamped<()>)
    requires x in ActivityTimes(events) || x in OtherTimes(events)
    ensures exists e :: e in events && e.at == x.at
  {
    var t, e := events[..|events| - 1], events[|events| - 1];
    assert events == t + [e];
    if x in ActivityTimes(t) || x in OtherTimes(t) {
      TimesAreEvents(t, x);
      var f :| f in t && f.at == x.at;
      assert f in events;
    } else {
      assert e in events && e.at == x.at;
    }
  }

  lemma {:induction false} MoreTimesMore(times: seq<Stamped<()>>, others: seq<Stamped<()>>, idle: int)
    requires forall x :: x in times + others ==> x.at % NANOS == 0
    ensures ActiveSeconds(times, idle) <= ActiveSeconds(times + others, idle)
  {
    if others == [] {
      assert times + others == times;
    } else {
      var t, l := others[..|others| - 1], others[|others| - 1];
      assert others == t + [l];
      Regroup(times, t, [l]);
      assert times + others == (times + t) + [l];
      forall x: Stamped<()> | x in times + t ensures x.at % NANOS == 0 { assert x in times + others; }
      assert l in times + others && l.tag == ();
      MoreTimesMore(times, t, idle);
      WholeSecondTimesOnlyAddActive(times + t, l.at, idle);
    }
  }

  lemma {:induction false} SameTimesSameActive(a: seq<Stamped<()>>, b: seq<Stamped<()>>, idle: int)
    requires multiset(a) == multiset(b)
    ensures ActiveSeconds(a, idle) == ActiveSeconds(b, idle)
  {
    SortedTimesIgnoreOrder(a, b);
    NothingToUntag(SortByTime(a));
    NothingToUntag(SortByTime(b));
  }

  lemma {:induction false} NothingToUntag(s: seq<Stamped<()>>)
    ensures Untag(s) == s
  {
    forall i | 0 <= i < |s| ensures Untag(s)[i] == s[i] { assert s[i].tag == (); }
  }

  /** With whole seconds, agent activity alone never counts for more than the live rule credits. */
  lemma {:induction false} ActivityEarnsNoMore(events: seq<RawEvent>, idle: int, policy: AgentPolicy)
    requires WholeSecondsOnly(events) && policy.Sane() && idle <= policy.idle
    ensures ActiveSeconds(ActivityTimes(events), idle) <= AgentActiveSeconds(Samples(events), policy)
  {
    var a, o, all := ActivityTimes(events), OtherTimes(events), Untag(Samples(events));
    ActiveGrows(SortByTime(a), idle, policy.idle);
    forall x: Stamped<()> | x in a + o ensures x.at % NANOS == 0 {
      TimesAreEvents(events, x);
    }
    MoreTimesMore(a, o, policy.idle);
    TimesInParts(events);
    SameTimesSameActive(a + o, all, policy.idle);
    LiveIsAtLeastActive(Samples(events), policy);
  }

  lemma {:induction false} LiveIsAtLeastActive(samples: seq<Stamped<bool>>, policy: AgentPolicy)
    requires policy.Sane()
    ensures 0 <= ActiveSeconds(Untag(samples), policy.idle) <= AgentActiveSeconds(samples, policy)
  {
    SortUntag(samples);
    SortSorted(samples);
    ActiveIsNotNegative(Untag(SortByTime(samples)), policy.idle);
    if samples != [] { AgentTimeIsBounded(SortByTime(samples), policy); }
  }

  lemma {:induction false} ActiveIsNotNegative(s: seq<Stamped<()>>, idle: int)
    ensures ActiveOf(s, idle) >= 0
  {
    if |s| >= 2 {
      ActiveIsNotNegative(s[..|s| - 1], idle);
      CreditGrows(s[|s| - 1].at - s[|s| - 2].at, idle, idle);
    }
  }

  // ---- a session's rows together -----------------------------------------------------------

  function DayKey(session: string): int -> Key {
    (t: int) => Key(DayText(t), session)
  }

  lemma {:induction false} DaysAreStretches(s: seq<Stamped<()>>, session: string)
    requires Sorted(s) && TimesInRange(s)
    ensures IsStretches(s, DayKey(session))
  {
    hide DayKey;
    forall i, j, n | 0 <= i <= j <= n < |s| && DayKey(session)(s[i].at) == DayKey(session)(s[n].at)
      ensures DayKey(session)(s[j].at) == DayKey(session)(s[i].at)
    {
      assert s[i] in s && s[j] in s && s[n] in s;
      DayKeysBetween(session, s[i].at, s[j].at, s[n].at);
    }
  }

  lemma {:induction false} DayKeysBetween(session: string, t: int, u: int, v: int)
    requires InRange(t) && InRange(u) && InRange(v) && t <= u <= v && DayKey(session)(t) == DayKey(session)(v)
    ensures DayKey(session)(u) == DayKey(session)(t)
  {
    hide DayText;
    DayTextIsDay(t, v);
    DayTextIsDay(t, u);
    DaysBetween(t, u, v);
  }

  lemma {:induction false} ActivityOfFilter(events: seq<RawEvent>, p: RawEvent -> bool, q: Stamped<()> -> bool)
    requires forall e :: e in events ==> (p(e) <==> q(Stamped(e.at, ())))
    ensures ActivityTimes(Filter(events, p)) == Filter(ActivityTimes(events), q)
  {
    if events != [] {
      var t, e := events[..|events| - 1], events[|events| - 1];
      assert e in events;
      ActivityOfFilter(t, p, q);
      FilterSnoc(ActivityTimes(t), Stamped(e.at, ()), q);
    }
  }

  lemma {:induction false} SortedActive(times: seq<Stamped<()>>, idle: int)
    ensures SumSeconds(GapsOf(SortByTime(times), idle)) == ActiveSeconds(times, idle)
  {
    GapSumIsActive(SortByTime(times), idle);
    NothingToUntag(SortByTime(times));
  }

  /** One key's row time, as a cell of the session's activity. */
  lemma {:induction false} KeyIsCell(swept: seq<RawEvent>, session: string, idle: int, k: Key)
    requires AllInRange(swept) && forall e :: e in swept ==> e.session == session
    ensures Get(PerKey(InnerGaps(SortByTime(ActivityTimes(swept)), DayKey(session), idle)), k) ==
            RowTime(Filter(swept, HasKey(k)), AGENT, idle)
  {
    var times := ActivityTimes(swept);
    var s := SortByTime(times);
    SortSorted(times);
    forall x | x in s ensures InRange(x.at) {
      SortMember(times, x);
      TimesAreEvents(swept, x);
    }
    DaysAreStretches(s, session);
    CellTime(s, DayKey(session), idle, k);
    SortFilter(times, InCell(DayKey(session), k));
    ActivityOfFilter(swept, HasKey(k), InCell(DayKey(session), k));
    SortedActive(ActivityTimes(Filter(swept, HasKey(k))), idle);
  }

  lemma {:induction false} GapsAreNotNegative<K>(gaps: seq<Gap<K>>)
    requires forall g :: g in gaps ==> g.start <= g.end
    ensures SumSeconds(gaps) >= 0
  {
    NoTimeIff(gaps);
  }

  lemma {:induction false} InnerIsNoMore(s: seq<Stamped<()>>, session: string, idle: int)
    ensures SumSeconds(InnerGaps(s, DayKey(session), idle)) <= SumSeconds(GapsOf(s, idle))
  {
    var cell := DayKey(session);
    InnerAndCrossing(s, cell, idle);
    forall g | g in Filter(GapsOf(s, idle), Crosses(cell)) ensures g.start <= g.end {
      FilterMember(GapsOf(s, idle), Crosses(cell), g);
      GapEndsAreTimes(s, idle, g);
    }
    GapsAreNotNegative(Filter(GapsOf(s, idle), Crosses(cell)));
  }

  /** The session's part of the batch. */
  function Swept(events: seq<RawEvent>, cursor: string, cutoff: int, session: string): seq<RawEvent> {
    Filter(Filter(Filter(events, IsReal), OfSession(session)), Earlier(Bound(events, cursor, cutoff)))
  }

  lemma {:induction false} SweptOfSession(events: seq<RawEvent>, cursor: string, cutoff: int, session: string, k: Key)
    requires k.session == session
    ensures Filter(Swept(events, cursor, cutoff, session), HasKey(k)) == Filter(Batch(events, cursor, cutoff), HasKey(k))
  {
    var bound := Bound(events, cursor, cutoff);
    var mine := (e: RawEvent) => IsReal(e) && e.session == session;
    var early := (e: RawEvent) => mine(e) && e.at < bound;
    var both := (e: RawEvent) => early(e) && HasKey(k)(e);
    forall e | e in events ensures both(e) <==> Eligible(cursor, bound)(e) && HasKey(k)(e) {
      if IsReal(e) { EligibleIsBefore(events, cursor, cutoff, e); }
    }
    FilterFilter(events, IsReal, OfSession(session), mine);
    FilterFilter(events, mine, Earlier(bound), early);
    FilterFilter(events, early, HasKey(k), both);
    FilterFilter(events, Eligible(cursor, bound), HasKey(k), both);
  }

  lemma {:induction false} SweptMember(events: seq<RawEvent>, cursor: string, cutoff: int, session: string, e: RawEvent)
    requires e in Swept(events, cursor, cutoff, session)
    ensures e in events && e.session == session
  {
    FilterMember(Filter(Filter(events, IsReal), OfSession(session)), Earlier(Bound(events, cursor, cutoff)), e);
    FilterMember(Filter(events, IsReal), OfSession(session), e);
    FilterMember(events, IsReal, e);
  }

  /** A session's rows gain no more than its activity, taken as one timeline, is worth. */
  lemma {:induction false} RowsGainNoMore(events: seq<RawEvent>, cursor: string, cutoff: int, idle: int,
                                          session: string)
    requires AllInRange(events)
    ensures RowGain(Batch(events, cursor, cutoff), idle, session) <=
            ActiveSeconds(ActivityTimes(Swept(events, cursor, cutoff, session)), idle)
  {
    hide RowTime;
    hide Batch;
    hide Swept;
    var batch, swept := Batch(events, cursor, cutoff), Swept(events, cursor, cutoff, session);
    var s := SortByTime(ActivityTimes(swept));
    var inner := InnerGaps(s, DayKey(session), idle);
    var rows := Where(SessionTimes(batch, AGENT, idle), SessionOf, session);
    forall k | k in rows || k in PerKey(inner) ensures Get(rows, k) == Get(PerKey(inner), k) {
      RowIsCell(events, cursor, cutoff, idle, session, k);
    }
    SumMapExtensional(rows, PerKey(inner));
    PerKeySumsToTotal(inner);
    InnerIsNoMore(s, session, idle);
    SortedActive(ActivityTimes(swept), idle);
  }

  lemma {:induction false} RowIsCell(events: seq<RawEvent>, cursor: string, cutoff: int, idle: int,
                                     session: string, k: Key)
    requires AllInRange(events)
    ensures Get(Where(SessionTimes(Batch(events, cursor, cutoff), AGENT, idle), SessionOf, session), k) ==
            Get(PerKey(InnerGaps(SortByTime(ActivityTimes(Swept(events, cursor, cutoff, session))), DayKey(session), idle)), k)
  {
    var batch, swept := Batch(events, cursor, cutoff), Swept(events, cursor, cutoff, session);
    forall e | e in swept ensures e.session == session && InRange(e.at) { SweptMember(events, cursor, cutoff, session, e); }
    KeyIsCell(swept, session, idle, k);
    if k.session == session {
      SweptOfSession(events, cursor, cutoff, session, k);
      if k !in KeysOf(batch) { NoSuchKey(batch, AGENT, idle, k); }
    } else {
      FilterNone(swept, HasKey(k));
      assert ActiveSeconds([], idle) == 0;
    }
  }

  ghost predicate WideAgentIdle(idle: int, policy: AgentPolicy) {
    policy.Sane() && idle <= policy.idle
  }

  lemma {:induction false} SamplesBefore(mine: seq<RawEvent>, policy: AgentPolicy, bound: int)
    requires policy.Sane()
    ensures AgentActiveSeconds(Samples(Filter(mine, Earlier(bound))), policy) <=
            OpenedBefore(SortByTime(Samples(mine)), policy, bound)
  {
    var s := Samples(mine);
    SortSorted(s);
    EarlierEarnsNoMore(SortByTime(s), policy, bound);
    SortFilter(s, Until(bound));
    SamplesSelect(mine, Earlier(bound), Until(bound));
  }

  lemma {:induction false} NoActivityNoTimes(events: seq<RawEvent>)
    requires !HasActivity(events)
    ensures ActivityTimes(events) == []
  {
    if events != [] {
      var t, e := events[..|events| - 1], events[|events| - 1];
      assert events == t + [e];
      ActivitySnoc(t, e);
      NoActivityNoTimes(t);
    }
  }

  lemma {:induction false} SweptActivity(events: seq<RawEvent>, cursor: string, cutoff: int, session: string)
    requires !HasActivity(Filter(Filter(events, IsReal), OfSession(session)))
    ensures ActivityTimes(Swept(events, cursor, cutoff, session)) == []
  {
    var mine := Filter(Filter(events, IsReal), OfSession(session));
    var swept := Swept(events, cursor, cutoff, session);
    ActivityIsAnEvents(mine);
    ActivityIsAnEvents(swept);
    forall e | e in swept ensures e in mine { FilterMember(mine, Earlier(Bound(events, cursor, cutoff)), e); }
    NoActivityNoTimes(swept);
  }

  /** No session's rows gain more than its live timeline loses. */
  lemma {:induction false} NoSessionGains(events: seq<RawEvent>, cursor: string, cutoff: int, idle: int,
                                          policy: AgentPolicy, session: string)
    requires AllInRange(events) && WholeSecondsOnly(events) && WideAgentIdle(idle, policy)
    ensures AgentLoss(events, cursor, cutoff, idle, policy, session) >= 0
  {
    hide RowGain;
    hide Batch;
    hide ActivityTimes;
    hide Samples;
    hide HasActivity;
    hide OpenedBefore;
    var bound := Bound(events, cursor, cutoff);
    var mine := Filter(Filter(events, IsReal), OfSession(session));
    var swept, kept := Swept(events, cursor, cutoff, session), Filter(mine, AtOrAfter(bound));
    RowsGainNoMore(events, cursor, cutoff, idle, session);
    if HasActivity(mine) {
      forall e | e in swept ensures e.at % NANOS == 0 { SweptMember(events, cursor, cutoff, session, e); }
      ActivityEarnsNoMore(swept, idle, policy);
      SamplesBefore(mine, policy, bound);
      LiveIsAtLeastActive(Samples(kept), policy);
      hide AgentActiveSeconds;
      hide ActiveSeconds;
    } else {
      SweptActivity(events, cursor, cutoff, session);
      assert ActiveSeconds([], idle) == 0;
    }
  }

  lemma {:induction false} ZeroIffAllZero<K>(m: map<K, int>)
    requires forall k :: k in m ==> m[k] >= 0
    ensures SumMap(m) >= 0
    ensures SumMap(m) == 0 <==> forall k :: k in m ==> m[k] == 0
    decreases |m|
  {
    if m != map[] {
      var k :| k in m;
      var rest := m - {k};
      SumMapRemove(m, k);
      ZeroIffAllZero(rest);
      assert forall j :: j in m ==> j == k || (j in rest && rest[j] == m[j]);
    }
  }

  /**
   With whole-second times and an agent idle no narrower than the human one, a pass never raises the
   reported agent time, and leaves it alone if and only if every session's rows gain all it loses.
   */
  lemma {:induction false} WholeSecondPassOnlyLowers(db: Db, cursor: string, cutoff: int, idle: int,
                                                     policy: AgentPolicy)
    requires AllInRange(db.events) && WholeSecondsOnly(db.events) && WideAgentIdle(idle, policy)
    ensures var losses := AgentLosses(db.events, cursor, cutoff, idle, policy);
            && AgentReportLoss(db, cursor, cutoff, idle, policy) >= 0
            && (AgentReportLoss(db, cursor, cutoff, idle, policy) == 0 <==> forall s :: s in losses ==> losses[s] == 0)
  {
    hide AgentLoss;
    hide AgentReportLoss;
    var losses := AgentLosses(db.events, cursor, cutoff, idle, policy);
    forall s | s in losses ensures losses[s] >= 0 { NoSessionGains(db.events, cursor, cutoff, idle, policy, s); }
    ZeroIffAllZero(losses);
    PassChangesAgentTimeBy(db, cursor, cutoff, idle, policy);
  }
}
