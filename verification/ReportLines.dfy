/** Which line of a report each counted second falls on, and which line each session's agent time. */
module ReportLines {
  import opened Prelude
  import opened Timeline
  import opened MapSums
  import opened TextOrder
  import opened Accounting
  import opened AgentTime
  import opened Events
  import opened Lineage
  import opened Report
  import CompactionAgent

  // ---- human time --------------------------------------------------------------------------

  /** The counted gaps of a log, each with the project and session of the signal that opens it. */
  function OpenedGaps(events: seq<RawEvent>, idle: int): seq<Gap<Opener>> {
    GapsOf(SortByTime(SignalsBy(events, OpenerOf)), idle)
  }

  function Rekeyed<K, L>(gaps: seq<Gap<K>>, f: K -> L): seq<Gap<L>> {
    Apply((g: Gap<K>) => Gap(g.start, g.end, f(g.key)), gaps)
  }

  lemma {:induction false} GapsOfRekeyed<K, L>(s: seq<Stamped<K>>, f: K -> L, idle: int)
    ensures GapsOf(Retag(s, f), idle) == Rekeyed(GapsOf(s, idle), f)
  {
    if |s| >= 2 {
      var t := s[..|s| - 1];
      GapsOfRekeyed(t, f, idle);
      assert Retag(s, f)[..|s| - 1] == Retag(t, f);
    }
  }

  lemma {:induction false} RekeyedShare<K, L>(gaps: seq<Gap<K>>, f: K -> L, k: L, mine: Gap<K> -> bool)
    requires forall g :: g in gaps ==> (mine(g) <==> f(g.key) == k)
    ensures Get(PerKey(Rekeyed(gaps, f)), k) == SumSeconds(Filter(gaps, mine))
    ensures k in PerKey(Rekeyed(gaps, f)) <==> Filter(gaps, mine) != []
  {
    if gaps != [] {
      var n := |gaps| - 1;
      RekeyedShare(gaps[..n], f, k, mine);
      assert Rekeyed(gaps, f)[..n] == Rekeyed(gaps[..n], f);
      assert gaps[n] in gaps && Rekeyed(gaps, f)[n].Seconds() == gaps[n].Seconds();
      if mine(gaps[n]) { SumSecondsSnoc(Filter(gaps[..n], mine), gaps[n]); }
    }
  }

  /** A line of the human column holds the gaps selected by `mine`, and is listed iff there is one. */
  ghost predicate HoldsGaps(events: seq<RawEvent>, idle: int, k: LineKey, mine: Gap<Opener> -> bool) {
    && Get(Human(events, idle), k) == SumSeconds(Filter(OpenedGaps(events, idle), mine))
    && (k in Human(events, idle) <==> Filter(OpenedGaps(events, idle), mine) != [])
  }

  function LineOfOpener(orchestrators: set<string>): Opener -> LineKey {
    (o: Opener) => KeyOf(orchestrators, o.project, o.session)
  }

  lemma {:induction false} HumanIsRekeyed(events: seq<RawEvent>, idle: int)
    ensures Human(events, idle) == PerKey(Rekeyed(OpenedGaps(events, idle), LineOfOpener(OrchestratorSet(events))))
  {
    var line := LineOfOpener(OrchestratorSet(events));
    var signals := SignalsBy(events, OpenerOf);
    SignalsByRetag(events, OpenerOf, line, LineKeyOf(OrchestratorSet(events)));
    SortRetag(signals, line);
    GapsOfRekeyed(SortByTime(signals), line, idle);
  }

  /** Belonging to the orchestrators is coordinating, for any session name. */
  lemma {:induction false} OrchestratorsCoordinate(events: seq<RawEvent>, session: string)
    ensures session in OrchestratorSet(events) <==> Coordinates(EventsOf(events, session))
  {
    NoEventsOf(events, session);
  }

  lemma {:induction false} LineHolds(events: seq<RawEvent>, idle: int, k: LineKey, mine: Gap<Opener> -> bool)
    requires forall g :: g in OpenedGaps(events, idle) ==>
               (mine(g) <==> LineOfOpener(OrchestratorSet(events))(g.key) == k)
    ensures HoldsGaps(events, idle, k, mine)
  {
    HumanIsRekeyed(events, idle);
    RekeyedShare(OpenedGaps(events, idle), LineOfOpener(OrchestratorSet(events)), k, mine);
  }

  /** The orchestration line: exactly the repo-less gaps opened in a session that coordinates. */
  lemma {:induction false} OrchestrationLine(events: seq<RawEvent>, idle: int)
    ensures HoldsGaps(events, idle, LineKey(None, true), (g: Gap<Opener>) =>
              g.key.project.None? && Coordinates(EventsOf(events, g.key.session)))
  {
    forall s ensures s in OrchestratorSet(events) <==> Coordinates(EventsOf(events, s)) {
      OrchestratorsCoordinate(events, s);
    }
    LineHolds(events, idle, LineKey(None, true), (g: Gap<Opener>) =>
                g.key.project.None? && Coordinates(EventsOf(events, g.key.session)));
  }

  /** The unresolved line: every other repo-less gap. */
  lemma {:induction false} UnresolvedLine(events: seq<RawEvent>, idle: int)
    ensures HoldsGaps(events, idle, LineKey(None, false), (g: Gap<Opener>) =>
              g.key.project.None? && !Coordinates(EventsOf(events, g.key.session)))
  {
    forall s ensures s in OrchestratorSet(events) <==> Coordinates(EventsOf(events, s)) {
      OrchestratorsCoordinate(events, s);
    }
    LineHolds(events, idle, LineKey(None, false), (g: Gap<Opener>) =>
                g.key.project.None? && !Coordinates(EventsOf(events, g.key.session)));
  }

  /** A project's line: every gap a signal of it opens, whichever session the signal is of. */
  lemma {:induction false} ProjectLine(events: seq<RawEvent>, idle: int, p: string)
    ensures HoldsGaps(events, idle, LineKey(Some(p), false), (g: Gap<Opener>) => g.key.project == Some(p))
  {
    LineHolds(events, idle, LineKey(Some(p), false), (g: Gap<Opener>) => g.key.project == Some(p));
  }

  // ---- agent time --------------------------------------------------------------------------

  /** The line of a session's agent time: coordination as a whole, or the first project its events name. */
  ghost predicate FallsOn(events: seq<RawEvent>, session: string, k: LineKey) {
    var mine := EventsOf(events, session);
    if Coordinates(mine) then k == LineKey(None, true)
    else !k.orchestration && IsFirstSaid(mine, ProjectOf, k.project)
  }

  lemma {:induction false} FirstSaidIsOne(events: seq<RawEvent>, a: Option<string>, b: Option<string>)
    requires IsFirstSaid(events, ProjectOf, a) && IsFirstSaid(events, ProjectOf, b)
    ensures a == b
  {
  }

  lemma {:induction false} AccProjectIsFirst(events: seq<RawEvent>)
    ensures IsFirstSaid(events, ProjectOf, AccOf(events).project)
  {
    if events != [] {
      var t, e := events[..|events| - 1], events[|events| - 1];
      AccProjectIsFirst(t);
      FirstSaidStays(t, e, ProjectOf, AccOf(t).project);
      assert events == t + [e];
    }
  }

  lemma {:induction false} FallsOnAgentKey(events: seq<RawEvent>, session: string, k: LineKey)
    ensures FallsOn(events, session, k) <==>
            k == AgentKey(OrchestratorSet(events), session, AccOf(EventsOf(events, session)).project)
  {
    var mine := EventsOf(events, session);
    var first := AccOf(mine).project;
    OrchestratorsCoordinate(events, session);
    AccProjectIsFirst(mine);
    hide IsFirstSaid;
    if IsFirstSaid(mine, ProjectOf, k.project) { FirstSaidIsOne(mine, first, k.project); }
  }

  /** What the sessions on line `k` are each credited. */
  ghost function SharesOn(events: seq<RawEvent>, k: LineKey, policy: AgentPolicy): map<string, int> {
    map s | s in SessionIds(events) && FallsOn(events, s, k) :: CompactionAgent.SessionCredit(events, s, policy)
  }

  lemma {:induction false} BankOf(events: seq<RawEvent>, policy: AgentPolicy, s: string)
    ensures var banks := BanksOf(events, policy);
            && (s in banks <==> s in SessionIds(events) && CompactionAgent.HasActivity(EventsOf(events, s)))
            && (s in banks ==> FallsOn(events, s, banks[s].key) &&
                               banks[s].credit == CompactionAgent.SessionCredit(events, s, policy))
            && (s in SessionIds(events) && s !in banks ==> CompactionAgent.SessionCredit(events, s, policy) == 0)
  {
    var mine := EventsOf(events, s);
    CompactionAgent.AccIsSamples(mine);
    FilterAgree(events, CompactionAgent.OfSession(s), (e: RawEvent) => e.session == s);
    assert mine == Filter(events, CompactionAgent.OfSession(s));
    FallsOnAgentKey(events, s, AgentKey(OrchestratorSet(events), s, AccOf(mine).project));
    hide FallsOn;
    hide OrchestratorSet;
    hide CompactionAgent.HasActivity;
    hide CompactionAgent.Samples;
    hide AgentActiveSeconds;
  }

  lemma {:induction false} FallsOnOne(events: seq<RawEvent>, s: string, j: LineKey, k: LineKey)
    requires FallsOn(events, s, j)
    ensures FallsOn(events, s, k) <==> j == k
  {
    FallsOnAgentKey(events, s, j);
    FallsOnAgentKey(events, s, k);
  }

  /**
   The agent column: a line holds the credits of exactly the sessions that fall on it, and is listed if
   and only if one of them has agent activity.
   */
  lemma {:induction false} AgentLine(events: seq<RawEvent>, policy: AgentPolicy, k: LineKey)
    ensures Get(Agent(events, policy), k) == SumMap(SharesOn(events, k, policy))
    ensures k in Agent(events, policy) <==>
            exists s :: s in SessionIds(events) && FallsOn(events, s, k) && CompactionAgent.HasActivity(EventsOf(events, s))
  {
    var banks, on, shares := BanksOf(events, policy), CreditsOn(BanksOf(events, policy), k), SharesOn(events, k, policy);
    hide FallsOn;
    hide BanksOf;
    hide SessionIds;
    hide EventsOf;
    hide CompactionAgent.HasActivity;
    hide CompactionAgent.SessionCredit;
    forall s
      ensures s in banks <==> s in SessionIds(events) && CompactionAgent.HasActivity(EventsOf(events, s))
      ensures s in banks ==> (banks[s].key == k <==> FallsOn(events, s, k))
      ensures s in on || s in shares ==> Get(on, s) == Get(shares, s)
    {
      BankOf(events, policy, s);
      if s in banks { FallsOnOne(events, s, banks[s].key, k); }
    }
    SumMapExtensional(on, shares);
    if on == map[] { SumMapZero(on); }
  }

  // ---- the order of the lines --------------------------------------------------------------

  /**
   The repo-less lines come first, unresolved time before orchestration, and the projects follow in the
   order of their names.
   */
  lemma {:induction false} RepolessLinesComeFirst(lines: seq<ProjectReport>, events: seq<RawEvent>, idle: int, policy: AgentPolicy,
                                                  i: nat)
    requires IsLines(lines, Human(events, idle), Agent(events, policy)) && i < |lines|
    ensures lines[i].key == LineKey(None, false) ==> i == 0
    ensures lines[i].key == LineKey(None, true) ==> i <= 1 && (i == 1 ==> lines[0].key == LineKey(None, false))
    ensures lines[i].key.project.Some? ==> !lines[i].key.orchestration
    ensures forall j :: i < j < |lines| && lines[i].key.project.Some? ==>
              lines[j].key.project.Some? && LexLess(lines[i].key.project.value, lines[j].key.project.value)
  {
    var keys := KeysOf(lines);
    hide Human;
    hide Agent;
    NoNamedCoordination(lines, events, idle, policy, i);
    assert forall j :: 0 <= j < |lines| ==> keys[j] == lines[j].key;
    if i > 0 { assert KeyLess(keys[0], keys[i]); }
    if i > 1 { assert KeyLess(keys[0], keys[1]) && KeyLess(keys[1], keys[i]); }
    forall j | i < j < |lines| && lines[i].key.project.Some?
      ensures lines[j].key.project.Some? && LexLess(lines[i].key.project.value, lines[j].key.project.value)
    {
      NoNamedCoordination(lines, events, idle, policy, j);
      assert KeyLess(keys[i], keys[j]);
    }
  }

  /** A named project's line is never an orchestration line. */
  lemma {:induction false} NoNamedCoordination(lines: seq<ProjectReport>, events: seq<RawEvent>, idle: int, policy: AgentPolicy,
                                               i: nat)
    requires IsLines(lines, Human(events, idle), Agent(events, policy)) && i < |lines|
    ensures lines[i].key.project.Some? ==> !lines[i].key.orchestration
  {
    var k := lines[i].key;
    assert KeysOf(lines)[i] == k && k in KeysOf(lines);
    if k.project.Some? { NamedProjectsAreOrdinary(events, OrchestratorSet(events), idle, k.project.value); }
    AgentLine(events, policy, k);
    if k in Agent(events, policy) {
      var s :| s in SessionIds(events) && FallsOn(events, s, k) && CompactionAgent.HasActivity(EventsOf(events, s));
    }
    hide Agent;
  }

  // ---- the report of one project -----------------------------------------------------------

  /** Events of one project alone make one human line, its own, and agent time there or on the orchestration line. */
  lemma {:induction false} OneProjectsLines(events: seq<RawEvent>, idle: int, policy: AgentPolicy, p: string, k: LineKey)
    requires forall e :: e in events ==> e.project == Some(p)
    ensures k in Human(events, idle) ==> k == LineKey(Some(p), false)
    ensures k in Agent(events, policy) ==> k == LineKey(Some(p), false) || k == LineKey(None, true)
  {
    if k in Human(events, idle) { HumanKeyIsOpeners(events, idle, k); }
    AgentLine(events, policy, k);
    if k in Agent(events, policy) {
      var s :| s in SessionIds(events) && FallsOn(events, s, k) && CompactionAgent.HasActivity(EventsOf(events, s));
      SessionOfOne(events, s, p);
    }
    hide Agent;
    hide Human;
    hide Coordinates;
    hide CompactionAgent.HasActivity;
  }

  lemma {:induction false} SessionOfOne(events: seq<RawEvent>, s: string, p: string)
    requires s in SessionIds(events) && forall e :: e in events ==> e.project == Some(p)
    ensures forall q :: IsFirstSaid(EventsOf(events, s), ProjectOf, q) ==> q == Some(p)
  {
    var mine := EventsOf(events, s);
    NoEventsOf(events, s);
    forall e | e in mine ensures e.project == Some(p) { FilterMember(events, (e: RawEvent) => e.session == s, e); }
    assert mine[0] in mine;
  }

  /** A human line's key is that of a signal. */
  lemma {:induction false} HumanKeyIsOpeners(events: seq<RawEvent>, idle: int, k: LineKey)
    requires k in Human(events, idle)
    ensures exists e :: e in events && k == KeyOf(OrchestratorSet(events), e.project, e.session)
  {
    var line := LineOfOpener(OrchestratorSet(events));
    var gaps := OpenedGaps(events, idle);
    var mine := (g: Gap<Opener>) => line(g.key) == k;
    LineHolds(events, idle, k, mine);
    var g := Filter(gaps, mine)[0];
    FilterMember(gaps, mine, g);
    var s := SignalsBy(events, OpenerOf);
    GapEndsAreTimes(SortByTime(s), idle, g);
    SortMember(s, Stamped(g.start, g.key));
    SignalIsAnEvents(events, OpenerOf, Stamped(g.start, g.key));
  }
}
