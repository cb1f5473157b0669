/** The per-project report over a slice of events, and its merge with compacted history. */
module Report {
  import opened Prelude
  import opened Timeline
  import opened MapSums
  import opened TextOrder
  import opened Accounting
  import opened AgentTime
  import opened Events
  import opened Lineage

  /** A line is a project, or for repo-less work whether it is the orchestration bucket. */
  datatype LineKey = LineKey(project: Option<string>, orchestration: bool)

  datatype ProjectReport = ProjectReport(key: LineKey, humanSeconds: int, agentSeconds: int)

  datatype Report = Report(lines: seq<ProjectReport>, totalHuman: int, totalAgent: int, sessionCount: nat)

  datatype RollupLine = RollupLine(project: Option<string>, humanSeconds: int, agentSeconds: int)

  // ---- line order --------------------------------------------------------------------------

  predicate ProjectLess(a: Option<string>, b: Option<string>) {
    match (a, b)
    case (None, Some(_)) => true
    case (Some(x), Some(y)) => LexLess(x, y)
    case _ => false
  }

  predicate KeyLess(a: LineKey, b: LineKey) {
    ProjectLess(a.project, b.project) || (a.project == b.project && !a.orchestration && b.orchestration)
  }

  lemma {:induction false} KeyLessIsStrictOrder(a: LineKey, b: LineKey, c: LineKey)
    ensures !KeyLess(a, a)
    ensures KeyLess(a, b) && KeyLess(b, c) ==> KeyLess(a, c)
    ensures a == b || KeyLess(a, b) || KeyLess(b, a)
  {
    if a.project.Some? { LexTrichotomy(a.project.value, a.project.value); }
    if a.project.Some? && b.project.Some? {
      LexTrichotomy(a.project.value, b.project.value);
      if c.project.Some? && LexLess(a.project.value, b.project.value) && LexLess(b.project.value, c.project.value) {
        LexTransitive(a.project.value, b.project.value, c.project.value);
      }
    }
  }

  ghost predicate Increasing(keys: seq<LineKey>) {
    forall i, j :: 0 <= i < j < |keys| ==> KeyLess(keys[i], keys[j])
  }

  /** `keys.sort(); keys.dedup()`: `k` takes its place unless it is already there. */
  function Place(keys: seq<LineKey>, k: LineKey): seq<LineKey> {
    if keys == [] then [k]
    else
      var l := keys[|keys| - 1];
      if l == k then keys
      else if KeyLess(l, k) then keys + [k]
      else Place(keys[..|keys| - 1], k) + [l]
  }

  lemma {:induction false} PlaceMember(keys: seq<LineKey>, k: LineKey, j: LineKey)
    ensures j in Place(keys, k) <==> j in keys || j == k
  {
    if keys != [] {
      var t, l := keys[..|keys| - 1], keys[|keys| - 1];
      assert keys == t + [l];
      if l != k && !KeyLess(l, k) { PlaceMember(t, k, j); }
    }
  }

  lemma {:induction false} PlaceIncreasing(keys: seq<LineKey>, k: LineKey)
    requires Increasing(keys)
    ensures Increasing(Place(keys, k))
  {
    if keys != [] {
      var t, l := keys[..|keys| - 1], keys[|keys| - 1];
      if l == k {
      } else if KeyLess(l, k) {
        forall i | 0 <= i < |keys| ensures KeyLess(keys[i], k) { KeyLessIsStrictOrder(keys[i], l, k); }
      } else {
        PlaceIncreasing(t, k);
        var r := Place(t, k);
        forall i | 0 <= i < |r| ensures KeyLess(r[i], l) {
          PlaceMember(t, k, r[i]);
          assert r[i] in r;
          KeyLessIsStrictOrder(l, k, k);
        }
      }
    }
  }

  lemma {:induction false} IncreasingDistinct(keys: seq<LineKey>)
    requires Increasing(keys)
    ensures Distinct(keys)
  {
    forall i, j | 0 <= i < j < |keys| ensures keys[i] != keys[j] { KeyLessIsStrictOrder(keys[i], keys[i], keys[i]); }
  }

  method SortedKeys(keys: set<LineKey>) returns (r: seq<LineKey>)
    ensures Increasing(r)
    ensures forall k :: k in r <==> k in keys
  {
    r := [];
    var todo := keys;
    while todo != {}
      invariant todo <= keys && Increasing(r)
      invariant forall k :: k in r <==> k in keys - todo
      decreases todo
    {
      var k :| k in todo;
      PlaceIncreasing(r, k);
      forall j ensures j in Place(r, k) <==> j in r || j == k { PlaceMember(r, k, j); }
      r := Place(r, k);
      todo := todo - {k};
    }
  }

  function KeysOf(lines: seq<ProjectReport>): seq<LineKey> {
    Apply((l: ProjectReport) => l.key, lines)
  }

  /** One line per key of either map, in key order, with the values of both. */
  ghost predicate IsLines(lines: seq<ProjectReport>, human: map<LineKey, int>, agent: map<LineKey, int>) {
    && Increasing(KeysOf(lines))
    && (forall k :: k in KeysOf(lines) <==> k in human || k in agent)
    && (forall i :: 0 <= i < |lines| ==>
          lines[i].humanSeconds == Get(human, lines[i].key) && lines[i].agentSeconds == Get(agent, lines[i].key))
  }

  function HumanColumn(lines: seq<ProjectReport>): seq<int> {
    Apply((l: ProjectReport) => l.humanSeconds, lines)
  }

  function AgentColumn(lines: seq<ProjectReport>): seq<int> {
    Apply((l: ProjectReport) => l.agentSeconds, lines)
  }

  /** No line is lost and none counted twice: the columns add up to the maps they came from. */
  lemma {:induction false} LinesSumToMaps(lines: seq<ProjectReport>, human: map<LineKey, int>, agent: map<LineKey, int>)
    requires IsLines(lines, human, agent)
    ensures Sum(HumanColumn(lines)) == SumMap(human)
    ensures Sum(AgentColumn(lines)) == SumMap(agent)
  {
    IncreasingDistinct(KeysOf(lines));
    SumAlong(KeysOf(lines), human);
    SumAlong(KeysOf(lines), agent);
    assert HumanColumn(lines) == Along(KeysOf(lines), human);
    assert AgentColumn(lines) == Along(KeysOf(lines), agent);
  }

  method MakeLines(human: map<LineKey, int>, agent: map<LineKey, int>) returns (lines: seq<ProjectReport>)
    ensures IsLines(lines, human, agent)
  {
    var keys := SortedKeys(human.Keys + agent.Keys);
    lines := [];
    for i := 0 to |keys|
      invariant |lines| == i
      invariant forall j :: 0 <= j < i ==> lines[j] == ProjectReport(keys[j], Get(human, keys[j]), Get(agent, keys[j]))
    {
      lines := lines + [ProjectReport(keys[i], Get(human, keys[i]), Get(agent, keys[i]))];
    }
    assert KeysOf(lines) == keys;
  }

  // ---- orchestrators -----------------------------------------------------------------------

  function EventsOf(events: seq<RawEvent>, session: string): seq<RawEvent> {
    Filter(events, (e: RawEvent) => e.session == session)
  }

  lemma {:induction false} PrefixSnoc<T>(s: seq<T>, i: nat)
    requires i < |s|
    ensures s[..i + 1] == s[..i] + [s[i]]
  {
  }

  function SessionIds(events: seq<RawEvent>): set<string> {
    set i | 0 <= i < |events| :: events[i].session
  }

  lemma {:induction false} NoEventsOf(events: seq<RawEvent>, session: string)
    ensures session in SessionIds(events) <==> EventsOf(events, session) != []
  {
    if events != [] {
      NoEventsOf(events[..|events| - 1], session);
      assert forall i :: 0 <= i < |events| - 1 ==> events[..|events| - 1][i] == events[i];
    }
  }

  lemma {:induction false} SessionIdsSnoc(events: seq<RawEvent>, e: RawEvent)
    ensures SessionIds(events + [e]) == SessionIds(events) + {e.session}
  {
    var s := events + [e];
    assert s[|events|] == e;
    assert forall i :: 0 <= i < |events| ==> s[i] == events[i];
    forall x | x in SessionIds(events) ensures x in SessionIds(s) {
      var i :| 0 <= i < |events| && events[i].session == x;
      assert s[i].session == x;
    }
  }

  ghost function LineageMap(events: seq<RawEvent>): map<string, Facts> {
    map s | s in SessionIds(events) :: FoldEvents(EventsOf(events, s))
  }

  lemma {:induction false} LineageAt(events: seq<RawEvent>, e: RawEvent, s: string)
    ensures var f := FoldEvents(EventsOf(events, s));
            FoldEvents(EventsOf(events + [e], s)) == if s == e.session then Step(f, e) else f
  {
    var es := EventsOf(events, s);
    assert (es + [e])[..|es|] == es;
  }

  lemma {:induction false} LineageMapSnoc(events: seq<RawEvent>, e: RawEvent)
    ensures var m := LineageMap(events);
            LineageMap(events + [e]) ==
            m[e.session := Step(if e.session in m then m[e.session] else START, e)]
  {
    var m, n := LineageMap(events), LineageMap(events + [e]);
    SessionIdsSnoc(events, e);
    forall s | s in n && s != e.session ensures s in m && n[s] == m[s] {
      LineageAt(events, e, s);
    }
    LineageAt(events, e, e.session);
    NoEventsOf(events, e.session);
    MapByPoints(m, n, e.session);
  }

  method FoldLineages(events: seq<RawEvent>) returns (lineages: map<string, Facts>)
    ensures lineages == LineageMap(events)
  {
    lineages := map[];
    for i := 0 to |events|
      invariant lineages == LineageMap(events[..i])
    {
      var e := events[i];
      PrefixSnoc(events, i);
      LineageMapSnoc(events[..i], e);
      var f := if e.session in lineages then lineages[e.session] else START;
      lineages := lineages[e.session := Step(f, e)];
    }
    assert events[..|events|] == events;
  }

  /** The sessions whose events make them orchestrators. */
  ghost function OrchestratorSet(events: seq<RawEvent>): set<string> {
    set s | s in SessionIds(events) && Coordinates(EventsOf(events, s))
  }

  method Orchestrators(events: seq<RawEvent>) returns (o: set<string>)
    ensures o == OrchestratorSet(events)
  {
    var lineages := FoldLineages(events);
    o := set s | s in lineages && lineages[s].orchestrator;
    forall s ensures FoldEvents(EventsOf(events, s)).orchestrator <==> Coordinates(EventsOf(events, s)) {
      VerdictIsClosedForm(EventsOf(events, s));
    }
  }

  // ---- human time --------------------------------------------------------------------------

  function KeyOf(orchestrators: set<string>, project: Option<string>, session: string): LineKey {
    LineKey(project, project.None? && session in orchestrators)
  }

  function LineKeyOf(orchestrators: set<string>): RawEvent -> LineKey {
    (e: RawEvent) => KeyOf(orchestrators, e.project, e.session)
  }

  function SignalsOf(events: seq<RawEvent>, orchestrators: set<string>): seq<Stamped<LineKey>> {
    SignalsBy(events, LineKeyOf(orchestrators))
  }

  /** The same signals with nothing but their project. */
  function ProjectSignals(events: seq<RawEvent>): seq<Stamped<Option<string>>> {
    SignalsBy(events, ProjectOf)
  }

  lemma {:induction false} SignalsAreProjectSignals(events: seq<RawEvent>, orchestrators: set<string>)
    ensures Retag(SignalsOf(events, orchestrators), (k: LineKey) => k.project) == ProjectSignals(events)
  {
    SignalsByRetag(events, LineKeyOf(orchestrators), (k: LineKey) => k.project, ProjectOf);
  }

  /** Attributing to a coarser key merges the fine keys' time. */
  function Rekey(gaps: seq<Gap<LineKey>>): seq<Gap<Option<string>>> {
    Apply((g: Gap<LineKey>) => Gap(g.start, g.end, g.key.project), gaps)
  }

  lemma {:induction false} GapsOfRetag(s: seq<Stamped<LineKey>>, idle: int)
    ensures GapsOf(Retag(s, (k: LineKey) => k.project), idle) == Rekey(GapsOf(s, idle))
  {
    if |s| >= 2 {
      var t := s[..|s| - 1];
      GapsOfRetag(t, idle);
      assert Retag(s, (k: LineKey) => k.project)[..|s| - 1] == Retag(t, (k: LineKey) => k.project);
    }
  }

  lemma {:induction false} RekeyedTime(gaps: seq<Gap<LineKey>>, project: Option<string>)
    ensures Get(PerKey(Rekey(gaps)), project) ==
            Get(PerKey(gaps), LineKey(project, false)) + Get(PerKey(gaps), LineKey(project, true))
  {
    if gaps != [] {
      var n := |gaps| - 1;
      RekeyedTime(gaps[..n], project);
      assert Rekey(gaps)[..n] == Rekey(gaps[..n]);
      assert Rekey(gaps)[n].Seconds() == gaps[n].Seconds();
      assert !(gaps[n].key == LineKey(project, false) && gaps[n].key == LineKey(project, true));
      assert gaps[n].key.project == project ==>
          gaps[n].key == LineKey(project, false) || gaps[n].key == LineKey(project, true);
    }
  }

  ghost function HumanMap(events: seq<RawEvent>, orchestrators: set<string>, idle: int): map<LineKey, int> {
    PerKey(GapsOf(SortByTime(SignalsOf(events, orchestrators)), idle))
  }

  /** Only repo-less gaps carry the orchestration mark. */
  lemma {:induction false} NamedProjectsAreOrdinary(events: seq<RawEvent>, orchestrators: set<string>, idle: int, p: string)
    ensures LineKey(Some(p), true) !in HumanMap(events, orchestrators, idle)
  {
    var k := LineKey(Some(p), true);
    var mine := (g: Gap<LineKey>) => g.key == k;
    var gaps := GapsOf(SortByTime(SignalsOf(events, orchestrators)), idle);
    forall g | g in gaps ensures !mine(g) {
      GapEndsAreTimes(SortByTime(SignalsOf(events, orchestrators)), idle, g);
      var x := Stamped(g.start, g.key);
      SortMember(SignalsOf(events, orchestrators), x);
      SignalKeysAreOrdinary(events, orchestrators, x);
    }
    FilterNone(gaps, mine);
    PerKeyIsOwnGaps(gaps, k, mine);
  }

  lemma {:induction false} SignalKeysAreOrdinary(events: seq<RawEvent>, orchestrators: set<string>, x: Stamped<LineKey>)
    requires x in SignalsOf(events, orchestrators)
    ensures x.tag.orchestration ==> x.tag.project.None?
  {
    var t, e := events[..|events| - 1], events[|events| - 1];
    if x in SignalsOf(t, orchestrators) {
      SignalKeysAreOrdinary(t, orchestrators, x);
    } else {
      assert x == Stamped(e.at, KeyOf(orchestrators, e.project, e.session));
    }
  }

  /**
   The orchestration split moves repo-less time between two lines and never changes a project's time: a
   named project's is all on its own line, and repo-less work's on its two lines together.
   */
  lemma {:induction false} SplitNeverChangesAProject(events: seq<RawEvent>, orchestrators: set<string>, idle: int, project: Option<string>)
    ensures var h := HumanMap(events, orchestrators, idle);
            && Get(h, LineKey(project, false)) + Get(h, LineKey(project, true)) ==
               Get(PerKey(GapsOf(SortByTime(ProjectSignals(events)), idle)), project)
            && (project.Some? ==> LineKey(project, true) !in h)
  {
    var s := SignalsOf(events, orchestrators);
    SignalsAreProjectSignals(events, orchestrators);
    SortRetag(s, (k: LineKey) => k.project);
    GapsOfRetag(SortByTime(s), idle);
    RekeyedTime(GapsOf(SortByTime(s), idle), project);
    if project.Some? { NamedProjectsAreOrdinary(events, orchestrators, idle, project.value); }
  }

  /** Human lines add up to the one de-duplicated total. */
  lemma {:induction false} HumanMapSumsToTotal(events: seq<RawEvent>, orchestrators: set<string>, idle: int)
    ensures SumMap(HumanMap(events, orchestrators, idle)) == TotalHumanSeconds(ProjectSignals(events), idle)
  {
    var s := SignalsOf(events, orchestrators);
    PerKeySumsToTotal(GapsOf(SortByTime(s), idle));
    SignalsAreProjectSignals(events, orchestrators);
    HumanTotalIsActive(s, idle);
    HumanTotalIsActive(ProjectSignals(events), idle);
    assert Untag(s) == Untag(ProjectSignals(events));
  }

  // ---- agent time --------------------------------------------------------------------------

  datatype SessionAcc = SessionAcc(project: Option<string>, samples: seq<Stamped<bool>>, active: bool)

  function AccStep(a: SessionAcc, e: RawEvent): SessionAcc {
    SessionAcc(if a.project.None? then e.project else a.project,
               a.samples + [Stamped(e.at, e.kind.OpensAgentSpan())],
               a.active || e.kind.IsAgentActivity())
  }

  function AccOf(es: seq<RawEvent>): SessionAcc {
    if es == [] then SessionAcc(None, [], false) else AccStep(AccOf(es[..|es| - 1]), es[|es| - 1])
  }

  ghost function SessionMap(events: seq<RawEvent>): map<string, SessionAcc> {
    map s | s in SessionIds(events) :: AccOf(EventsOf(events, s))
  }

  lemma {:induction false} AccAt(events: seq<RawEvent>, e: RawEvent, s: string)
    ensures var a := AccOf(EventsOf(events, s));
            AccOf(EventsOf(events + [e], s)) == if s == e.session then AccStep(a, e) else a
  {
    var es := EventsOf(events, s);
    assert (es + [e])[..|es|] == es;
  }

  lemma {:induction false} EmptyAcc()
    ensures AccOf([]) == SessionAcc(None, [], false)
  {
  }

  lemma {:induction false} SessionMapSnoc(events: seq<RawEvent>, e: RawEvent)
    ensures var m := SessionMap(events);
            SessionMap(events + [e]) ==
            m[e.session := AccStep(if e.session in m then m[e.session] else SessionAcc(None, [], false), e)]
  {
    hide AccOf;
    hide EventsOf;
    hide SessionIds;
    var m, n := SessionMap(events), SessionMap(events + [e]);
    SessionIdsSnoc(events, e);
    forall s | s in n && s != e.session ensures s in m && n[s] == m[s] {
      AccAt(events, e, s);
    }
    EmptyAcc();
    AccAt(events, e, e.session);
    NoEventsOf(events, e.session);
    MapByPoints(m, n, e.session);
  }

  method FoldSessions(events: seq<RawEvent>) returns (sessions: map<string, SessionAcc>)
    ensures sessions == SessionMap(events)
  {
    sessions := map[];
    for i := 0 to |events|
      invariant sessions == SessionMap(events[..i])
    {
      var e := events[i];
      PrefixSnoc(events, i);
      SessionMapSnoc(events[..i], e);
      var acc := if e.session in sessions then sessions[e.session] else SessionAcc(None, [], false);
      sessions := sessions[e.session := AccStep(acc, e)];
    }
    assert events[..|events|] == events;
  }

  /** An orchestrator's agent time is coordination as a whole. */
  function AgentKey(orchestrators: set<string>, session: string, project: Option<string>): LineKey {
    if session in orchestrators then LineKey(None, true) else LineKey(project, false)
  }

  /** Agent seconds banked by one session, and the line they fall on. */
  datatype Bank = Bank(key: LineKey, credit: int)

  /** What each session with agent activity banks. */
  function Banks(sessions: map<string, SessionAcc>, orchestrators: set<string>, policy: AgentPolicy): map<string, Bank> {
    map s | s in sessions && sessions[s].active
      :: Bank(AgentKey(orchestrators, s, sessions[s].project), AgentActiveSeconds(sessions[s].samples, policy))
  }

  function Credits(banks: map<string, Bank>): map<string, int> {
    map s | s in banks :: banks[s].credit
  }

  /** The credits that fall on line `k`. */
  function CreditsOn(banks: map<string, Bank>, k: LineKey): map<string, int> {
    map s | s in banks && banks[s].key == k :: banks[s].credit
  }

  /** Every line holds the credits of its sessions, and the lines together hold every credit. */
  ghost predicate IsAgentMap(m: map<LineKey, int>, banks: map<string, Bank>) {
    && (forall k :: Get(m, k) == SumMap(CreditsOn(banks, k)))
    && (forall k :: k in m <==> exists s :: s in banks && banks[s].key == k)
    && SumMap(m) == SumMap(Credits(banks))
  }

  method AgentByProject(sessions: map<string, SessionAcc>, orchestrators: set<string>, policy: AgentPolicy)
    returns (m: map<LineKey, int>)
    ensures IsAgentMap(m, Banks(sessions, orchestrators, policy))
  {
    m := map[];
    var todo := sessions.Keys;
    ghost var all := Banks(sessions, orchestrators, policy);
    ghost var seen: map<string, Bank> := map[];
    while todo != {}
      invariant todo <= sessions.Keys
      invariant forall s :: s in seen <==> s in all && s !in todo
      invariant forall s :: s in seen ==> seen[s] == all[s]
      invariant IsAgentMap(m, seen)
      decreases todo
    {
      var s :| s in todo;
      todo := todo - {s};
      var acc := sessions[s];
      if acc.active {
        var k := AgentKey(orchestrators, s, acc.project);
        var credit := AgentActiveSeconds(acc.samples, policy);
        OneMoreBank(m, seen, s, Bank(k, credit));
        m := AddTo(m, k, credit);
        seen := seen[s := Bank(k, credit)];
      }
    }
    assert seen == all;
  }

  lemma {:induction false} OneMoreBank(m: map<LineKey, int>, seen: map<string, Bank>, s: string, b: Bank)
    requires s !in seen && IsAgentMap(m, seen)
    ensures IsAgentMap(AddTo(m, b.key, b.credit), seen[s := b])
  {
    var next := seen[s := b];
    SumMapAddTo(m, b.key, b.credit);
    assert Credits(next) == AddTo(Credits(seen), s, b.credit);
    SumMapAddTo(Credits(seen), s, b.credit);
    forall k ensures Get(AddTo(m, b.key, b.credit), k) == SumMap(CreditsOn(next, k)) {
      CreditsOnNext(seen, s, b, k);
    }
    forall k ensures k in AddTo(m, b.key, b.credit) <==> exists j :: j in next && next[j].key == k {
      assert next[s].key == b.key;
      if k in m {
        var j :| j in seen && seen[j].key == k;
        assert next[j].key == k;
      }
    }
  }

  lemma {:induction false} CreditsOnNext(seen: map<string, Bank>, s: string, b: Bank, k: LineKey)
    requires s !in seen
    ensures SumMap(CreditsOn(seen[s := b], k)) == SumMap(CreditsOn(seen, k)) + if k == b.key then b.credit else 0
  {
    if k == b.key {
      assert CreditsOn(seen[s := b], k) == AddTo(CreditsOn(seen, k), s, b.credit);
      SumMapAddTo(CreditsOn(seen, k), s, b.credit);
    } else {
      assert CreditsOn(seen[s := b], k) == CreditsOn(seen, k);
    }
  }

  // ---- the report --------------------------------------------------------------------------

  ghost function Human(events: seq<RawEvent>, idle: int): map<LineKey, int> {
    HumanMap(events, OrchestratorSet(events), idle)
  }

  ghost function BanksOf(events: seq<RawEvent>, policy: AgentPolicy): map<string, Bank> {
    Banks(SessionMap(events), OrchestratorSet(events), policy)
  }

  /** Per line, the agent time of its sessions. */
  ghost function Agent(events: seq<RawEvent>, policy: AgentPolicy): map<LineKey, int> {
    var banks := BanksOf(events, policy);
    map k | k in (set s | s in banks :: banks[s].key) :: SumMap(CreditsOn(banks, k))
  }

  lemma {:induction false} AgentMapIsUnique(m: map<LineKey, int>, events: seq<RawEvent>, policy: AgentPolicy)
    requires IsAgentMap(m, BanksOf(events, policy))
    ensures m == Agent(events, policy)
  {
    hide BanksOf;
    hide CreditsOn;
    hide SumMap;
    var a := Agent(events, policy);
    forall k ensures k in m <==> k in a {}
    forall k | k in m ensures m[k] == a[k] { assert Get(m, k) == m[k]; }
  }

  /** The agent time of every session with agent activity, summed freely. */
  ghost function AgentTotal(events: seq<RawEvent>, policy: AgentPolicy): int {
    SumMap(Credits(BanksOf(events, policy)))
  }

  ghost predicate TotalsItsLines(r: Report) {
    r.totalHuman == Sum(HumanColumn(r.lines)) && r.totalAgent == Sum(AgentColumn(r.lines))
  }

  method Build(events: seq<RawEvent>, idle: int, policy: AgentPolicy) returns (r: Report)
    ensures IsLines(r.lines, Human(events, idle), Agent(events, policy)) && TotalsItsLines(r)
    ensures r.totalHuman == TotalHumanSeconds(ProjectSignals(events), idle)
    ensures r.totalAgent == AgentTotal(events, policy) == SumMap(Agent(events, policy))
    ensures r.sessionCount == |SessionIds(events)|
  {
    var orchestrators := Orchestrators(events);
    var signals := SignalsOf(events, orchestrators);
    var humanByProject := PerKeySeconds(signals, idle);
    var sessions := FoldSessions(events);
    var agentByProject := AgentByProject(sessions, orchestrators, policy);
    AgentMapIsUnique(agentByProject, events, policy);
    var lines := MakeLines(humanByProject, agentByProject);
    LinesSumToMaps(lines, humanByProject, agentByProject);
    HumanMapSumsToTotal(events, orchestrators, idle);
    assert sessions.Keys == SessionIds(events);
    r := Report(lines, Sum(HumanColumn(lines)), Sum(AgentColumn(lines)), |sessions|);
  }

  datatype RollupColumn = HumanColumnOf | AgentColumnOf {
    function Of(l: RollupLine): int {
      if HumanColumnOf? then l.humanSeconds else l.agentSeconds
    }
  }

  function ColumnOf(rollups: seq<RollupLine>, c: RollupColumn): (r: seq<int>)
    ensures |r| == |rollups|
  {
    seq(|rollups|, i requires 0 <= i < |rollups| => c.Of(rollups[i]))
  }

  function AddRollups(m: map<LineKey, int>, rollups: seq<RollupLine>, c: RollupColumn): map<LineKey, int> {
    if rollups == [] then m
    else
      var l := rollups[|rollups| - 1];
      AddTo(AddRollups(m, rollups[..|rollups| - 1], c), LineKey(l.project, false), c.Of(l))
  }

  lemma {:induction false} RollupsAddUp(m: map<LineKey, int>, rollups: seq<RollupLine>, c: RollupColumn)
    ensures SumMap(AddRollups(m, rollups, c)) == SumMap(m) + Sum(ColumnOf(rollups, c))
  {
    if rollups != [] {
      var n := |rollups| - 1;
      RollupsAddUp(m, rollups[..n], c);
      assert ColumnOf(rollups, c)[..n] == ColumnOf(rollups[..n], c);
      SumMapAddTo(AddRollups(m, rollups[..n], c), LineKey(rollups[n].project, false), c.Of(rollups[n]));
    }
  }

  /** The rollup lines of one project, or of none. */
  function LinesOf(rollups: seq<RollupLine>, project: Option<string>): seq<RollupLine> {
    Filter(rollups, (l: RollupLine) => l.project == project)
  }

  /** Compacted history lands on the ordinary line of its own project: the orchestration bucket is untouched. */
  lemma {:induction false} RollupsLandOnTheirProject(m: map<LineKey, int>, rollups: seq<RollupLine>,
                                                     c: RollupColumn, p: Option<string>)
    ensures Get(AddRollups(m, rollups, c), LineKey(p, false)) == Get(m, LineKey(p, false)) + Sum(ColumnOf(LinesOf(rollups, p), c))
    ensures LineKey(p, false) in AddRollups(m, rollups, c) <==> LineKey(p, false) in m || LinesOf(rollups, p) != []
    ensures Get(AddRollups(m, rollups, c), LineKey(p, true)) == Get(m, LineKey(p, true))
    ensures LineKey(p, true) in AddRollups(m, rollups, c) <==> LineKey(p, true) in m
  {
    if rollups != [] {
      var t, l := rollups[..|rollups| - 1], rollups[|rollups| - 1];
      RollupsLandOnTheirProject(m, t, c, p);
      if l.project == p { ColumnOneMore(LinesOf(t, p), l, c); }
      hide ColumnOf;
      hide Sum;
    }
  }

  lemma {:induction false} ColumnOneMore(lines: seq<RollupLine>, l: RollupLine, c: RollupColumn)
    ensures Sum(ColumnOf(lines + [l], c)) == Sum(ColumnOf(lines, c)) + c.Of(l)
  {
    var mine := ColumnOf(lines, c);
    assert ColumnOf(lines + [l], c) == mine + [c.Of(l)];
    assert (mine + [c.Of(l)])[..|mine|] == mine;
  }

  /** Two tables that list the same keys, with zeros where `human` or `agent` has nothing. */
  ghost predicate SameTable(h: map<LineKey, int>, a: map<LineKey, int>, human: map<LineKey, int>,
                            agent: map<LineKey, int>) {
    && h.Keys == a.Keys == human.Keys + agent.Keys
    && (forall k :: Get(h, k) == Get(human, k))
    && (forall k :: Get(a, k) == Get(agent, k))
  }

  method BuildMerged(events: seq<RawEvent>, idle: int, policy: AgentPolicy, rollups: seq<RollupLine>,
                     rollupSessions: nat) returns (r: Report)
    ensures IsLines(r.lines, AddRollups(Human(events, idle), rollups, HumanColumnOf),
                    AddRollups(Agent(events, policy), rollups, AgentColumnOf))
    ensures TotalsItsLines(r)
    ensures r.totalHuman == TotalHumanSeconds(ProjectSignals(events), idle) + Sum(ColumnOf(rollups, HumanColumnOf))
    ensures r.totalAgent == AgentTotal(events, policy) + Sum(ColumnOf(rollups, AgentColumnOf))
    ensures r.sessionCount == |SessionIds(events)| + if rollups == [] then 0 else rollupSessions
  {
    var report := Build(events, idle, policy);
    if rollups == [] {
      return report;
    }
    ghost var human, agent := Human(events, idle), Agent(events, policy);
    LinesSumToMaps(report.lines, human, agent);
    var h, a := LinesToMaps(report.lines, human, agent);
    h, a := FoldRollups(h, a, rollups, human, agent);
    var lines := MakeLines(h, a);
    human, agent := AddRollups(human, rollups, HumanColumnOf), AddRollups(agent, rollups, AgentColumnOf);
    LinesSumToMaps(lines, human, agent);
    RollupsAddUp(Human(events, idle), rollups, HumanColumnOf);
    RollupsAddUp(Agent(events, policy), rollups, AgentColumnOf);
    r := Report(lines, Sum(HumanColumn(lines)), Sum(AgentColumn(lines)), report.sessionCount + rollupSessions);
  }

  /** `report.projects.into_iter().map(|p| (key, p)).collect()`: lines back into a table. */
  method LinesToMaps(lines: seq<ProjectReport>, ghost human: map<LineKey, int>, ghost agent: map<LineKey, int>)
    returns (h: map<LineKey, int>, a: map<LineKey, int>)
    requires IsLines(lines, human, agent)
    ensures SameTable(h, a, human, agent)
  {
    hide Increasing;
    hide Get;
    ghost var keys := KeysOf(lines);
    h, a := map[], map[];
    for i := 0 to |lines|
      invariant IsTableOf(keys[..i], h, a, human, agent)
    {
      var l := lines[i];
      TableSnoc(keys, i, h, a, human, agent);
      assert keys[i] == l.key;
      h := h[l.key := l.humanSeconds];
      a := a[l.key := l.agentSeconds];
    }
    assert keys[..|lines|] == keys;
    TableFromKeys(keys, h, a, human, agent);
  }

  /** Tables of these keys, each with the two maps' values. */
  ghost predicate IsTableOf(keys: seq<LineKey>, h: map<LineKey, int>, a: map<LineKey, int>, human: map<LineKey, int>,
                            agent: map<LineKey, int>)
  {
    && (forall k :: k in h <==> k in keys)
    && h.Keys == a.Keys
    && (forall k :: k in h ==> h[k] == Get(human, k) && a[k] == Get(agent, k))
  }

  lemma {:induction false} TableSnoc(keys: seq<LineKey>, i: nat, h: map<LineKey, int>, a: map<LineKey, int>,
                                     human: map<LineKey, int>, agent: map<LineKey, int>)
    requires i < |keys| && IsTableOf(keys[..i], h, a, human, agent)
    ensures var k := keys[i];
            IsTableOf(keys[..i + 1], h[k := Get(human, k)], a[k := Get(agent, k)], human, agent)
  {
    PrefixSnoc(keys, i);
  }

  lemma {:induction false} TableFromKeys(keys: seq<LineKey>, h: map<LineKey, int>, a: map<LineKey, int>, human: map<LineKey, int>,
                      agent: map<LineKey, int>)
    requires forall k :: k in keys <==> k in human || k in agent
    requires IsTableOf(keys, h, a, human, agent)
    ensures SameTable(h, a, human, agent)
  {
    forall k ensures k in h.Keys <==> k in human.Keys + agent.Keys { assert k in h <==> k in keys; }
    forall k ensures Get(h, k) == Get(human, k) && Get(a, k) == Get(agent, k) {
      assert k in h <==> k in keys;
    }
  }

  /** Rollup lines are added onto the ordinary line of their project. */
  method FoldRollups(h0: map<LineKey, int>, a0: map<LineKey, int>, rollups: seq<RollupLine>,
                     ghost human: map<LineKey, int>, ghost agent: map<LineKey, int>)
    returns (h: map<LineKey, int>, a: map<LineKey, int>)
    requires SameTable(h0, a0, human, agent)
    ensures SameTable(h, a, AddRollups(human, rollups, HumanColumnOf), AddRollups(agent, rollups, AgentColumnOf))
  {
    h, a := h0, a0;
    for i := 0 to |rollups|
      invariant SameTable(h, a, AddRollups(human, rollups[..i], HumanColumnOf),
                          AddRollups(agent, rollups[..i], AgentColumnOf))
    {
      var line := rollups[i];
      var k := LineKey(line.project, false);
      assert rollups[..i + 1][..i] == rollups[..i];
      AddToTable(h, a, AddRollups(human, rollups[..i], HumanColumnOf), AddRollups(agent, rollups[..i], AgentColumnOf),
                 k, line.humanSeconds, line.agentSeconds);
      h := AddTo(h, k, line.humanSeconds);
      a := AddTo(a, k, line.agentSeconds);
    }
    assert rollups[..|rollups|] == rollups;
  }

  lemma {:induction false} AddToTable(h: map<LineKey, int>, a: map<LineKey, int>, human: map<LineKey, int>, agent: map<LineKey, int>,
                   k: LineKey, x: int, y: int)
    requires SameTable(h, a, human, agent)
    ensures SameTable(AddTo(h, k, x), AddTo(a, k, y), AddTo(human, k, x), AddTo(agent, k, y))
  {
    assert Get(h, k) == Get(human, k) && Get(a, k) == Get(agent, k);
    forall j ensures Get(AddTo(h, k, x), j) == Get(AddTo(human, k, x), j) { assert Get(h, j) == Get(human, j); }
    forall j ensures Get(AddTo(a, k, y), j) == Get(AddTo(agent, k, y), j) { assert Get(a, j) == Get(agent, j); }
  }
}
