/** The full report: the live log merged with what has been compacted into daily rows. */
module StoreReport {
  import opened Prelude
  import opened Timeline
  import opened MapSums
  import opened Accounting
  import opened AgentTime
  import opened Events
  import opened TextOrder
  import Calendar
  import StoredAt
  import Report
  import opened EventStore
  import opened RollupRows

  function IsReal(e: RawEvent): bool {
    !IsProbe(e.session)
  }

  /** A report's lower bound: an instant, and the day it falls on where the user is. */
  datatype Since = Since(at: int, day: string)

  function Listed(since: Option<Since>): RawEvent -> bool {
    (e: RawEvent) => IsReal(e) && (since.Some? ==> since.value.at <= e.at)
  }

  /** `events_since`: the events of real sessions from the bound on, in time order. */
  function EventsSince(events: seq<RawEvent>, since: Option<Since>): seq<RawEvent> {
    Untimed(ByTime(Filter(events, Listed(since))))
  }

  /** The rows of the days from the bound's day on; days compare as text. */
  function RowsSince(rollup: Rollup, since: Option<Since>): Rollup {
    map k | k in rollup && (since.Some? ==> LexLeq(since.value.day, k.day)) :: rollup[k]
  }

  function TimeOf(row: RollupRow, c: Report.RollupColumn): int {
    if c.HumanColumnOf? then row.human else row.active
  }

  /** One time column of the rollup table. */
  function RowTimes(rollup: Rollup, c: Report.RollupColumn): map<Key, int> {
    map k | k in rollup :: TimeOf(rollup[k], c)
  }

  function ProjectTimes(rollup: Rollup, c: Report.RollupColumn, project: Option<string>): map<Key, int> {
    map k | k in rollup && rollup[k].project == project :: TimeOf(rollup[k], c)
  }

  ghost predicate HasRow(rollup: Rollup, p: Option<string>) {
    exists k :: k in rollup && rollup[k].project == p
  }

  /** The column of a table, summed per project and in all, over exactly the projects that have a row. */
  ghost predicate IsPerProject(m: map<Option<string>, int>, rollup: Rollup, c: Report.RollupColumn) {
    && (forall p :: p in m <==> HasRow(rollup, p))
    && (forall p :: Get(m, p) == SumMap(ProjectTimes(rollup, c, p)))
    && SumMap(m) == SumMap(RowTimes(rollup, c))
  }

  lemma {:induction false} OneMoreRow(m: map<Option<string>, int>, seen: Rollup, c: Report.RollupColumn, k: Key,
                                      row: RollupRow)
    requires k !in seen && IsPerProject(m, seen, c)
    ensures IsPerProject(AddTo(m, row.project, TimeOf(row, c)), seen[k := row], c)
  {
    SumMapAddTo(m, row.project, TimeOf(row, c));
    assert RowTimes(seen[k := row], c) == AddTo(RowTimes(seen, c), k, TimeOf(row, c));
    SumMapAddTo(RowTimes(seen, c), k, TimeOf(row, c));
    forall p ensures Get(AddTo(m, row.project, TimeOf(row, c)), p) == SumMap(ProjectTimes(seen[k := row], c, p)) {
      OneMoreOfProject(seen, c, k, row, p);
    }
    forall p ensures p in AddTo(m, row.project, TimeOf(row, c)) <==> HasRow(seen[k := row], p) { OneMoreHasRow(seen, k, row, p); }
  }

  lemma {:induction false} OneMoreOfProject(seen: Rollup, c: Report.RollupColumn, k: Key, row: RollupRow,
                                            p: Option<string>)
    requires k !in seen
    ensures SumMap(ProjectTimes(seen[k := row], c, p)) ==
            SumMap(ProjectTimes(seen, c, p)) + if p == row.project then TimeOf(row, c) else 0
  {
    if p == row.project {
      assert ProjectTimes(seen[k := row], c, p) == AddTo(ProjectTimes(seen, c, p), k, TimeOf(row, c));
      SumMapAddTo(ProjectTimes(seen, c, p), k, TimeOf(row, c));
    } else {
      assert ProjectTimes(seen[k := row], c, p) == ProjectTimes(seen, c, p);
    }
  }

  lemma {:induction false} OneMoreHasRow(seen: Rollup, k: Key, row: RollupRow, p: Option<string>)
    requires k !in seen
    ensures HasRow(seen[k := row], p) <==> HasRow(seen, p) || p == row.project
  {
    var next := seen[k := row];
    assert next[k].project == row.project;
    if HasRow(seen, p) {
      var j :| j in seen && seen[j].project == p;
      assert next[j].project == p;
    }
  }

  method SumByProject(rollup: Rollup) returns (h: map<Option<string>, int>, a: map<Option<string>, int>)
    ensures h.Keys == a.Keys
    ensures IsPerProject(h, rollup, Report.HumanColumnOf) && IsPerProject(a, rollup, Report.AgentColumnOf)
  {
    h, a := map[], map[];
    var todo := rollup.Keys;
    ghost var seen: Rollup := map[];
    while todo != {}
      invariant todo <= rollup.Keys && h.Keys == a.Keys
      invariant seen.Keys == rollup.Keys - todo && forall k :: k in seen ==> seen[k] == rollup[k]
      invariant IsPerProject(h, seen, Report.HumanColumnOf) && IsPerProject(a, seen, Report.AgentColumnOf)
      decreases todo
    {
      var k :| k in todo;
      todo := todo - {k};
      var row := rollup[k];
      OneMoreRow(h, seen, Report.HumanColumnOf, k, row);
      OneMoreRow(a, seen, Report.AgentColumnOf, k, row);
      h, a := AddTo(h, row.project, row.human), AddTo(a, row.project, row.active);
      seen := seen[k := row];
    }
    assert seen == rollup;
  }

  /** One line per project that has a row, each holding the time of that project's rows, none lost. */
  ghost predicate IsProjectLines(lines: seq<Report.RollupLine>, rollup: Rollup) {
    && (forall i, j :: 0 <= i < j < |lines| ==> lines[i].project != lines[j].project)
    && (forall p :: HasLine(lines, p) <==> HasRow(rollup, p))
    && (forall i, c: Report.RollupColumn :: 0 <= i < |lines| ==>
          c.Of(lines[i]) == SumMap(ProjectTimes(rollup, c, lines[i].project)))
    && (forall c :: Sum(Report.ColumnOf(lines, c)) == SumMap(RowTimes(rollup, c)))
  }

  ghost predicate HasLine(lines: seq<Report.RollupLine>, p: Option<string>) {
    exists i :: 0 <= i < |lines| && lines[i].project == p
  }

  /** Lines for the projects taken out of `todo` so far. */
  ghost predicate PartLines(lines: seq<Report.RollupLine>, todo: set<Option<string>>, h: map<Option<string>, int>,
                            a: map<Option<string>, int>)
    requires h.Keys == a.Keys
  {
    && todo <= h.Keys
    && (forall i, j :: 0 <= i < j < |lines| ==> lines[i].project != lines[j].project)
    && (forall i :: 0 <= i < |lines| ==> IsLineOf(lines[i], h.Keys - todo, h, a))
    && (forall p :: p in h.Keys - todo ==> HasLine(lines, p))
    && Sum(Report.ColumnOf(lines, Report.HumanColumnOf)) + SumMap(RestOf(h, todo)) == SumMap(h)
    && Sum(Report.ColumnOf(lines, Report.AgentColumnOf)) + SumMap(RestOf(a, todo)) == SumMap(a)
  }

  ghost predicate IsLineOf(l: Report.RollupLine, projects: set<Option<string>>, h: map<Option<string>, int>,
                           a: map<Option<string>, int>)
  {
    l.project in projects && l.humanSeconds == Get(h, l.project) && l.agentSeconds == Get(a, l.project)
  }

  lemma {:induction false} RestWithout(m: map<Option<string>, int>, todo: set<Option<string>>, p: Option<string>)
    requires todo <= m.Keys && p in todo
    ensures SumMap(RestOf(m, todo)) == m[p] + SumMap(RestOf(m, todo - {p}))
  {
    SumMapRemove(RestOf(m, todo), p);
    assert RestOf(m, todo - {p}) == RestOf(m, todo) - {p};
  }

  lemma {:induction false} OneMoreLine(lines: seq<Report.RollupLine>, todo: set<Option<string>>,
                                       h: map<Option<string>, int>,
                                       a: map<Option<string>, int>, p: Option<string>)
    requires h.Keys == a.Keys && PartLines(lines, todo, h, a) && p in todo
    ensures PartLines(lines + [Report.RollupLine(p, h[p], a[p])], todo - {p}, h, a)
  {
    var line := Report.RollupLine(p, h[p], a[p]);
    RestWithout(h, todo, p);
    RestWithout(a, todo, p);
    ColumnSnoc(lines, line, Report.HumanColumnOf);
    ColumnSnoc(lines, line, Report.AgentColumnOf);
    forall i | 0 <= i < |lines| ensures IsLineOf(lines[i], h.Keys - (todo - {p}), h, a) && lines[i].project != p {
      assert IsLineOf(lines[i], h.Keys - todo, h, a);
    }
    forall q | q in h.Keys - (todo - {p}) ensures HasLine(lines + [line], q) { OneMoreHasLine(lines, line, q); }
  }

  lemma {:induction false} OneMoreHasLine(lines: seq<Report.RollupLine>, line: Report.RollupLine, p: Option<string>)
    ensures HasLine(lines + [line], p) <==> HasLine(lines, p) || p == line.project
  {
    var next := lines + [line];
    assert next[|lines|] == line;
    if HasLine(lines, p) {
      var i :| 0 <= i < |lines| && lines[i].project == p;
      assert next[i].project == p;
    }
  }

  /** `rollup_totals_since`. */
  method RollupTotals(rollup: Rollup, since: Option<Since>) returns (lines: seq<Report.RollupLine>)
    ensures IsProjectLines(lines, RowsSince(rollup, since))
  {
    var rows := RowsSince(rollup, since);
    var h, a := SumByProject(rows);
    lines := [];
    var todo := h.Keys;
    assert RestOf(h, todo) == h && RestOf(a, todo) == a;
    while todo != {}
      invariant PartLines(lines, todo, h, a)
      decreases todo
    {
      var p :| p in todo;
      OneMoreLine(lines, todo, h, a, p);
      lines := lines + [Report.RollupLine(p, h[p], a[p])];
      todo := todo - {p};
    }
    LinesOf(lines, rows, h, a);
  }

  function RestOf(m: map<Option<string>, int>, keys: set<Option<string>>): map<Option<string>, int> {
    map p | p in m && p in keys :: m[p]
  }

  lemma {:induction false} ColumnSnoc(lines: seq<Report.RollupLine>, line: Report.RollupLine, c: Report.RollupColumn)
    ensures Sum(Report.ColumnOf(lines + [line], c)) == Sum(Report.ColumnOf(lines, c)) + c.Of(line)
  {
    assert Report.ColumnOf(lines + [line], c) == Report.ColumnOf(lines, c) + [c.Of(line)];
    var r := Report.ColumnOf(lines, c);
    assert (r + [c.Of(line)])[..|r|] == r;
  }

  lemma {:induction false} LinesOf(lines: seq<Report.RollupLine>, rollup: Rollup, h: map<Option<string>, int>,
                                   a: map<Option<string>, int>)
    requires IsPerProject(h, rollup, Report.HumanColumnOf) && IsPerProject(a, rollup, Report.AgentColumnOf)
    requires h.Keys == a.Keys && PartLines(lines, {}, h, a)
    ensures IsProjectLines(lines, rollup)
  {
    assert RestOf(h, {}) == map[] && RestOf(a, {}) == map[];
    forall i, c: Report.RollupColumn | 0 <= i < |lines|
      ensures c.Of(lines[i]) == SumMap(ProjectTimes(rollup, c, lines[i].project))
    {
      assert IsLineOf(lines[i], h.Keys, h, a);
      assert c == Report.HumanColumnOf || c == Report.AgentColumnOf;
    }
    forall c ensures Sum(Report.ColumnOf(lines, c)) == SumMap(RowTimes(rollup, c)) {
      assert c == Report.HumanColumnOf || c == Report.AgentColumnOf;
    }
  }

  function SessionsOf(rollup: Rollup): set<string> {
    set k | k in rollup :: k.session
  }

  /** The human time a report shows: live signals of real sessions plus the compacted rows. */
  ghost function ReportedHuman(db: Db, since: Option<Since>, idle: int): int {
    TotalHumanSeconds(Report.ProjectSignals(Filter(db.events, Listed(since))), idle) +
    SumMap(RowTimes(RowsSince(db.rollup, since), Report.HumanColumnOf))
  }

  /** The agent time it shows: every listed session's own, plus the compacted rows. */
  ghost function ReportedAgent(db: Db, since: Option<Since>, policy: AgentPolicy): int {
    Report.AgentTotal(EventsSince(db.events, since), policy) +
    SumMap(RowTimes(RowsSince(db.rollup, since), Report.AgentColumnOf))
  }

  method FullReport(db: Db, since: Option<Since>, idle: int, policy: AgentPolicy) returns (r: Report.Report)
    ensures r.totalHuman == ReportedHuman(db, since, idle) && r.totalAgent == ReportedAgent(db, since, policy)
    ensures r.sessionCount ==
            |Report.SessionIds(Filter(db.events, Listed(since)))| + |SessionsOf(RowsSince(db.rollup, since))|
    ensures Report.TotalsItsLines(r)
  {
    var lines := RollupTotals(db.rollup, since);
    var events := EventsSince(db.events, since);
    r := Report.BuildMerged(events, idle, policy, lines, |SessionsOf(RowsSince(db.rollup, since))|);
    InOrderSameTime(Filter(db.events, Listed(since)), idle);
    InOrderSameSessions(Filter(db.events, Listed(since)));
    if lines == [] { NoLinesNoSessions(lines, RowsSince(db.rollup, since)); }
  }

  // ---- one project -------------------------------------------------------------------------

  function OfProject(project: string): RawEvent -> bool {
    (e: RawEvent) => e.project == Some(project)
  }

  function LineOf(project: string): Report.RollupLine -> bool {
    (l: Report.RollupLine) => l.project == Some(project)
  }

  lemma {:induction false} OnlyLineOf(lines: seq<Report.RollupLine>, i: nat)
    requires i < |lines| && lines[i].project.Some?
    requires forall i, j :: 0 <= i < j < |lines| ==> lines[i].project != lines[j].project
    ensures Filter(lines, LineOf(lines[i].project.value)) == [lines[i]]
  {
    var n, p := |lines| - 1, lines[i].project.value;
    if i < n {
      OnlyLineOf(lines[..n], i);
    } else {
      forall l | l in lines[..n] ensures !LineOf(p)(l) {}
      FilterNone(lines[..n], LineOf(p));
    }
  }

  lemma {:induction false} ProjectColumn(lines: seq<Report.RollupLine>, rollup: Rollup, c: Report.RollupColumn,
                                         project: string)
    requires IsProjectLines(lines, rollup)
    ensures var mine := Filter(lines, LineOf(project));
            && Sum(Report.ColumnOf(mine, c)) == SumMap(ProjectTimes(rollup, c, Some(project)))
            && (mine == [] <==> !HasRow(rollup, Some(project)))
  {
    var mine := Filter(lines, LineOf(project));
    if HasRow(rollup, Some(project)) {
      assert HasLine(lines, Some(project));
      var i :| 0 <= i < |lines| && lines[i].project == Some(project);
      OnlyLineOf(lines, i);
      assert Report.ColumnOf(mine, c) == [c.Of(lines[i])];
      assert [c.Of(lines[i])][..0] == [];
    } else {
      assert !HasLine(lines, Some(project));
      forall l | l in lines ensures !LineOf(project)(l) { var i :| 0 <= i < |lines| && lines[i] == l; }
      FilterNone(lines, LineOf(project));
      assert Report.ColumnOf([], c) == [];
      assert ProjectTimes(rollup, c, Some(project)) == map[];
    }
  }

  /**
   The report of one project: its events and its rows, and no others. The sessions counted for its rows are
   those of every row there is.
   */
  method ProjectReport(db: Db, project: string, idle: int, policy: AgentPolicy) returns (r: Report.Report)
    ensures r.totalHuman ==
            TotalHumanSeconds(Report.ProjectSignals(Filter(Filter(db.events, Listed(None)), OfProject(project))), idle) +
            SumMap(ProjectTimes(db.rollup, Report.HumanColumnOf, Some(project)))
    ensures r.totalAgent ==
            Report.AgentTotal(Filter(EventsSince(db.events, None), OfProject(project)), policy) +
            SumMap(ProjectTimes(db.rollup, Report.AgentColumnOf, Some(project)))
    ensures r.sessionCount == |Report.SessionIds(Filter(Filter(db.events, Listed(None)), OfProject(project)))| +
            if HasRow(db.rollup, Some(project)) then |SessionsOf(db.rollup)| else 0
    ensures Report.TotalsItsLines(r)
  {
    assert RowsSince(db.rollup, None) == db.rollup;
    var all := RollupTotals(db.rollup, None);
    var events := Filter(EventsSince(db.events, None), OfProject(project));
    var lines := Filter(all, LineOf(project));
    r := Report.BuildMerged(events, idle, policy, lines, |SessionsOf(db.rollup)|);
    ghost var live := Filter(Filter(db.events, Listed(None)), OfProject(project));
    SelectInOrder(Filter(db.events, Listed(None)), OfProject(project));
    InOrderSameTime(live, idle);
    InOrderSameSessions(live);
    ProjectColumn(all, db.rollup, Report.HumanColumnOf, project);
    ProjectColumn(all, db.rollup, Report.AgentColumnOf, project);
  }

  function ProjectRows(rollup: Rollup, project: string): Rollup {
    map k | k in rollup && rollup[k].project == Some(project) :: rollup[k]
  }

  /** That count is the project's own if and only if every session with a row has one of the project. */
  lemma {:induction false} ProjectCountIff(rollup: Rollup, project: string)
    ensures |SessionsOf(rollup)| == |SessionsOf(ProjectRows(rollup, project))| <==>
            forall k :: k in rollup ==> k.session in SessionsOf(ProjectRows(rollup, project))
  {
    var all, mine := SessionsOf(rollup), SessionsOf(ProjectRows(rollup, project));
    assert mine <= all;
    assert |all - mine| == |all| - |mine|;
    if all - mine == {} { assert all == mine; }
    forall k | k in rollup ensures k.session in all {}
  }

  /** Reading the log back in time order leaves its human time alone. */
  lemma {:induction false} InOrderSameTime(events: seq<RawEvent>, idle: int)
    ensures TotalHumanSeconds(Report.ProjectSignals(Untimed(ByTime(events))), idle) ==
            TotalHumanSeconds(Report.ProjectSignals(events), idle)
  {
    SignalsInOrder(events, ProjectOf);
    SortTwice(Report.ProjectSignals(events));
  }

  lemma {:induction false} InOrderSameEvents(events: seq<RawEvent>, e: RawEvent)
    ensures e in Untimed(ByTime(events)) <==> e in events
  {
    var s := ByTime(events);
    ByTimeIsFaithful(events);
    SortMember(Timed(events), Stamped(e.at, e));
    if e in events {
      var i :| 0 <= i < |events| && events[i] == e;
      assert Timed(events)[i] == Stamped(e.at, e);
      var j :| 0 <= j < |s| && s[j] == Stamped(e.at, e);
      assert Untimed(s)[j] == e;
    }
    if e in Untimed(s) {
      var j :| 0 <= j < |s| && Untimed(s)[j] == e;
      assert s[j] == Stamped(e.at, e) && s[j] in s;
      var i :| 0 <= i < |events| && Timed(events)[i] == Stamped(e.at, e);
    }
  }

  /** A report reads, in time order, every event of a real session from its bound on, and no other. */
  lemma {:induction false} EventsSinceIff(events: seq<RawEvent>, since: Option<Since>, e: RawEvent)
    ensures e in EventsSince(events, since) <==>
            e in events && !IsProbe(e.session) && (since.Some? ==> since.value.at <= e.at)
    ensures forall i, j :: 0 <= i < j < |EventsSince(events, since)| ==>
              EventsSince(events, since)[i].at <= EventsSince(events, since)[j].at
  {
    var listed := Filter(events, Listed(since));
    InOrderSameEvents(listed, e);
    FilterMember(events, Listed(since), e);
    ByTimeIsFaithful(listed);
    SortSorted(Timed(listed));
  }

  /** A project's report reads exactly its own events of real sessions. */
  lemma {:induction false} ProjectEventsIff(events: seq<RawEvent>, project: string, e: RawEvent)
    ensures e in Filter(EventsSince(events, None), OfProject(project)) <==>
            e in events && !IsProbe(e.session) && e.project == Some(project)
  {
    EventsSinceIff(events, None, e);
    FilterMember(EventsSince(events, None), OfProject(project), e);
  }

  /** Of the compacted days it reads those from the bound's day on, in the order of the calendar. */
  lemma {:induction false} RowsSinceIff(rollup: Rollup, since: Since, k: Key, day: Calendar.Date, first: Calendar.Date)
    requires day.Valid() && first.Valid() && k.day == StoredAt.DateText(day) && since.day == StoredAt.DateText(first)
    ensures k in RowsSince(rollup, Some(since)) <==> k in rollup && !Calendar.DateLess(day, first)
    ensures RowsSince(rollup, None) == rollup
  {
    StoredAt.DateTextOrder(first, day);
    StoredAt.DateTextOrder(day, first);
    LexTrichotomy(k.day, since.day);
    CalendarIsTotal(day, first);
    hide StoredAt.DateText;
  }

  lemma {:induction false} CalendarIsTotal(a: Calendar.Date, b: Calendar.Date)
    ensures a == b || Calendar.DateLess(a, b) || Calendar.DateLess(b, a)
    ensures !(Calendar.DateLess(a, b) && Calendar.DateLess(b, a)) && !Calendar.DateLess(a, a)
  {
  }

  lemma {:induction false} InOrderSameSessions(events: seq<RawEvent>)
    ensures Report.SessionIds(Untimed(ByTime(events))) == Report.SessionIds(events)
  {
    forall x ensures x in Report.SessionIds(Untimed(ByTime(events))) <==> x in Report.SessionIds(events) {
      SessionOfAnEvent(Untimed(ByTime(events)), x);
      SessionOfAnEvent(events, x);
      forall e ensures e in Untimed(ByTime(events)) <==> e in events { InOrderSameEvents(events, e); }
    }
  }

  lemma {:induction false} SessionOfAnEvent(events: seq<RawEvent>, x: string)
    ensures x in Report.SessionIds(events) <==> exists e :: e in events && e.session == x
  {
    if x in Report.SessionIds(events) {
      var i :| 0 <= i < |events| && events[i].session == x;
      assert events[i] in events;
    }
  }

  lemma {:induction false} NoLinesNoSessions(lines: seq<Report.RollupLine>, rollup: Rollup)
    requires IsProjectLines(lines, rollup) && lines == []
    ensures SessionsOf(rollup) == {}
  {
    forall k | k in rollup ensures false {
      assert HasRow(rollup, rollup[k].project) && !HasLine(lines, rollup[k].project);
    }
  }
}
