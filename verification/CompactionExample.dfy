/** Two sessions in one hour: compaction counts their overlap twice. */
module CompactionExample {
  import opened Prelude
  import opened Timeline
  import opened MapSums
  import opened Accounting
  import opened StoredAt
  import opened Events
  import Report
  import opened TokenTable
  import opened EventStore
  import opened CompactionDays
  import opened RollupRows
  import opened StoreReport
  import opened CompactionTime

  const IDLE: int := 300_000_000_000

  function Prompt(id: string, at: int, session: string): RawEvent {
    RawEvent(id, at, session, UserPrompt, None, None, LineageTag(None, None, None, None, None))
  }

  function At(t: int, seconds: nat): Stamped<Option<string>> {
    Stamped(t + seconds * NANOS, None)
  }

  /** From midnight `t` on, session `a` prompts after 0 s and 200 s, session `b` after 100 s and 300 s. */
  function OfA(t: int): seq<RawEvent> {
    [Prompt("1", At(t, 0).at, "a"), Prompt("3", At(t, 200).at, "a")]
  }

  function OfB(t: int): seq<RawEvent> {
    [Prompt("2", At(t, 100).at, "b"), Prompt("4", At(t, 300).at, "b")]
  }

  function Log(t: int): seq<RawEvent> {
    [OfA(t)[0], OfB(t)[0], OfA(t)[1], OfB(t)[1]]
  }

  ghost predicate IsMidnight(t: int) {
    InRange(t) && Midnight(t) == t
  }

  lemma {:induction false} SignalsOfPrompts(es: seq<RawEvent>, s: seq<Stamped<Option<string>>>)
    requires |es| == |s|
    requires forall i :: 0 <= i < |es| ==> es[i].kind == UserPrompt && s[i] == Stamped(es[i].at, es[i].project)
    ensures Report.ProjectSignals(es) == s
  {
    if es != [] {
      var n := |es| - 1;
      SignalsOfPrompts(es[..n], s[..n]);
      assert s == s[..n] + [s[n]];
    }
  }

  lemma {:induction false} OneMoreSignal(s: seq<Stamped<Option<string>>>, t: int, i: nat, j: nat)
    requires s != [] && s[|s| - 1] == At(t, i) && i < j <= i + 300
    ensures SumSeconds(GapsOf(s + [At(t, j)], IDLE)) == SumSeconds(GapsOf(s, IDLE)) + j - i
  {
    Cells.GapsSnoc(s, At(t, j), IDLE);
  }

  lemma {:induction false} TwoSignals(t: int, i: nat, j: nat)
    requires i < j <= i + 300
    ensures TotalHumanSeconds([At(t, i), At(t, j)], IDLE) == j - i
  {
    var s := [At(t, i)];
    OneMoreSignal(s, t, i, j);
    SortOfSorted(s + [At(t, j)]);
    assert s + [At(t, j)] == [At(t, i), At(t, j)];
  }

  lemma {:induction false} FourSignals(t: int)
    ensures TotalHumanSeconds([At(t, 0), At(t, 100), At(t, 200), At(t, 300)], IDLE) == 300
  {
    var one := [At(t, 0)];
    var two := one + [At(t, 100)];
    var three := two + [At(t, 200)];
    OneMoreSignal(one, t, 0, 100);
    OneMoreSignal(two, t, 100, 200);
    OneMoreSignal(three, t, 200, 300);
    SortOfSorted(three + [At(t, 300)]);
    assert three + [At(t, 300)] == [At(t, 0), At(t, 100), At(t, 200), At(t, 300)];
  }

  lemma {:induction false} SameDay(t: int, r: int)
    requires Midnight(t) == t && 0 <= r < DAY
    ensures (t + r) / DAY == t / DAY && Midnight(t + DAY) == t + DAY
  {
  }

  lemma {:induction false} WholeLogIsSwept(t: int, cursor: string)
    requires IsMidnight(t) && cursor == "9"
    ensures Bound(Log(t), cursor, t + DAY) == t + DAY
    ensures Filter(Log(t), Eligible(cursor, t + DAY)) == Log(t) && Filter(Log(t), Kept(cursor, t + DAY)) == []
    ensures Filter(Log(t), IsReal) == Log(t)
  {
    SameDay(t, 0);
    BoundIsAligned(Log(t), cursor, t + DAY);
    forall e | e in Log(t) ensures Eligible(cursor, t + DAY)(e) && !HoldsBack(e, cursor) {}
    FilterAll(Log(t), Eligible(cursor, t + DAY));
    FilterNone(Log(t), Kept(cursor, t + DAY));
    FilterAll(Log(t), IsReal);
  }

  lemma {:induction false} KeysOfLog(t: int, e: RawEvent)
    requires IsMidnight(t) && e in Log(t)
    ensures KeyOf(e) == Key(DayText(t), e.session)
  {
    DayTextIsDay(e.at, t);
  }

  lemma {:induction false} FilterFour<T>(a: T, b: T, c: T, d: T, p: T -> bool)
    requires p(a) == p(c) && p(b) == p(d)
    ensures Filter([a, b, c, d], p) ==
            if p(a) && p(b) then [a, b, c, d] else if p(a) then [a, c] else if p(b) then [b, d] else []
  {
    FilterConcat([a, b], [c, d], p);
    assert [a, b] + [c, d] == [a, b, c, d];
  }

  lemma {:induction false} EventsPerKey(t: int, k: Key)
    requires IsMidnight(t)
    ensures Filter(Log(t), HasKey(k)) ==
            if k == Key(DayText(t), "a") then OfA(t) else if k == Key(DayText(t), "b") then OfB(t) else []
  {
    KeysOfLog(t, OfA(t)[0]);
    KeysOfLog(t, OfA(t)[1]);
    KeysOfLog(t, OfB(t)[0]);
    KeysOfLog(t, OfB(t)[1]);
    FilterFour(OfA(t)[0], OfB(t)[0], OfA(t)[1], OfB(t)[1], HasKey(k));
  }

  lemma {:induction false} TimePerKey(t: int, k: Key)
    requires IsMidnight(t)
    ensures TotalHumanSeconds(Report.ProjectSignals(Filter(Log(t), HasKey(k))), IDLE) ==
            if k == Key(DayText(t), "a") || k == Key(DayText(t), "b") then 200 else 0
  {
    hide Log;
    hide HasKey;
    hide GapsOf;
    EventsPerKey(t, k);
    SignalsOfPrompts(OfA(t), [At(t, 0), At(t, 200)]);
    SignalsOfPrompts(OfB(t), [At(t, 100), At(t, 300)]);
    TwoSignals(t, 0, 200);
    TwoSignals(t, 100, 300);
    NoSignals();
  }

  lemma {:induction false} NoSignals()
    ensures TotalHumanSeconds(Report.ProjectSignals([]), IDLE) == 0
  {
  }

  lemma {:induction false} RowsOfLog(t: int)
    requires IsMidnight(t)
    ensures SumMap(RowTimes(Rolled(map[], Groups(ByTime(Log(t))), [], IDLE), Report.HumanColumnOf)) == 400
  {
    var rows := RowTimes(Rolled(map[], Groups(ByTime(Log(t))), [], IDLE), Report.HumanColumnOf);
    var a, b := Key(DayText(t), "a"), Key(DayText(t), "b");
    var want: map<Key, int> := AddTo(AddTo(map[], a, 200), b, 200);
    forall k ensures Get(rows, k) == Get(want, k) {
      RowTimesMove(map[], Log(t), [], Report.HumanColumnOf, IDLE, k);
      TimePerKey(t, k);
    }
    SumMapExtensional(rows, want);
    SumMapAddTo(map[], a, 200);
    SumMapAddTo(AddTo(map[], a, 200), b, 200);
  }

  lemma {:induction false} PassOverLog(t: int, cursor: string)
    requires IsMidnight(t) && cursor == "9"
    ensures var db := EMPTY.(events := Log(t));
            Compacted(db, Some(cursor), t + DAY, IDLE) ==
            db.(events := [], rollup := Rolled(map[], Groups(ByTime(Log(t))), [], IDLE))
  {
    WholeLogIsSwept(t, cursor);
  }

  lemma {:induction false} ReportedBefore(t: int)
    requires IsMidnight(t)
    ensures ReportedHuman(EMPTY.(events := Log(t)), None, IDLE) == 300
  {
    WholeLogIsSwept(t, "9");
    ReportedOfAll(EMPTY.(events := Log(t)), IDLE);
    FourSignals(t);
    SignalsOfPrompts(Log(t), [At(t, 0), At(t, 100), At(t, 200), At(t, 300)]);
    SumMapZero(RowTimes(map[], Report.HumanColumnOf));
  }

  /** Compaction is not lossless across sessions: on any day, these 300 reported seconds become 400. */
  lemma {:induction false} CompactionCanAddTime(t: int, cursor: string)
    requires IsMidnight(t) && cursor == "9"
    ensures var db := EMPTY.(events := Log(t));
            && ReportedHuman(db, None, IDLE) == 300
            && ReportedHuman(Compacted(db, Some(cursor), t + DAY, IDLE), None, IDLE) == 400
  {
    hide ReportedHuman;
    hide Compacted;
    var rolled := Rolled(map[], Groups(ByTime(Log(t))), [], IDLE);
    ReportedBefore(t);
    PassOverLog(t, cursor);
    RowsOfLog(t);
    ReportedOfAll(EMPTY.(rollup := rolled), IDLE);
  }
}
