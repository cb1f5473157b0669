/**
 The local store: the raw event log, the daily rollup it is compacted into, and the token rows. Each
 method is one transaction. Event times stand for their canonical text, whose order is time order.
 */
module EventStore {
  import opened Prelude
  import opened Timeline
  import opened MapSums
  import opened TextOrder
  import opened Accounting
  import opened Calendar
  import opened StoredAt
  import opened Events
  import opened TokenTable

  datatype Key = Key(day: string, session: string)

  datatype RollupRow = RollupRow(project: Option<string>, human: int, active: int, prompts: nat,
                                 input: nat, output: nat, cost: nat)
  {
    function Tokens(c: Column): nat {
      match c
      case Input => input
      case Output => output
      case Cost => cost
    }
  }

  type Rollup = map<Key, RollupRow>

  datatype Db = Db(events: seq<RawEvent>, rollup: Rollup, tokens: seq<TokenRow>, backfilled: bool)

  const EMPTY: Db := Db([], map[], [], false)

  // ---- reserved probe sessions -------------------------------------------------------------

  const PROBE_PREFIX: string := "dira-probe-"

  /** `LIKE 'dira-probe-%'`: SQLite ignores ASCII case, and `%` also matches nothing at all. */
  predicate IsProbe(session: string) {
    |session| >= 11 && forall i :: 0 <= i < 11 ==> LowerAscii(session[i]) == PROBE_PREFIX[i]
  }

  // ---- what a compaction pass may touch ----------------------------------------------------

  function Midnight(t: int): int {
    t / DAY * DAY
  }

  /** `YYYY-MM-DD` of the event's UTC day. */
  function DayText(at: int): string {
    if InRange(at) then DateText(DateOf(at / DAY)) else ""
  }

  function KeyOf(e: RawEvent): Key {
    Key(DayText(e.at), e.session)
  }

  predicate HoldsBack(e: RawEvent, cursor: string) {
    LexLess(cursor, e.id) && !IsProbe(e.session)
  }

  /** The aligned bound: the cutoff's midnight, or the midnight of an older unsynced event's day. */
  function Bound(events: seq<RawEvent>, cursor: string, cutoff: int): int {
    if events == [] then Midnight(cutoff)
    else
      var b, e := Bound(events[..|events| - 1], cursor, cutoff), events[|events| - 1];
      if HoldsBack(e, cursor) && Midnight(e.at) < b then Midnight(e.at) else b
  }

  /** Synced and old. */
  predicate IsSwept(e: RawEvent, cursor: string, bound: int) {
    LexLeq(e.id, cursor) && e.at < bound
  }

  function Kept(cursor: string, bound: int): RawEvent -> bool {
    e => !IsSwept(e, cursor, bound)
  }

  function Eligible(cursor: string, bound: int): RawEvent -> bool {
    e => IsSwept(e, cursor, bound) && !IsProbe(e.session)
  }

  function Timed(events: seq<RawEvent>): (r: seq<Stamped<RawEvent>>)
    ensures |r| == |events|
  {
    Apply((e: RawEvent) => Stamped(e.at, e), events)
  }

  /** `SELECT … ORDER BY at`. */
  function ByTime(events: seq<RawEvent>): seq<Stamped<RawEvent>> {
    SortByTime(Timed(events))
  }

  function Untimed(s: seq<Stamped<RawEvent>>): (r: seq<RawEvent>)
    ensures |r| == |s|
  {
    Apply((x: Stamped<RawEvent>) => x.tag, s)
  }

  // ---- grouping by day and session ---------------------------------------------------------

  datatype Acc = Acc(project: Option<string>, signals: seq<Stamped<Option<string>>>,
                     activity: seq<Stamped<()>>, prompts: nat)
  {
    predicate Idle() {
      signals == [] && activity == []
    }
  }

  function AccStep(a: Acc, e: RawEvent): Acc {
    Acc(if a.project.None? then e.project else a.project,
        if e.kind.IsHumanSignal() then a.signals + [Stamped(e.at, e.project)] else a.signals,
        if e.kind.IsAgentActivity() then a.activity + [Stamped(e.at, ())] else a.activity,
        if e.kind.IsHumanSignal() then a.prompts + 1 else a.prompts)
  }

  const NO_EVENTS: Acc := Acc(None, [], [], 0)

  function AccOf(s: seq<Stamped<RawEvent>>): Acc {
    if s == [] then NO_EVENTS else AccStep(AccOf(s[..|s| - 1]), s[|s| - 1].tag)
  }

  function InGroup(k: Key): Stamped<RawEvent> -> bool {
    (x: Stamped<RawEvent>) => KeyOf(x.tag) == k
  }

  function GroupOf(s: seq<Stamped<RawEvent>>, k: Key): seq<Stamped<RawEvent>> {
    Filter(s, InGroup(k))
  }

  function GroupKeys(s: seq<Stamped<RawEvent>>): set<Key> {
    if s == [] then {} else GroupKeys(s[..|s| - 1]) + {KeyOf(s[|s| - 1].tag)}
  }

  function Groups(s: seq<Stamped<RawEvent>>): map<Key, Acc> {
    map k | k in GroupKeys(s) :: AccOf(GroupOf(s, k))
  }

  lemma {:induction false} GroupSnoc(s: seq<Stamped<RawEvent>>, x: Stamped<RawEvent>, k: Key)
    ensures AccOf(GroupOf(s + [x], k)) ==
            if KeyOf(x.tag) == k then AccStep(AccOf(GroupOf(s, k)), x.tag) else AccOf(GroupOf(s, k))
  {
    FilterSnoc(s, x, InGroup(k));
    var g := GroupOf(s, k);
    assert (g + [x])[..|g|] == g;
  }

  lemma {:induction false} GroupKeysSnoc(s: seq<Stamped<RawEvent>>, x: Stamped<RawEvent>)
    ensures GroupKeys(s + [x]) == GroupKeys(s) + {KeyOf(x.tag)}
  {
    assert (s + [x])[..|s|] == s;
  }

  lemma {:induction false} NoGroup(s: seq<Stamped<RawEvent>>, k: Key)
    ensures k in GroupKeys(s) <==> GroupOf(s, k) != []
  {
    if s != [] { NoGroup(s[..|s| - 1], k); }
  }

  function AccAt(groups: map<Key, Acc>, k: Key): Acc {
    if k in groups then groups[k] else NO_EVENTS
  }

  lemma {:induction false} AccAtGroup(s: seq<Stamped<RawEvent>>, k: Key)
    ensures AccAt(Groups(s), k) == AccOf(GroupOf(s, k))
  {
    NoGroup(s, k);
  }

  lemma {:induction false} GroupsSnoc(s: seq<Stamped<RawEvent>>, x: Stamped<RawEvent>)
    ensures var k := KeyOf(x.tag);
            Groups(s + [x]) == Groups(s)[k := AccStep(AccAt(Groups(s), k), x.tag)]
  {
    hide AccOf;
    hide GroupOf;
    hide AccStep;
    hide KeyOf;
    GroupKeysSnoc(s, x);
    AccAtGroup(s, KeyOf(x.tag));
    GroupSnoc(s, x, KeyOf(x.tag));
    forall k | k in GroupKeys(s + [x]) && k != KeyOf(x.tag)
      ensures k in Groups(s) && Groups(s + [x])[k] == Groups(s)[k]
    {
      GroupSnoc(s, x, k);
    }
    MapByPoints(Groups(s), Groups(s + [x]), KeyOf(x.tag));
  }

  method GroupByDay(s: seq<Stamped<RawEvent>>) returns (groups: map<Key, Acc>)
    ensures groups == Groups(s)
  {
    groups := map[];
    for i := 0 to |s|
      invariant groups == Groups(s[..i])
    {
      var e := s[i].tag;
      assert s[..i + 1] == s[..i] + [s[i]];
      GroupsSnoc(s[..i], s[i]);
      groups := groups[KeyOf(e) := AccStep(AccAt(groups, KeyOf(e)), e)];
    }
    assert s[..|s|] == s;
  }

  // ---- the rollup upsert -------------------------------------------------------------------

  function Max(a: nat, b: nat): nat {
    if a >= b then a else b
  }

  /** Time and prompts add up; tokens keep the larger copy; the first known project stays. */
  function Merge(row: RollupRow, add: RollupRow): RollupRow {
    RollupRow(if row.project.Some? then row.project else add.project,
              row.human + add.human, row.active + add.active, row.prompts + add.prompts,
              Max(row.input, add.input), Max(row.output, add.output), Max(row.cost, add.cost))
  }

  function RowOf(a: Acc, k: Key, tokens: seq<TokenRow>, idle: int): RollupRow {
    RollupRow(a.project, TotalHumanSeconds(a.signals, idle), ActiveSeconds(a.activity, idle), a.prompts,
              DaySum(tokens, k.day, k.session, Input), DaySum(tokens, k.day, k.session, Output),
              DaySum(tokens, k.day, k.session, Cost))
  }

  function Upserted(rollup: Rollup, k: Key, row: RollupRow): Rollup {
    rollup[k := if k in rollup then Merge(rollup[k], row) else row]
  }

  /** The rollup after one pass has written every group that did something. */
  function Rolled(rollup: Rollup, groups: map<Key, Acc>, tokens: seq<TokenRow>, idle: int): Rollup {
    map k | k in rollup.Keys + groups.Keys && (k in rollup || !groups[k].Idle()) ::
      if k in groups && !groups[k].Idle()
      then (if k in rollup then Merge(rollup[k], RowOf(groups[k], k, tokens, idle)) else RowOf(groups[k], k, tokens, idle))
      else rollup[k]
  }

  method WriteGroups(rollup: Rollup, groups: map<Key, Acc>, tokens: seq<TokenRow>, idle: int) returns (out: Rollup)
    ensures out == Rolled(rollup, groups, tokens, idle)
  {
    out := rollup;
    var todo := groups.Keys;
    ghost var all := Rolled(rollup, groups, tokens, idle);
    while todo != {}
      invariant todo <= groups.Keys
      invariant forall k :: k in todo || k !in groups ==> (k in out <==> k in rollup) && (k in out ==> out[k] == rollup[k])
      invariant forall k :: k in groups && k !in todo ==> (k in out <==> k in all) && (k in out ==> out[k] == all[k])
      decreases todo
    {
      var k :| k in todo;
      todo := todo - {k};
      if groups[k].Idle() {
        continue;
      }
      out := Upserted(out, k, RowOf(groups[k], k, tokens, idle));
    }
  }

  // ---- the transactions --------------------------------------------------------------------

  predicate HasEvent(events: seq<RawEvent>, id: string) {
    exists i :: 0 <= i < |events| && events[i].id == id
  }

  function Compacted(db: Db, cursor: Option<string>, cutoff: int, idle: int): Db {
    if cursor.None? then db
    else
      var bound := Bound(db.events, cursor.value, cutoff);
      var eligible := Filter(db.events, Eligible(cursor.value, bound));
      if eligible == [] then db
      else db.(events := Filter(db.events, Kept(cursor.value, bound)),
               rollup := Rolled(db.rollup, Groups(ByTime(eligible)), db.tokens, idle))
  }

  /** A row the first token-less compactions wrote, filled from what the token table holds. */
  function Filled(k: Key, row: RollupRow, tokens: seq<TokenRow>): RollupRow {
    if row.input == 0 && row.output == 0 && row.cost == 0
    then row.(input := DaySum(tokens, k.day, k.session, Input), output := DaySum(tokens, k.day, k.session, Output),
              cost := DaySum(tokens, k.day, k.session, Cost))
    else row
  }

  function Backfilled(db: Db): Db {
    if db.backfilled then db
    else db.(rollup := map k | k in db.rollup :: Filled(k, db.rollup[k], db.tokens), backfilled := true)
  }

  function Appended(db: Db, e: RawEvent): Db {
    if HasEvent(db.events, e.id) then db else db.(events := db.events + [e])
  }

  /** A session's token total as reported: a rollup row counts only for a day without token rows. */
  function Counted(rollup: Rollup, tokens: seq<TokenRow>, session: string, c: Column): map<Key, int> {
    map k | k in rollup && k.session == session && !LiveDay(tokens, k.day, session) :: rollup[k].Tokens(c)
  }

  class Store {
    var events: seq<RawEvent>
    var rollup: Rollup
    var tokens: seq<TokenRow>
    var backfilled: bool

    constructor ()
      ensures Contents() == EMPTY
    {
      events, rollup, tokens, backfilled := [], map[], [], false;
    }

    function Contents(): Db
      reads this
    {
      Db(events, rollup, tokens, backfilled)
    }

    /** The primary key refuses a second event with the same id. */
    method Append(e: RawEvent) returns (ok: bool)
      modifies this
      ensures Contents() == Appended(old(Contents()), e)
      ensures ok == !HasEvent(old(events), e.id)
    {
      ok := !HasEvent(events, e.id);
      if ok {
        events := events + [e];
      }
    }

    method UpsertTokenUsage(row: TokenRow)
      modifies this
      ensures Contents() == old(Contents()).(tokens := InsertOrIgnore(old(tokens), row))
    {
      if !HasId(tokens, row.id) {
        tokens := tokens + [row];
      }
    }

    /** Rolls up and prunes what is both synced and old, so nothing before a first sync; returns how many raw events went. */
    method Compact(cursor: Option<string>, cutoff: int, idle: int) returns (deleted: nat)
      modifies this
      ensures Contents() == Compacted(old(Contents()), cursor, cutoff, idle)
      ensures deleted == |old(events)| - |events|
      ensures cursor.None? ==> deleted == 0 && events == old(events) && rollup == old(rollup) && tokens == old(tokens)
    {
      if cursor.None? {
        return 0;
      }
      var bound := Bound(events, cursor.value, cutoff);
      var eligible := Filter(events, Eligible(cursor.value, bound));
      if eligible == [] {
        return 0;
      }
      var groups := GroupByDay(ByTime(eligible));
      rollup := WriteGroups(rollup, groups, tokens, idle);
      var kept := Filter(events, Kept(cursor.value, bound));
      deleted := |events| - |kept|;
      events := kept;
    }

    /** One-shot: rows that carry no tokens get what the token table still holds for them. */
    method BackfillRollupTokens()
      modifies this
      ensures Contents() == Backfilled(old(Contents()))
    {
      if backfilled {
        return;
      }
      var todo := rollup.Keys;
      while todo != {}
        invariant todo <= rollup.Keys == old(rollup).Keys && tokens == old(tokens) && events == old(events) && !backfilled
        invariant forall k :: k in rollup ==>
                    rollup[k] == if k in todo then old(rollup)[k] else Filled(k, old(rollup)[k], tokens)
        decreases todo
      {
        var k :| k in todo;
        todo := todo - {k};
        var row := rollup[k];
        if row.input == 0 && row.output == 0 && row.cost == 0 {
          rollup := rollup[k := row.(input := DaySum(tokens, k.day, k.session, Input),
                                     output := DaySum(tokens, k.day, k.session, Output),
                                     cost := DaySum(tokens, k.day, k.session, Cost))];
        }
      }
      backfilled := true;
    }

    /** Wipes the three tables; the backfill flag stays. */
    method Nuke() returns (eventsDeleted: nat, tokensDeleted: nat)
      modifies this
      ensures Contents() == EMPTY.(backfilled := old(backfilled))
      ensures eventsDeleted == |old(events)| && tokensDeleted == |old(tokens)|
    {
      eventsDeleted, tokensDeleted := |events|, |tokens|;
      events, rollup, tokens := [], map[], [];
    }

    /** `zavet_session_totals` in one token column. */
    method SessionTokens(session: string, c: Column) returns (total: int)
      ensures total == SumMap(Counted(rollup, tokens, session, c)) + SessionSum(tokens, session, c)
    {
      var rows := Counted(rollup, tokens, session, c);
      total := SumValues(rows);
      total := total + SessionSum(tokens, session, c);
    }
  }

  method SumValues(m: map<Key, int>) returns (total: int)
    ensures total == SumMap(m)
  {
    total := 0;
    var rest := m;
    while rest != map[]
      invariant total + SumMap(rest) == SumMap(m)
      decreases |rest|
    {
      var k :| k in rest;
      SumMapRemove(rest, k);
      total := total + rest[k];
      rest := rest - {k};
    }
  }
}
