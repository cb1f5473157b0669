/** What every run of the store keeps: no prompt is lost or doubled, and tokens are counted once. */
module CompactionRuns {
  import opened Prelude
  import opened Timeline
  import opened MapSums
  import opened StoredAt
  import opened Events
  import opened TokenTable
  import opened TextOrder
  import opened EventStore
  import opened CompactionDays

  datatype Op =
    | Append(event: RawEvent)
    | UpsertTokenUsage(row: TokenRow)
    | Compact(cursor: Option<string>, cutoff: int, idle: int)
    | BackfillRollupTokens
    | Nuke

  function Step(db: Db, op: Op): Db {
    match op
    case Append(e) => Appended(db, e)
    case UpsertTokenUsage(row) => db.(tokens := InsertOrIgnore(db.tokens, row))
    case Compact(cursor, cutoff, idle) => Compacted(db, cursor, cutoff, idle)
    case BackfillRollupTokens => Backfilled(db)
    case Nuke => EMPTY.(backfilled := db.backfilled)
  }

  function Run(ops: seq<Op>): Db {
    if ops == [] then EMPTY else Step(Run(ops[..|ops| - 1]), ops[|ops| - 1])
  }

  /** Every event the log took in since the last nuke, compacted since or not. */
  function EverAppended(ops: seq<Op>): seq<RawEvent> {
    if ops == [] then []
    else
      var before, op := EverAppended(ops[..|ops| - 1]), ops[|ops| - 1];
      if op.Nuke? then []
      else if op.Append? && !HasEvent(Run(ops[..|ops| - 1]).events, op.event.id) then before + [op.event]
      else before
  }

  // ---- what leaves the log -----------------------------------------------------------------

  /** The only steps that may take `e` out of the log: a nuke, or a pass of a cursor that reached it. */
  predicate MayDrop(op: Op, e: RawEvent) {
    op.Nuke? || (op.Compact? && op.cursor.Some? && LexLeq(e.id, op.cursor.value) && e.at < Midnight(op.cutoff))
  }

  lemma {:induction false} StepDrops(db: Db, op: Op, e: RawEvent)
    requires e in db.events && e !in Step(db, op).events
    ensures MayDrop(op, e)
  {
    if op.Compact? { OnlySyncedLeave(db, op.cursor, op.cutoff, op.idle, e); }
  }

  /** An event once in the log stays there until a nuke or a pass whose cursor reached it. */
  lemma {:induction false} EventsStayUntilSynced(ops: seq<Op>, i: nat, j: nat, e: RawEvent)
    requires i <= j <= |ops| && e in Run(ops[..i]).events
    requires forall k :: i <= k < j ==> !MayDrop(ops[k], e)
    ensures e in Run(ops[..j]).events
  {
    hide *;
    if i < j {
      EventsStayUntilSynced(ops, i, j - 1, e);
      RunUpTo(ops, j - 1);
      if e !in Run(ops[..j]).events { StepDrops(Run(ops[..j - 1]), ops[j - 1], e); }
    }
  }

  lemma {:induction false} RunUpTo(ops: seq<Op>, n: nat)
    requires n < |ops|
    ensures Run(ops[..n + 1]) == Step(Run(ops[..n]), ops[n])
  {
    assert ops[..n + 1][..n] == ops[..n];
    hide Step;
  }

  // ---- prompts -----------------------------------------------------------------------------

  predicate IsPrompt(e: RawEvent) {
    e.kind.IsHumanSignal() && !IsProbe(e.session)
  }

  function PromptCount(events: seq<RawEvent>): nat {
    |Filter(events, IsPrompt)|
  }

  function RowPrompts(rollup: Rollup): map<Key, int> {
    map k | k in rollup :: rollup[k].prompts
  }

  ghost function RollupPrompts(rollup: Rollup): int {
    SumMap(RowPrompts(rollup))
  }

  /** The human signals of a batch, counted per row key. */
  function PromptsByKey(s: seq<Stamped<RawEvent>>): map<Key, int> {
    if s == [] then map[]
    else
      var e := s[|s| - 1].tag;
      AddTo(PromptsByKey(s[..|s| - 1]), KeyOf(e), if e.kind.IsHumanSignal() then 1 else 0)
  }

  function StampedHuman(x: Stamped<RawEvent>): bool {
    x.tag.kind.IsHumanSignal()
  }

  lemma {:induction false} PromptsByKeyAddUp(s: seq<Stamped<RawEvent>>)
    ensures SumMap(PromptsByKey(s)) == |Filter(s, StampedHuman)|
  {
    if s != [] {
      var t, e := s[..|s| - 1], s[|s| - 1].tag;
      PromptsByKeyAddUp(t);
      SumMapAddTo(PromptsByKey(t), KeyOf(e), if e.kind.IsHumanSignal() then 1 else 0);
    }
  }

  lemma {:induction false} GroupPrompts(s: seq<Stamped<RawEvent>>, k: Key)
    ensures Get(PromptsByKey(s), k) == AccOf(GroupOf(s, k)).prompts
  {
    if s != [] {
      var t, x := s[..|s| - 1], s[|s| - 1];
      GroupPrompts(t, k);
      GroupSnoc(t, x, k);
      assert s == t + [x];
    }
  }

  /** A group's prompts are its signals, so a group without signals has none. */
  lemma {:induction false} PromptsAreSignals(s: seq<Stamped<RawEvent>>)
    ensures AccOf(s).prompts == |AccOf(s).signals|
  {
    if s != [] { PromptsAreSignals(s[..|s| - 1]); }
  }

  lemma {:induction false} RowPromptsMove(rollup: Rollup, s: seq<Stamped<RawEvent>>, tokens: seq<TokenRow>, idle: int, k: Key)
    ensures Get(RowPrompts(Rolled(rollup, Groups(s), tokens, idle)), k) ==
            Get(RowPrompts(rollup), k) + Get(PromptsByKey(s), k)
  {
    GroupPrompts(s, k);
    AccAtGroup(s, k);
    PromptsAreSignals(GroupOf(s, k));
  }

  /** A pass moves exactly the batch's prompts into the rollup, skipped groups included. */
  lemma {:induction false} PassMovesPrompts(rollup: Rollup, s: seq<Stamped<RawEvent>>, tokens: seq<TokenRow>, idle: int)
    ensures RollupPrompts(Rolled(rollup, Groups(s), tokens, idle)) ==
            RollupPrompts(rollup) + |Filter(s, StampedHuman)|
  {
    var after := RowPrompts(Rolled(rollup, Groups(s), tokens, idle));
    forall k ensures Get(after, k) == Get(RowPrompts(rollup), k) + Get(PromptsByKey(s), k) {
      RowPromptsMove(rollup, s, tokens, idle, k);
    }
    SumMapSplit(after, RowPrompts(rollup), PromptsByKey(s));
    PromptsByKeyAddUp(s);
  }

  lemma {:induction false} TimedHuman(events: seq<RawEvent>)
    ensures |Filter(Timed(events), StampedHuman)| == |Filter(events, (e: RawEvent) => e.kind.IsHumanSignal())|
  {
    if events != [] {
      TimedHuman(events[..|events| - 1]);
      assert Timed(events)[..|events| - 1] == Timed(events[..|events| - 1]);
    }
  }

  lemma {:induction false} BatchPrompts(events: seq<RawEvent>)
    requires forall e :: e in events ==> !IsProbe(e.session)
    ensures |Filter(ByTime(events), StampedHuman)| == PromptCount(events)
  {
    SortFilter(Timed(events), StampedHuman);
    TimedHuman(events);
    FilterAgree(events, (e: RawEvent) => e.kind.IsHumanSignal(), IsPrompt);
  }

  /** A selection splits over two disjoint covers of it. */
  lemma {:induction false} CountSplit<T>(s: seq<T>, p: T -> bool, q: T -> bool, r: T -> bool)
    requires forall x :: x in s && p(x) ==> q(x) != r(x)
    ensures |Filter(s, p)| == |Filter(Filter(s, q), p)| + |Filter(Filter(s, r), p)|
  {
    if s != [] {
      var t, l := s[..|s| - 1], s[|s| - 1];
      assert l in s;
      CountSplit(t, p, q, r);
      if q(l) { FilterSnoc(Filter(t, q), l, p); }
      if r(l) { FilterSnoc(Filter(t, r), l, p); }
    }
  }

  /** A pass neither loses a prompt nor counts one twice. */
  lemma {:induction false} CompactKeepsPrompts(db: Db, cursor: Option<string>, cutoff: int, idle: int)
    ensures var after := Compacted(db, cursor, cutoff, idle);
            RollupPrompts(after.rollup) + PromptCount(after.events) == RollupPrompts(db.rollup) + PromptCount(db.events)
  {
    var after := Compacted(db, cursor, cutoff, idle);
    if after != db {
      var c, bound := cursor.value, Bound(db.events, cursor.value, cutoff);
      var eligible := Filter(db.events, Eligible(c, bound));
      forall e | e in eligible ensures !IsProbe(e.session) { FilterMember(db.events, Eligible(c, bound), e); }
      PassMovesPrompts(db.rollup, ByTime(eligible), db.tokens, idle);
      BatchPrompts(eligible);
      CountSplit(db.events, IsPrompt, Kept(c, bound), Eligible(c, bound));
    }
  }

  lemma {:induction false} BackfillKeepsPrompts(db: Db)
    ensures RollupPrompts(Backfilled(db).rollup) == RollupPrompts(db.rollup)
  {
    assert RowPrompts(Backfilled(db).rollup) == RowPrompts(db.rollup);
  }

  /** Prompt conservation: rollup prompts plus prompts still in the log are the prompts ever appended. */
  lemma {:induction false} PromptsAreConserved(ops: seq<Op>)
    ensures RollupPrompts(Run(ops).rollup) + PromptCount(Run(ops).events) == PromptCount(EverAppended(ops))
  {
    if ops != [] {
      var t, op := ops[..|ops| - 1], ops[|ops| - 1];
      PromptsAreConserved(t);
      var db := Run(t);
      match op
      case Append(e) => 
      case UpsertTokenUsage(row) =>
      case Compact(cursor, cutoff, idle) => CompactKeepsPrompts(db, cursor, cutoff, idle);
      case BackfillRollupTokens => BackfillKeepsPrompts(db);
      case Nuke => 
    }
  }

  // ---- tokens ------------------------------------------------------------------------------

  function DayTokens(db: Db, k: Key, c: Column): nat {
    DaySum(db.tokens, k.day, k.session, c)
  }

  /** No rollup row claims more tokens than its day's rows hold. */
  ghost predicate TokensAreCopies(db: Db) {
    forall k, c :: k in db.rollup ==> db.rollup[k].Tokens(c) <= DayTokens(db, k, c)
  }

  lemma {:induction false} RolledTokens(rollup: Rollup, groups: map<Key, Acc>, tokens: seq<TokenRow>, idle: int, k: Key, c: Column)
    requires k in Rolled(rollup, groups, tokens, idle)
    ensures var row := Rolled(rollup, groups, tokens, idle)[k];
            row.Tokens(c) ==
            var copied := if k in rollup then rollup[k].Tokens(c) else 0;
            if k in groups && !groups[k].Idle() then Max(copied, DaySum(tokens, k.day, k.session, c)) else copied
  {
  }

  /** Right after a pass, every row it wrote carries exactly its day's token sums. */
  lemma {:induction false} WrittenRowsAreExact(db: Db, cursor: string, cutoff: int, idle: int, k: Key, c: Column)
    requires TokensAreCopies(db)
    requires var batch := ByTime(Filter(db.events, Eligible(cursor, Bound(db.events, cursor, cutoff))));
             !AccOf(GroupOf(batch, k)).Idle()
    ensures var after := Compacted(db, Some(cursor), cutoff, idle);
            k in after.rollup && after.rollup[k].Tokens(c) == DayTokens(after, k, c)
  {
    var batch := ByTime(Filter(db.events, Eligible(cursor, Bound(db.events, cursor, cutoff))));
    AccAtGroup(batch, k);
    NoGroup(batch, k);
    assert k in Groups(batch) && !Groups(batch)[k].Idle();
    assert Compacted(db, Some(cursor), cutoff, idle).rollup == Rolled(db.rollup, Groups(batch), db.tokens, idle);
    RolledTokens(db.rollup, Groups(batch), db.tokens, idle, k, c);
  }

  lemma {:induction false} RolledStaysCopies(db: Db, events: seq<RawEvent>, groups: map<Key, Acc>, idle: int)
    requires TokensAreCopies(db)
    ensures TokensAreCopies(db.(events := events, rollup := Rolled(db.rollup, groups, db.tokens, idle)))
  {
    forall k, c | k in Rolled(db.rollup, groups, db.tokens, idle)
      ensures Rolled(db.rollup, groups, db.tokens, idle)[k].Tokens(c) <= DayTokens(db, k, c)
    {
      RolledTokens(db.rollup, groups, db.tokens, idle, k, c);
    }
  }

  lemma {:induction false} TokensStayCopies(ops: seq<Op>)
    ensures TokensAreCopies(Run(ops))
  {
    if ops != [] {
      var t, op := ops[..|ops| - 1], ops[|ops| - 1];
      TokensStayCopies(t);
      StepStaysCopies(Run(t), op);
    }
  }

  lemma {:induction false} StepStaysCopies(db: Db, op: Op)
    requires TokensAreCopies(db)
    ensures TokensAreCopies(Step(db, op))
  {
    match op
    case Append(e) =>
    case UpsertTokenUsage(row) => 
    case Compact(cursor, cutoff, idle) =>
      if Compacted(db, cursor, cutoff, idle) != db {
        var bound := Bound(db.events, cursor.value, cutoff);
        var eligible := Filter(db.events, Eligible(cursor.value, bound));
        RolledStaysCopies(db, Filter(db.events, Kept(cursor.value, bound)), Groups(ByTime(eligible)), idle);
      }
    case BackfillRollupTokens => 
    case Nuke =>
  }

  /** Tokens are never counted twice: in every reachable state a session's total is its token rows. */
  lemma {:induction false} TokensAreCountedOnce(ops: seq<Op>, session: string, c: Column)
    ensures var db := Run(ops);
            SumMap(Counted(db.rollup, db.tokens, session, c)) + SessionSum(db.tokens, session, c) ==
            SessionSum(db.tokens, session, c)
  {
    var db := Run(ops);
    TokensStayCopies(ops);
    var counted := Counted(db.rollup, db.tokens, session, c);
    forall k | k in counted ensures counted[k] == 0 {
      NoRowsNoTokens(db.tokens, k.day, session, c);
      assert db.rollup[k].Tokens(c) <= DayTokens(db, k, c);
    }
    SumMapZero(counted);
  }

  /** Right after the first backfill every row that carried no tokens holds its day's sums; the others stay. */
  lemma {:induction false} BackfillFills(db: Db, k: Key, c: Column)
    requires !db.backfilled && k in db.rollup
    ensures var row, after := db.rollup[k], Backfilled(db);
            && after.backfilled && after.rollup.Keys == db.rollup.Keys
            && after.rollup[k].Tokens(c) ==
               (if forall d: Column :: row.Tokens(d) == 0 then DayTokens(db, k, c) else row.Tokens(c))
            && after.rollup[k].(input := row.input, output := row.output, cost := row.cost) == row
  {
    var row := db.rollup[k];
    assert row.Tokens(Input) == row.input && row.Tokens(Output) == row.output && row.Tokens(Cost) == row.cost;
  }

  /** And no later call changes anything. */
  lemma {:induction false} BackfillIsOnce(db: Db)
    ensures Backfilled(Backfilled(db)) == Backfilled(db)
  {
  }

  // ---- the reported total of any store, old rows included ----------------------------------

  ghost function Reported(db: Db, session: string, c: Column): int {
    SumMap(Counted(db.rollup, db.tokens, session, c)) + SessionSum(db.tokens, session, c)
  }

  /** No token row of the session falls on the day of `k`. */
  ghost predicate NoTokensOn(db: Db, k: Key) {
    forall i :: 0 <= i < |db.tokens| && db.tokens[i].session == k.session ==> DayOfText(db.tokens[i].at) != k.day
  }

  lemma {:induction false} LiveDayIff(db: Db, k: Key)
    ensures LiveDay(db.tokens, k.day, k.session) <==> !NoTokensOn(db, k)
  {
  }

  lemma {:induction false} NoRowsNothing()
    ensures SumMap<Key>(map[]) == 0
  {
  }

  /** One more rollup row adds its tokens to its own session, and only if its day has no token row there. */
  lemma {:induction false} RowCountsIff(db: Db, k: Key, row: RollupRow, session: string, c: Column)
    requires k !in db.rollup
    ensures Reported(db.(rollup := db.rollup[k := row]), session, c) ==
            Reported(db, session, c) + if k.session == session && NoTokensOn(db, k) then row.Tokens(c) else 0
    ensures Reported(db.(rollup := map[]), session, c) == SessionSum(db.tokens, session, c)
  {
    hide SessionSum;
    hide LiveDay;
    hide NoTokensOn;
    hide SumMap;
    hide RollupRow.Tokens;
    LiveDayIff(db, k);
    NoRowsNothing();
    var before, after := Counted(db.rollup, db.tokens, session, c), Counted(db.rollup[k := row], db.tokens, session, c);
    assert Counted(map[], db.tokens, session, c) == map[];
    if k.session == session && NoTokensOn(db, k) {
      assert after == AddTo(before, k, row.Tokens(c));
      SumMapAddTo(before, k, row.Tokens(c));
    } else {
      assert after == before;
    }
  }

  lemma {:induction false} NothingToFill(db: Db, k: Key)
    requires k in db.rollup && !LiveDay(db.tokens, k.day, k.session)
    ensures Filled(k, db.rollup[k], db.tokens) == db.rollup[k]
  {
    NoRowsNoTokens(db.tokens, k.day, k.session, Input);
    NoRowsNoTokens(db.tokens, k.day, k.session, Output);
    NoRowsNoTokens(db.tokens, k.day, k.session, Cost);
  }

  lemma {:induction false} PassKeepsReported(db: Db, cursor: Option<string>, cutoff: int, idle: int, session: string, c: Column)
    ensures Reported(Compacted(db, cursor, cutoff, idle), session, c) == Reported(db, session, c)
  {
    if Compacted(db, cursor, cutoff, idle) != db {
      var groups := Groups(ByTime(Filter(db.events, Eligible(cursor.value, Bound(db.events, cursor.value, cutoff)))));
      hide Groups;
      var rolled := Rolled(db.rollup, groups, db.tokens, idle);
      var before, after := Counted(db.rollup, db.tokens, session, c), Counted(rolled, db.tokens, session, c);
      forall k | k in before || k in after ensures Get(after, k) == Get(before, k) {
        RolledCounts(db, groups, idle, session, c, k);
      }
      SumMapExtensional(after, before);
    }
  }

  lemma {:induction false} RolledCounts(db: Db, groups: map<Key, Acc>, idle: int, session: string, c: Column, k: Key)
    ensures Get(Counted(Rolled(db.rollup, groups, db.tokens, idle), db.tokens, session, c), k) ==
            Get(Counted(db.rollup, db.tokens, session, c), k)
  {
    if k in Rolled(db.rollup, groups, db.tokens, idle) {
      RolledTokens(db.rollup, groups, db.tokens, idle, k, c);
      if !LiveDay(db.tokens, k.day, k.session) { NoRowsNoTokens(db.tokens, k.day, k.session, c); }
    }
  }

  lemma {:induction false} FilledCounts(db: Db, session: string, c: Column, k: Key)
    ensures Get(Counted(Backfilled(db).rollup, db.tokens, session, c), k) == Get(Counted(db.rollup, db.tokens, session, c), k)
  {
    if k in db.rollup && !LiveDay(db.tokens, k.day, k.session) { NothingToFill(db, k); }
    hide LiveDay;
    hide Filled;
  }

  /** Neither a pass nor the backfill changes what any session is reported to have used, whatever the store holds. */
  lemma {:induction false} UpkeepKeepsReported(db: Db, cursor: Option<string>, cutoff: int, idle: int, session: string, c: Column)
    ensures Reported(Compacted(db, cursor, cutoff, idle), session, c) == Reported(db, session, c)
    ensures Reported(Backfilled(db), session, c) == Reported(db, session, c)
  {
    PassKeepsReported(db, cursor, cutoff, idle, session, c);
    var before, after := Counted(db.rollup, db.tokens, session, c), Counted(Backfilled(db).rollup, db.tokens, session, c);
    assert Backfilled(db).tokens == db.tokens;
    hide *;
    forall k ensures Get(after, k) == Get(before, k) { FilledCounts(db, session, c, k); }
    SumMapExtensional(after, before);
    ReportedIs(db, session, c);
    ReportedIs(Backfilled(db), session, c);
  }

  lemma {:induction false} ReportedIs(db: Db, session: string, c: Column)
    ensures Reported(db, session, c) == SumMap(Counted(db.rollup, db.tokens, session, c)) + SessionSum(db.tokens, session, c)
  {
  }
}
