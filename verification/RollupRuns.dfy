/** Over whole runs: when rolled and raw days stay apart, and what every row then says. */
module RollupRuns {
  import opened Prelude
  import opened Timeline
  import opened Accounting
  import opened Events
  import opened StoredAt
  import Report
  import opened TokenTable
  import opened EventStore
  import opened CompactionDays
  import opened CompactionRuns
  import opened RollupRows

  /** A billable event arrives for a day that has already been compacted. */
  ghost predicate IsLate(db: Db, op: Op) {
    && op.Append? && !HasEvent(db.events, op.event.id) && !IsProbe(op.event.session)
    && DayIsRolled(db.rollup, DayText(op.event.at))
  }

  ghost predicate NeverLate(ops: seq<Op>) {
    forall n :: 0 <= n < |ops| ==> !IsLate(Run(ops[..n]), ops[n])
  }

  ghost predicate TimesInRange(ops: seq<Op>) {
    forall op :: op in ops && op.Append? ==> InRange(op.event.at)
  }

  lemma {:induction false} RunSnoc(ops: seq<Op>, n: nat)
    requires n < |ops|
    ensures Run(ops[..n + 1]) == Step(Run(ops[..n]), ops[n])
    ensures EverAppended(ops[..n + 1]) ==
            if ops[n].Nuke? then []
            else if ops[n].Append? && !HasEvent(Run(ops[..n]).events, ops[n].event.id)
            then EverAppended(ops[..n]) + [ops[n].event] else EverAppended(ops[..n])
  {
    assert ops[..n + 1][..n] == ops[..n];
  }

  lemma {:induction false} StepStaysInRange(db: Db, op: Op)
    requires AllInRange(db.events) && (op.Append? ==> InRange(op.event.at))
    ensures AllInRange(Step(db, op).events)
  {
    if op.Compact? {
      forall e | e in Step(db, op).events ensures InRange(e.at) {
        SurvivorsAreOld(db, op.cursor, op.cutoff, op.idle, e);
      }
    }
  }

  lemma {:induction false} RunStaysInRange(ops: seq<Op>, n: nat)
    requires n <= |ops| && TimesInRange(ops)
    ensures AllInRange(Run(ops[..n]).events)
  {
    for i := 0 to n
      invariant AllInRange(Run(ops[..i]).events)
    {
      RunSnoc(ops, i);
      assert ops[i] in ops;
      StepStaysInRange(Run(ops[..i]), ops[i]);
    }
  }

  lemma {:induction false} StepKeepsDaysApartIff(db: Db, op: Op)
    requires NoDayInBoth(db) && AllInRange(db.events)
    ensures NoDayInBoth(Step(db, op)) <==> !IsLate(db, op)
  {
    match op
    case Append(e) =>
    case UpsertTokenUsage(row) =>
    case Compact(cursor, cutoff, idle) => CompactKeepsDaysApart(db, cursor, cutoff, idle);
    case BackfillRollupTokens =>
    case Nuke =>
  }

  lemma {:induction false} DaysApartUpTo(ops: seq<Op>, n: nat)
    requires n <= |ops| && TimesInRange(ops)
    requires forall i :: 0 <= i < n ==> !IsLate(Run(ops[..i]), ops[i])
    ensures NoDayInBoth(Run(ops[..n]))
  {
    for i := 0 to n
      invariant NoDayInBoth(Run(ops[..i]))
    {
      RunSnoc(ops, i);
      RunStaysInRange(ops, i);
      StepKeepsDaysApartIff(Run(ops[..i]), ops[i]);
    }
  }

  /**
   "A day is never part rollup and part raw": true throughout a run exactly when no billable event
   was appended for a day already compacted.
   */
  lemma {:induction false} DaysStayApartIff(ops: seq<Op>)
    requires TimesInRange(ops)
    ensures (forall n :: 0 <= n <= |ops| ==> NoDayInBoth(Run(ops[..n]))) <==> NeverLate(ops)
  {
    if NeverLate(ops) {
      forall n | 0 <= n <= |ops| ensures NoDayInBoth(Run(ops[..n])) { DaysApartUpTo(ops, n); }
    }
    if forall n :: 0 <= n <= |ops| ==> NoDayInBoth(Run(ops[..n])) {
      forall n | 0 <= n < |ops| ensures !IsLate(Run(ops[..n]), ops[n]) {
        RunSnoc(ops, n);
        RunStaysInRange(ops, n);
        assert NoDayInBoth(Run(ops[..n + 1]));
        StepKeepsDaysApartIff(Run(ops[..n]), ops[n]);
      }
    }
  }

  // ---- what a row says ---------------------------------------------------------------------

  function BillableOf(k: Key): RawEvent -> bool {
    (e: RawEvent) => KeyOf(e) == k && !IsProbe(e.session)
  }

  function SignalsFor(events: seq<RawEvent>, k: Key): seq<Stamped<Option<string>>> {
    Report.ProjectSignals(Filter(events, BillableOf(k)))
  }

  function ActivityFor(events: seq<RawEvent>, k: Key): seq<Stamped<()>> {
    ActivityTimes(Filter(events, BillableOf(k)))
  }

  /** The row's time and prompts are the accounting of these events' share of its day and session. */
  ghost predicate RowSays(row: RollupRow, events: seq<RawEvent>, k: Key, idle: int) {
    && row.human == TotalHumanSeconds(SignalsFor(events, k), idle)
    && row.active == ActiveSeconds(ActivityFor(events, k), idle)
    && row.prompts == |SignalsFor(events, k)|
  }

  /** Rolled days are accounted over everything ever captured; the others are still in the log. */
  ghost predicate KeyIsAccounted(db: Db, ever: seq<RawEvent>, idle: int, k: Key) {
    if k in db.rollup then RowSays(db.rollup[k], ever, k, idle)
    else SignalsFor(db.events, k) == SignalsFor(ever, k) && ActivityFor(db.events, k) == ActivityFor(ever, k)
  }

  lemma {:induction false} AppendAccounted(db: Db, ever: seq<RawEvent>, idle: int, e: RawEvent, k: Key)
    requires KeyIsAccounted(db, ever, idle, k)
    requires IsProbe(e.session) || !DayIsRolled(db.rollup, DayText(e.at))
    ensures KeyIsAccounted(db.(events := db.events + [e]), ever + [e], idle, k)
  {
  }

  lemma {:induction false} EligibleFor(events: seq<RawEvent>, cursor: string, cutoff: int, k: Key)
    requires AllInRange(events)
    requires var batch := Filter(events, Eligible(cursor, Bound(events, cursor, cutoff)));
             exists f :: f in batch && KeyOf(f) == k
    ensures var batch := Filter(events, Eligible(cursor, Bound(events, cursor, cutoff)));
            Filter(batch, HasKey(k)) == Filter(events, BillableOf(k))
  {
    var bound := Bound(events, cursor, cutoff);
    var batch := Filter(events, Eligible(cursor, bound));
    var f :| f in batch && KeyOf(f) == k;
    FilterMember(events, Eligible(cursor, bound), f);
    forall e | e in events ensures BillableOf(k)(e) <==> Eligible(cursor, bound)(e) && HasKey(k)(e) {
      if BillableOf(k)(e) { KeyGoesWhole(events, cursor, cutoff, f, e); }
    }
    FilterFilter(events, Eligible(cursor, bound), HasKey(k), BillableOf(k));
  }

  lemma {:induction false} NoneEligibleFor(events: seq<RawEvent>, cursor: string, bound: int, k: Key)
    requires forall f :: f in Filter(events, Eligible(cursor, bound)) ==> KeyOf(f) != k
    ensures Filter(Filter(events, Kept(cursor, bound)), BillableOf(k)) == Filter(events, BillableOf(k))
  {
    forall e | e in events ensures BillableOf(k)(e) <==> Kept(cursor, bound)(e) && BillableOf(k)(e) {
      FilterMember(events, Eligible(cursor, bound), e);
    }
    FilterFilter(events, Kept(cursor, bound), BillableOf(k), BillableOf(k));
  }

  lemma {:induction false} KeptIsGone(events: seq<RawEvent>, cursor: string, cutoff: int, k: Key)
    requires AllInRange(events)
    requires var batch := Filter(events, Eligible(cursor, Bound(events, cursor, cutoff)));
             exists f :: f in batch && KeyOf(f) == k
    ensures Filter(Filter(events, Kept(cursor, Bound(events, cursor, cutoff))), BillableOf(k)) == []
  {
    var bound := Bound(events, cursor, cutoff);
    var kept := Filter(events, Kept(cursor, bound));
    var f :| f in Filter(events, Eligible(cursor, bound)) && KeyOf(f) == k;
    FilterMember(events, Eligible(cursor, bound), f);
    forall e | e in kept ensures !BillableOf(k)(e) {
      FilterMember(events, Kept(cursor, bound), e);
      if BillableOf(k)(e) { KeyGoesWhole(events, cursor, cutoff, f, e); }
    }
    FilterNone(kept, BillableOf(k));
  }

  lemma {:induction false} PassInParts(db: Db, cursor: string, cutoff: int, idle: int)
    ensures var bound := Bound(db.events, cursor, cutoff);
            var batch := Filter(db.events, Eligible(cursor, bound));
            Compacted(db, Some(cursor), cutoff, idle) ==
            if batch == [] then db
            else db.(events := Filter(db.events, Kept(cursor, bound)),
                     rollup := Rolled(db.rollup, Groups(ByTime(batch)), db.tokens, idle))
  {
  }

  lemma {:induction false} BatchKeyAccounted(db: Db, ever: seq<RawEvent>, cursor: string, cutoff: int, idle: int, k: Key)
    requires AllInRange(db.events) && NoDayInBoth(db) && KeyIsAccounted(db, ever, idle, k)
    requires var batch := Filter(db.events, Eligible(cursor, Bound(db.events, cursor, cutoff)));
             exists f :: f in batch && KeyOf(f) == k
    ensures KeyIsAccounted(Compacted(db, Some(cursor), cutoff, idle), ever, idle, k)
  {
    var bound := Bound(db.events, cursor, cutoff);
    var batch := Filter(db.events, Eligible(cursor, bound));
    var f :| f in batch && KeyOf(f) == k;
    FilterMember(db.events, Eligible(cursor, bound), f);
    EligibleFor(db.events, cursor, cutoff, k);
    KeptIsGone(db.events, cursor, cutoff, k);
    GroupHasEvent(batch, k);
    GroupSays(batch, db.events, k, db.tokens, idle);
    PassInParts(db, cursor, cutoff, idle);
  }

  lemma {:induction false} GroupSays(batch: seq<RawEvent>, events: seq<RawEvent>, k: Key, tokens: seq<TokenRow>, idle: int)
    requires k in Groups(ByTime(batch)) && Filter(batch, HasKey(k)) == Filter(events, BillableOf(k))
    ensures var acc := Groups(ByTime(batch))[k];
            && RowSays(RowOf(acc, k, tokens, idle), events, k, idle)
            && (acc.Idle() <==> SignalsFor(events, k) == [] && ActivityFor(events, k) == [])
  {
    RowIsIsolated(batch, k, tokens, idle);
  }

  /** A pass writes a fresh row for each key that did something, over all of that key's events. */
  lemma {:induction false} CompactAccounted(db: Db, ever: seq<RawEvent>, cursor: string, cutoff: int, idle: int, k: Key)
    requires AllInRange(db.events) && NoDayInBoth(db) && KeyIsAccounted(db, ever, idle, k)
    ensures KeyIsAccounted(Compacted(db, Some(cursor), cutoff, idle), ever, idle, k)
  {
    var bound := Bound(db.events, cursor, cutoff);
    var batch := Filter(db.events, Eligible(cursor, bound));
    if exists f :: f in batch && KeyOf(f) == k {
      BatchKeyAccounted(db, ever, cursor, cutoff, idle, k);
    } else {
      GroupHasEvent(batch, k);
      NoneEligibleFor(db.events, cursor, bound, k);
      PassInParts(db, cursor, cutoff, idle);
    }
  }

  lemma {:induction false} StepAccounted(db: Db, ever: seq<RawEvent>, idle: int, op: Op, k: Key)
    requires AllInRange(db.events) && NoDayInBoth(db) && !IsLate(db, op)
    requires op.Compact? ==> op.idle == idle
    requires KeyIsAccounted(db, ever, idle, k)
    ensures var after := if op.Nuke? then [] else if op.Append? && !HasEvent(db.events, op.event.id)
                         then ever + [op.event] else ever;
            KeyIsAccounted(Step(db, op), after, idle, k)
  {
    match op
    case Append(e) => if !HasEvent(db.events, e.id) { AppendAccounted(db, ever, idle, e, k); }
    case UpsertTokenUsage(row) =>
    case Compact(cursor, cutoff, i) =>
      if cursor.Some? { CompactAccounted(db, ever, cursor.value, cutoff, idle, k); }
    case BackfillRollupTokens =>
    case Nuke =>
  }

  /**
   However capture and compaction interleave, as long as no event is late: every rollup row holds
   the time and prompts of everything ever captured for its session's day, pruned since or not, and
   a session's day without a row is still whole in the log.
   */
  lemma {:induction false} RowsAccountTheirDays(ops: seq<Op>, idle: int, k: Key)
    requires TimesInRange(ops) && NeverLate(ops)
    requires forall op :: op in ops && op.Compact? ==> op.idle == idle
    ensures KeyIsAccounted(Run(ops), EverAppended(ops), idle, k)
  {
    for i := 0 to |ops|
      invariant KeyIsAccounted(Run(ops[..i]), EverAppended(ops[..i]), idle, k)
    {
      RunSnoc(ops, i);
      RunStaysInRange(ops, i);
      DaysApartUpTo(ops, i);
      assert ops[i] in ops;
      StepAccounted(Run(ops[..i]), EverAppended(ops[..i]), idle, ops[i], k);
    }
    assert ops[..|ops|] == ops;
  }
}
