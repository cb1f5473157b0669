/** Decision and spec records: captured, repaired and synced through a change feed. */
module Knowledge {
  import opened Prelude
  import opened Feed

  datatype Kind = Decision | Spec

  /** `state` is the source state of a spec that comes from elsewhere; decisions have none. */
  datatype Capture = Capture(key: string, text: string, globs: seq<string>, links: seq<string>, state: Option<string>)

  /** The session the daemon saw each commit in, if any. */
  type Artifacts = map<string, Option<string>>

  datatype World = World(decisions: Table, specs: Table, artifacts: Artifacts, decisionCursor: int, specCursor: int) {
    function Of(kind: Kind): Table {
      if kind == Decision then decisions else specs
    }

    function CursorOf(kind: Kind): int {
      if kind == Decision then decisionCursor else specCursor
    }

    function WithCursor(kind: Kind, cursor: int): World {
      if kind == Decision then this.(decisionCursor := cursor) else this.(specCursor := cursor)
    }
  }

  const NO_KNOWLEDGE: World := World(map[], map[], map[], 0, 0)

  function SetOf(s: seq<string>): set<string> {
    set x | x in s
  }

  function SessionOf(artifacts: Artifacts, sha: string): Option<string> {
    if sha in artifacts then artifacts[sha] else None
  }

  // ---- what a capture writes ---------------------------------------------------------------

  function DecisionRow(t: Table, ref: Ref, cap: Capture, sha: string, at: Option<string>, session: Option<string>,
                       touched: nat): Row
  {
    Row(touched, if ref in t then t[ref].first else Provenance(Some(sha), at, session),
        Some(sha), at, cap.text, SetOf(cap.globs), {}, None, None)
  }

  /** `NULLIF(sha, '')`. */
  function CommitOf(sha: string): Option<string> {
    if sha == "" then None else Some(sha)
  }

  predicate IsBlank(commit: Option<string>) {
    commit.None? || commit.value == ""
  }

  /** First sight stays, except that the first real commit fills a row that has none, all three fields together. */
  function SpecProvenance(t: Table, ref: Ref, artifacts: Artifacts, sha: string, at: Option<string>,
                          session: Option<string>): Provenance
  {
    var commit := CommitOf(sha);
    if ref !in t then Provenance(commit, at, if commit.None? then None else session)
    else if commit.Some? && IsBlank(t[ref].first.commit) then Provenance(commit, at, SessionOf(artifacts, sha))
    else t[ref].first
  }

  function SpecRow(t: Table, ref: Ref, cap: Capture, artifacts: Artifacts, sha: string, at: Option<string>,
                   session: Option<string>, observedAt: string, touched: nat): Row
  {
    var stamp := if cap.state.Some? then Some(observedAt) else None;
    Row(touched, SpecProvenance(t, ref, artifacts, sha, at, session),
        if CommitOf(sha).Some? then CommitOf(sha) else if ref in t then t[ref].lastCommit else None,
        at, cap.text, SetOf(cap.globs), SetOf(cap.links), cap.state,
        if ref in t && t[ref].state == cap.state then t[ref].stateChangedAt else stamp)
  }

  function RepairedRow(row: Row, artifacts: Artifacts, commit: string, createdAt: Option<string>, touched: nat): Row {
    row.(first := Provenance(Some(commit), createdAt, SessionOf(artifacts, commit)), touched := touched)
  }

  // ---- the operations ----------------------------------------------------------------------

  datatype Op =
    | UpsertDecision(repo: string, cap: Capture, sha: string, at: Option<string>, session: Option<string>)
    | UpsertSpec(repo: string, cap: Capture, sha: string, at: Option<string>, session: Option<string>, observedAt: string)
    | Repair(kind: Kind, ref: Ref, commit: string, createdAt: Option<string>)
    | RecordArtifact(sha: string, session: Option<string>)
    | Read(kind: Kind, limit: int)
    | Accept(kind: Kind, high: int)
    | Nuke
    | ResetCursors
  {
    /** Both start the cursors over. */
    predicate Resets() {
      Nuke? || ResetCursors?
    }
  }

  ghost function DecisionUpserted(w: World, repo: string, cap: Capture, sha: string, at: Option<string>,
                                  session: Option<string>): World
  {
    var ref := Ref(repo, cap.key);
    w.(decisions := w.decisions[ref := DecisionRow(w.decisions, ref, cap, sha, at, session, MaxTouched(w.decisions) + 1)])
  }

  ghost function SpecUpserted(w: World, repo: string, cap: Capture, sha: string, at: Option<string>,
                              session: Option<string>, observedAt: string): World
  {
    var ref := Ref(repo, cap.key);
    w.(specs := w.specs[ref := SpecRow(w.specs, ref, cap, w.artifacts, sha, at, session, observedAt,
                                       MaxTouched(w.specs) + 1)])
  }

  ghost function Repaired(w: World, kind: Kind, ref: Ref, commit: string, createdAt: Option<string>): World {
    var t := w.Of(kind);
    if ref !in t then w
    else
      var u := t[ref := RepairedRow(t[ref], w.artifacts, commit, createdAt, MaxTouched(t) + 1)];
      if kind == Decision then w.(decisions := u) else w.(specs := u)
  }

  ghost function Step(w: World, op: Op): World {
    match op
    case UpsertDecision(repo, cap, sha, at, session) => DecisionUpserted(w, repo, cap, sha, at, session)
    case UpsertSpec(repo, cap, sha, at, session, observedAt) => SpecUpserted(w, repo, cap, sha, at, session, observedAt)
    case Repair(kind, ref, commit, createdAt) => Repaired(w, kind, ref, commit, createdAt)
    case RecordArtifact(sha, session) => if sha in w.artifacts then w else w.(artifacts := w.artifacts[sha := session])
    case Read(_, _) => w
    case Accept(kind, high) => w.WithCursor(kind, high)
    case Nuke => w.(artifacts := map[], decisionCursor := 0, specCursor := 0)
    case ResetCursors => w.(decisionCursor := 0, specCursor := 0)
  }

  /** The rows of these records, each with its sequence number. */
  ghost predicate IsWindow(t: Table, keys: seq<Ref>, window: seq<(nat, Row)>) {
    && |window| == |keys|
    && forall i :: 0 <= i < |keys| ==> keys[i] in t && window[i] == (t[keys[i]].touched, t[keys[i]])
  }

  method Fetch(t: Table, keys: seq<Ref>) returns (window: seq<(nat, Row)>)
    requires forall k :: k in keys ==> k in t
    ensures IsWindow(t, keys, window)
  {
    window := [];
    for i := 0 to |keys|
      invariant |window| == i
      invariant forall j :: 0 <= j < i ==> keys[j] in t && window[j] == (t[keys[j]].touched, t[keys[j]])
    {
      assert keys[i] in keys;
      window := window + [(t[keys[i]].touched, t[keys[i]])];
    }
  }

  class Store {
    var decisions: Table
    var specs: Table
    var artifacts: Artifacts
    var decisionCursor: int
    var specCursor: int

    constructor ()
      ensures Contents() == NO_KNOWLEDGE
    {
      decisions, specs, artifacts, decisionCursor, specCursor := map[], map[], map[], 0, 0;
    }

    function Contents(): World
      reads this
    {
      World(decisions, specs, artifacts, decisionCursor, specCursor)
    }

    /** Globs are replaced wholesale, so a narrowed set narrows. */
    method UpsertDecision(repo: string, cap: Capture, sha: string, at: Option<string>, session: Option<string>)
      modifies this`decisions
      ensures Contents() == DecisionUpserted(old(Contents()), repo, cap, sha, at, session)
    {
      var ref := Ref(repo, cap.key);
      var max := FindMax(decisions);
      decisions := decisions[ref := DecisionRow(decisions, ref, cap, sha, at, session, max + 1)];
    }

    method UpsertSpec(repo: string, cap: Capture, sha: string, at: Option<string>, session: Option<string>,
                      observedAt: string)
      modifies this`specs
      ensures Contents() == SpecUpserted(old(Contents()), repo, cap, sha, at, session, observedAt)
    {
      var ref := Ref(repo, cap.key);
      var max := FindMax(specs);
      specs := specs[ref := SpecRow(specs, ref, cap, artifacts, sha, at, session, observedAt, max + 1)];
    }

    /** Returns whether there was such a record. */
    method RepairProvenance(kind: Kind, ref: Ref, commit: string, createdAt: Option<string>) returns (found: bool)
      modifies this`decisions, this`specs
      ensures Contents() == Repaired(old(Contents()), kind, ref, commit, createdAt)
      ensures found == (ref in old(Contents()).Of(kind))
    {
      var t := Contents().Of(kind);
      found := ref in t;
      if found {
        var max := FindMax(t);
        var row := RepairedRow(t[ref], artifacts, commit, createdAt, max + 1);
        if kind == Decision {
          decisions := decisions[ref := row];
        } else {
          specs := specs[ref := row];
        }
      }
    }

    /** One window of a feed, oldest touch first. */
    method ReadWindow(kind: Kind, limit: int) returns (window: seq<(nat, Row)>)
      requires DistinctVersions(Contents().Of(kind))
      ensures var w := Contents();
              IsWindow(w.Of(kind), Take(Pending(w.Of(kind), w.CursorOf(kind)), limit), window)
    {
      var t, cursor := Contents().Of(kind), Contents().CursorOf(kind);
      hide Pending;
      WindowIsOrdered(t, cursor, limit);
      var keys := ReadSince(t, cursor, limit);
      window := Fetch(t, keys);
    }

    /** Only after the cloud took the window. */
    method AcceptWindow(kind: Kind, high: int)
      modifies this`decisionCursor, this`specCursor
      ensures Contents() == Step(old(Contents()), Accept(kind, high))
    {
      if kind == Decision {
        decisionCursor := high;
      } else {
        specCursor := high;
      }
    }

    /** Captured commits go and the cursors start over; the records themselves are kept. */
    method Nuke()
      modifies this`artifacts, this`decisionCursor, this`specCursor
      ensures Contents() == Step(old(Contents()), Op.Nuke)
    {
      artifacts, decisionCursor, specCursor := map[], 0, 0;
    }

    /** The cloud started a new epoch: everything is to be sent again. */
    method ResetCursors()
      modifies this`decisionCursor, this`specCursor
      ensures Contents() == Step(old(Contents()), Op.ResetCursors)
    {
      decisionCursor, specCursor := 0, 0;
    }
  }

  // ---- every run ---------------------------------------------------------------------------

  ghost function Run(ops: seq<Op>): World {
    if ops == [] then NO_KNOWLEDGE else Step(Run(ops[..|ops| - 1]), ops[|ops| - 1])
  }

  /** The window of a kind that was read and not accepted yet. */
  ghost function InFlight(ops: seq<Op>, kind: Kind): Option<Reading> {
    if ops == [] then None
    else
      var before, w, op := InFlight(ops[..|ops| - 1], kind), Run(ops[..|ops| - 1]), ops[|ops| - 1];
      if op.Read? && op.kind == kind then
        var window := Take(Pending(w.Of(kind), w.CursorOf(kind)), op.limit);
        if forall k :: k in window ==> k in w.Of(kind)
        then Some(Reading(w.CursorOf(kind), VersionsOf(w.Of(kind), window), false)) else None
      else if op.Accept? && op.kind == kind then None
      else if op.Resets() && before.Some? then Some(before.value.(stale := true))
      else before
  }

  /** The versions a kind's reader has accepted since its cursor was last reset. */
  ghost function Delivered(ops: seq<Op>, kind: Kind): seq<Version> {
    if ops == [] then []
    else
      var before, r, op := Delivered(ops[..|ops| - 1], kind), InFlight(ops[..|ops| - 1], kind), ops[|ops| - 1];
      if op.Resets() then []
      else if op.Accept? && op.kind == kind && r.Some? then before + r.value.versions
      else before
  }

  /** A driver accepts the window it read last, when there is one and it holds something. */
  ghost predicate Disciplined(ops: seq<Op>) {
    forall n :: 0 <= n < |ops| && ops[n].Accept? ==> AcceptsTheRead(ops, n)
  }

  ghost predicate AcceptsTheRead(ops: seq<Op>, n: nat)
    requires n < |ops| && ops[n].Accept?
  {
    var r := InFlight(ops[..n], ops[n].kind);
    r.Some? && r.value.versions != [] && ops[n].high == r.value.High()
  }

  ghost predicate Positive(t: Table) {
    forall k :: k in t ==> t[k].touched > 0
  }

  /** One record of `t` rewritten under the next number. */
  ghost predicate IsWrite(t: Table, u: Table, ref: Ref) {
    ref in u && u == t[ref := u[ref]] && u[ref].touched == MaxTouched(t) + 1
  }

  lemma {:induction false} StepWrites(w: World, op: Op, kind: Kind)
    requires !op.Accept? && !op.Resets()
    ensures Step(w, op).CursorOf(kind) == w.CursorOf(kind)
    ensures Step(w, op).Of(kind) == w.Of(kind) || exists ref :: IsWrite(w.Of(kind), Step(w, op).Of(kind), ref)
  {
    var u := Step(w, op).Of(kind);
    if u != w.Of(kind) {
      match op
      case UpsertDecision(repo, cap, _, _, _) => assert IsWrite(w.Of(kind), u, Ref(repo, cap.key));
      case UpsertSpec(repo, cap, _, _, _, _) => assert IsWrite(w.Of(kind), u, Ref(repo, cap.key));
      case Repair(_, ref, _, _) => assert IsWrite(w.Of(kind), u, ref);
    }
  }

  /** What every state of a disciplined run keeps for one kind's feed, reset in flight or not. */
  ghost predicate Steady(w: World, kind: Kind, delivered: seq<Version>, r: Option<Reading>) {
    && DistinctVersions(w.Of(kind)) && Positive(w.Of(kind))
    && 0 <= w.CursorOf(kind) <= MaxTouched(w.Of(kind))
    && (r.Some? ==> InFlightOk(w.Of(kind), w.CursorOf(kind), delivered, r.value) && r.value.from <= MaxTouched(w.Of(kind)))
  }

  ghost predicate SteadyAfter(ops: seq<Op>, kind: Kind) {
    Steady(Run(ops), kind, Delivered(ops, kind), InFlight(ops, kind))
  }

  ghost predicate Complete(ops: seq<Op>, kind: Kind) {
    FeedOk(Run(ops).Of(kind), Run(ops).CursorOf(kind), Delivered(ops, kind))
  }

  lemma {:induction false} WriteIsDistinct(t: Table, u: Table, ref: Ref)
    requires DistinctVersions(t) && Positive(t) && IsWrite(t, u, ref)
    ensures DistinctVersions(u) && Positive(u) && MaxTouched(u) > MaxTouched(t)
  {
    MaxIsMax(t);
    MaxIsMax(u);
  }

  lemma {:induction false} WriteIsSteady(w: World, u: World, kind: Kind, delivered: seq<Version>,
                                         r: Option<Reading>, ref: Ref)
    requires Steady(w, kind, delivered, r)
    requires u.CursorOf(kind) == w.CursorOf(kind) && IsWrite(w.Of(kind), u.Of(kind), ref)
    ensures Steady(u, kind, delivered, r)
    ensures FeedOk(w.Of(kind), w.CursorOf(kind), delivered) ==> FeedOk(u.Of(kind), w.CursorOf(kind), delivered)
  {
    hide MaxTouched;
    hide DistinctVersions;
    hide InFlightOk;
    hide FeedOk;
    var t, n, c := w.Of(kind), u.Of(kind), w.CursorOf(kind);
    WriteIsDistinct(t, n, ref);
    if r.Some? { WriteKeepsInFlight(t, c, delivered, r.value, ref, n[ref]); }
    if FeedOk(t, c, delivered) { WriteKeepsFeed(t, c, delivered, ref, n[ref]); }
  }

  lemma {:induction false} StepIsWrite(w: World, op: Op, kind: Kind, delivered: seq<Version>, r: Option<Reading>)
    requires Steady(w, kind, delivered, r) && !op.Accept? && !op.Resets()
    ensures Steady(Step(w, op), kind, delivered, r)
    ensures FeedOk(w.Of(kind), w.CursorOf(kind), delivered) ==> FeedOk(Step(w, op).Of(kind), w.CursorOf(kind), delivered)
  {
    StepWrites(w, op, kind);
    var u := Step(w, op);
    hide Step;
    hide FeedOk;
    hide IsWrite;
    if u.Of(kind) == w.Of(kind) {
      SameFeedIsSteady(w, u, kind, delivered, r);
    } else {
      var ref :| IsWrite(w.Of(kind), u.Of(kind), ref);
      WriteIsSteady(w, u, kind, delivered, r, ref);
    }
  }

  lemma {:induction false} SameFeedIsSteady(w: World, u: World, kind: Kind, delivered: seq<Version>, r: Option<Reading>)
    requires Steady(w, kind, delivered, r) && u.Of(kind) == w.Of(kind) && u.CursorOf(kind) == w.CursorOf(kind)
    ensures Steady(u, kind, delivered, r)
  {
  }

  lemma {:induction false} ReadIsInFlight(ops: seq<Op>, kind: Kind, limit: int)
    requires SteadyAfter(ops, kind)
    ensures var t, c := Run(ops).Of(kind), Run(ops).CursorOf(kind);
            var w := Take(Pending(t, c), limit);
            && (forall k :: k in w ==> k in t)
            && InFlight(ops + [Read(kind, limit)], kind) == Some(Reading(c, VersionsOf(t, w), false))
            && Run(ops + [Read(kind, limit)]) == Run(ops)
  {
    hide Pending;
    hide Take;
    hide InFlightOk;
    assert (ops + [Read(kind, limit)])[..|ops|] == ops;
    ReadStarts(Run(ops).Of(kind), Run(ops).CursorOf(kind), Delivered(ops, kind), limit);
  }

  lemma {:induction false} ReadIsSteady(ops: seq<Op>, kind: Kind, limit: int)
    requires SteadyAfter(ops, kind)
    ensures SteadyAfter(ops + [Read(kind, limit)], kind)
  {
    hide Pending;
    hide Take;
    hide InFlight;
    hide Run;
    hide InFlightOk;
    hide MaxTouched;
    hide DistinctVersions;
    var more := ops + [Read(kind, limit)];
    assert more[..|ops|] == ops;
    ReadIsInFlight(ops, kind, limit);
    ReadStarts(Run(ops).Of(kind), Run(ops).CursorOf(kind), Delivered(ops, kind), limit);
    assert Delivered(more, kind) == Delivered(ops, kind);
  }

  lemma {:induction false} AcceptIsSteady(ops: seq<Op>, kind: Kind, op: Op)
    requires SteadyAfter(ops, kind) && op.Accept? && AcceptsTheRead(ops + [op], |ops|)
    ensures SteadyAfter(ops + [op], kind)
  {
    hide DistinctVersions;
    hide MaxTouched;
    assert (ops + [op])[..|ops|] == ops;
    if op.kind == kind {
      var v := InFlight(ops, kind).value.versions;
      assert v[|v| - 1].touched <= MaxTouched(Run(ops).Of(kind));
    }
  }

  lemma {:induction false} ResetIsSteady(ops: seq<Op>, kind: Kind, op: Op)
    requires SteadyAfter(ops, kind) && op.Resets()
    ensures SteadyAfter(ops + [op], kind)
  {
    hide DistinctVersions;
    hide MaxTouched;
    hide InOrder;
    assert (ops + [op])[..|ops|] == ops;
  }

  lemma {:induction false} OtherIsSteady(ops: seq<Op>, kind: Kind, op: Op)
    requires SteadyAfter(ops, kind) && !op.Accept? && !op.Resets() && !(op.Read? && op.kind == kind)
    ensures SteadyAfter(ops + [op], kind)
  {
    hide Steady;
    assert (ops + [op])[..|ops|] == ops;
    StepIsWrite(Run(ops), op, kind, Delivered(ops, kind), InFlight(ops, kind));
  }

  /** One more operation. */
  lemma {:induction false} StepIsSteady(ops: seq<Op>, kind: Kind, op: Op)
    requires SteadyAfter(ops, kind) && (op.Accept? ==> AcceptsTheRead(ops + [op], |ops|))
    ensures SteadyAfter(ops + [op], kind)
  {
    hide SteadyAfter;
    hide AcceptsTheRead;
    if op.Accept? {
      AcceptIsSteady(ops, kind, op);
    } else if op.Resets() {
      ResetIsSteady(ops, kind, op);
    } else if op.Read? && op.kind == kind {
      ReadIsSteady(ops, kind, op.limit);
    } else {
      OtherIsSteady(ops, kind, op);
    }
  }

  lemma {:induction false} DisciplinedPrefix(ops: seq<Op>, n: nat)
    requires Disciplined(ops) && n <= |ops|
    ensures Disciplined(ops[..n])
  {
    forall m | 0 <= m < n && ops[m].Accept? ensures AcceptsTheRead(ops[..n], m) {
      assert ops[..n][..m] == ops[..m];
      assert AcceptsTheRead(ops, m);
    }
  }

  lemma {:induction false} DisciplinedIsSteady(ops: seq<Op>, kind: Kind)
    requires Disciplined(ops)
    ensures SteadyAfter(ops, kind)
  {
    if ops != [] {
      var n := |ops| - 1;
      DisciplinedPrefix(ops, n);
      DisciplinedIsSteady(ops[..n], kind);
      assert ops == ops[..n] + [ops[n]];
      StepIsSteady(ops[..n], kind, ops[n]);
    }
  }

  /** The `n`-th operation accepts a window read before a reset that left something behind it. */
  ghost predicate SkipsAt(ops: seq<Op>, n: nat, kind: Kind)
    requires n < |ops|
  {
    && ops[n].Accept? && ops[n].kind == kind && InFlight(ops[..n], kind).Some?
    && LeavesBehind(Run(ops[..n]).Of(kind), InFlight(ops[..n], kind).value)
  }

  ghost predicate Skips(ops: seq<Op>, kind: Kind) {
    exists n: nat :: n < |ops| && SkipsAt(ops, n, kind)
  }

  lemma {:induction false} AcceptIsCompleteIff(ops: seq<Op>, kind: Kind, op: Op)
    requires SteadyAfter(ops, kind) && op.Accept? && op.kind == kind && AcceptsTheRead(ops + [op], |ops|)
    ensures LeavesBehind(Run(ops).Of(kind), InFlight(ops, kind).value) ==> !Complete(ops + [op], kind)
    ensures Complete(ops, kind) && !LeavesBehind(Run(ops).Of(kind), InFlight(ops, kind).value) ==> Complete(ops + [op], kind)
  {
    hide FeedOk;
    hide InFlightOk;
    hide LeavesBehind;
    assert (ops + [op])[..|ops|] == ops;
    var t, c, d, r := Run(ops).Of(kind), Run(ops).CursorOf(kind), Delivered(ops, kind), InFlight(ops, kind).value;
    if LeavesBehind(t, r) {
      AcceptLeaves(t, c, d, r);
    } else if Complete(ops, kind) {
      AcceptKeepsFeedIff(t, c, d, r);
    }
  }

  lemma {:induction false} ResetIsComplete(ops: seq<Op>, kind: Kind, op: Op)
    requires SteadyAfter(ops, kind) && op.Resets()
    ensures Complete(ops + [op], kind)
  {
    assert (ops + [op])[..|ops|] == ops;
  }

  lemma {:induction false} StepIsComplete(ops: seq<Op>, kind: Kind, op: Op)
    requires SteadyAfter(ops, kind) && Complete(ops, kind) && (op.Accept? ==> AcceptsTheRead(ops + [op], |ops|))
    requires !SkipsAt(ops + [op], |ops|, kind)
    ensures Complete(ops + [op], kind)
  {
    assert (ops + [op])[..|ops|] == ops;
    if op.Accept? && op.kind == kind {
      AcceptIsCompleteIff(ops, kind, op);
    } else if op.Resets() {
      ResetIsComplete(ops, kind, op);
    } else {
      if !op.Accept? { StepIsWrite(Run(ops), op, kind, Delivered(ops, kind), InFlight(ops, kind)); }
      hide FeedOk;
      hide Steady;
      hide AcceptsTheRead;
      hide SkipsAt;
    }
  }

  /**
   The feed is complete while nothing is skipped: sequence numbers are distinct, each version was handed
   over at most once and in order, and every record whose latest version was not lies past the cursor.
   */
  lemma {:induction false} FeedIsComplete(ops: seq<Op>, kind: Kind)
    requires Disciplined(ops) && !Skips(ops, kind)
    ensures Complete(ops, kind)
  {
    if ops != [] {
      var n := |ops| - 1;
      DisciplinedPrefix(ops, n);
      SkipsNotBefore(ops, n, kind);
      FeedIsComplete(ops[..n], kind);
      DisciplinedIsSteady(ops[..n], kind);
      assert ops == ops[..n] + [ops[n]];
      assert !SkipsAt(ops, n, kind);
      StepIsComplete(ops[..n], kind, ops[n]);
    }
  }

  lemma {:induction false} SkipsNotBefore(ops: seq<Op>, n: nat, kind: Kind)
    requires !Skips(ops, kind) && n <= |ops|
    ensures !Skips(ops[..n], kind)
  {
    forall m: nat | m < n ensures !SkipsAt(ops[..n], m, kind) {
      assert ops[..n][..m] == ops[..m];
      assert !SkipsAt(ops, m, kind);
    }
  }

  /**
   Whatever is written, repaired or reset between a read and its acceptance: the cursor never passes a
   latest version that was not handed over since its last reset, if and only if no window read before a
   reset is accepted after it with something left behind it.
   */
  lemma {:induction false} CursorNeverPassesIff(ops: seq<Op>, kind: Kind)
    requires Disciplined(ops)
    ensures (forall n: nat :: n <= |ops| ==> Complete(ops[..n], kind)) <==> !Skips(ops, kind)
  {
    if !Skips(ops, kind) {
      forall n: nat | n <= |ops| ensures Complete(ops[..n], kind) {
        DisciplinedPrefix(ops, n);
        SkipsNotBefore(ops, n, kind);
        FeedIsComplete(ops[..n], kind);
      }
    } else {
      var n: nat :| n < |ops| && SkipsAt(ops, n, kind);
      DisciplinedPrefix(ops, n);
      DisciplinedIsSteady(ops[..n], kind);
      assert ops[..n + 1] == ops[..n] + [ops[n]];
      assert AcceptsTheRead(ops, n);
      AcceptIsCompleteIff(ops[..n], kind, ops[n]);
      assert !Complete(ops[..n + 1], kind);
    }
  }

  lemma {:induction false} DisciplinedSnoc(ops: seq<Op>, op: Op)
    requires Disciplined(ops) && (op.Accept? ==> AcceptsTheRead(ops + [op], |ops|))
    ensures Disciplined(ops + [op])
  {
    var more := ops + [op];
    forall n | 0 <= n < |more| && more[n].Accept? ensures AcceptsTheRead(more, n) {
      if n < |ops| {
        assert more[..n] == ops[..n];
        assert AcceptsTheRead(ops, n);
      }
    }
  }

  lemma {:induction false} ResetMakesStale(ops: seq<Op>, kind: Kind)
    requires InFlight(ops, kind).Some?
    ensures InFlight(ops + [ResetCursors], kind) == Some(InFlight(ops, kind).value.(stale := true))
    ensures Run(ops + [ResetCursors]).Of(kind) == Run(ops).Of(kind)
  {
    assert (ops + [ResetCursors])[..|ops|] == ops;
  }

  lemma {:induction false} SomethingIsRead(t: Table, cursor: int, limit: int)
    requires DistinctVersions(t) && Past(t, cursor) != {} && limit != 0
    ensures Take(Pending(t, cursor), limit) != []
  {
    hide Pending;
    PendingIsOrdered(t, cursor);
    TakesSome(Pending(t, cursor), limit);
  }

  /** A read while something is pending puts it in flight; a reset then makes it stale. */
  lemma {:induction false} ReadThenReset(ops: seq<Op>, kind: Kind, limit: int)
    requires SteadyAfter(ops, kind) && Past(Run(ops).Of(kind), Run(ops).CursorOf(kind)) != {} && limit != 0
    ensures var run := ops + [Read(kind, limit)] + [ResetCursors];
            var r := InFlight(run, kind);
            && r.Some? && r.value.versions != [] && r.value.from == Run(ops).CursorOf(kind) && r.value.stale
            && Run(run).Of(kind) == Run(ops).Of(kind)
  {
    hide Pending;
    hide Take;
    hide InFlight;
    hide Run;
    hide Past;
    ReadIsInFlight(ops, kind, limit);
    ResetMakesStale(ops + [Read(kind, limit)], kind);
    SomethingIsRead(Run(ops).Of(kind), Run(ops).CursorOf(kind), limit);
  }

  /**
   Such a run: with one record handed over and another pending, a reset between the read of the second and
   its acceptance leaves the first behind, owed again and never sent.
   */
  lemma {:induction false} AResetInFlightSkips(ops: seq<Op>, kind: Kind, limit: int, ref: Ref) returns (high: int)
    requires Disciplined(ops) && limit != 0 && Past(Run(ops).Of(kind), Run(ops).CursorOf(kind)) != {}
    requires ref in Run(ops).Of(kind) && Run(ops).Of(kind)[ref].touched <= Run(ops).CursorOf(kind)
    ensures var run := ops + [Read(kind, limit)] + [ResetCursors] + [Accept(kind, high)];
            Disciplined(run) && !Complete(run, kind)
  {
    DisciplinedIsSteady(ops, kind);
    ReadThenReset(ops, kind, limit);
    hide InFlight;
    var run := ops + [Read(kind, limit)] + [ResetCursors];
    var r := InFlight(run, kind).value;
    high := r.High();
    DisciplinedSnoc(ops, Read(kind, limit));
    DisciplinedSnoc(ops + [Read(kind, limit)], ResetCursors);
    assert (run + [Accept(kind, high)])[..|run|] == run;
    assert AcceptsTheRead(run + [Accept(kind, high)], |run|);
    DisciplinedSnoc(run, Accept(kind, high));
    DisciplinedIsSteady(run, kind);
    assert LeavesBehind(Run(run).Of(kind), r);
    AcceptIsCompleteIff(run, kind, Accept(kind, high));
  }

  /** Whatever the interleaving so far: once writers stop, reads hand over everything that is owed. */
  lemma {:induction false} FeedDrains(ops: seq<Op>, kind: Kind, limit: int, n: nat)
    requires Disciplined(ops) && !Skips(ops, kind) && limit != 0
    ensures var t, cursor := Run(ops).Of(kind), Run(ops).CursorOf(kind);
            && DistinctVersions(t)
            && (|Pending(t, cursor)| <= n ==>
                  forall k :: k in t ==> Version(k, t[k].touched) in Delivered(ops, kind) || k in HandedOver(t, cursor, limit, n))
  {
    FeedIsComplete(ops, kind);
    var t, cursor := Run(ops).Of(kind), Run(ops).CursorOf(kind);
    ReadsDrain(t, cursor, limit, n);
    PendingIsOrdered(t, cursor);
  }

  // ---- provenance --------------------------------------------------------------------------

  /** The provenance an operation would stamp on a record, all three fields from one sighting. */
  ghost function Stamp(w: World, op: Op): Provenance
    requires op.UpsertDecision? || op.UpsertSpec? || op.Repair?
  {
    match op
    case UpsertDecision(_, _, sha, at, session) => Provenance(Some(sha), at, session)
    case UpsertSpec(repo, cap, sha, at, session, _) =>
      Provenance(CommitOf(sha), at,
                 if sha == "" then None
                 else if Ref(repo, cap.key) in w.specs then SessionOf(w.artifacts, sha) else session)
    case Repair(_, _, commit, createdAt) => Provenance(Some(commit), createdAt, SessionOf(w.artifacts, commit))
  }

  ghost predicate Concerns(op: Op, kind: Kind, ref: Ref) {
    match op
    case UpsertDecision(repo, cap, _, _, _) => kind == Decision && ref == Ref(repo, cap.key)
    case UpsertSpec(repo, cap, _, _, _, _) => kind == Spec && ref == Ref(repo, cap.key)
    case Repair(k, r, _, _) => kind == k && ref == r
    case _ => false
  }

  /** Some operation of the run on this record stamped exactly this provenance. */
  ghost predicate CameFromOne(ops: seq<Op>, kind: Kind, ref: Ref, p: Provenance) {
    exists n :: 0 <= n < |ops| && StampedAt(ops, n, kind, ref, p)
  }

  ghost predicate StampedAt(ops: seq<Op>, n: nat, kind: Kind, ref: Ref, p: Provenance)
    requires n < |ops|
  {
    Concerns(ops[n], kind, ref) && p == Stamp(Run(ops[..n]), ops[n])
  }

  lemma {:induction false} StepProvenance(w: World, op: Op, kind: Kind, ref: Ref)
    requires ref in Step(w, op).Of(kind)
    ensures var p := Step(w, op).Of(kind)[ref].first;
            (ref in w.Of(kind) && p == w.Of(kind)[ref].first) || (Concerns(op, kind, ref) && p == Stamp(w, op))
  {
  }

  /** Provenance never mixes sightings: commit, date and session always come from one operation. */
  lemma {:induction false} ProvenanceIsOneSighting(ops: seq<Op>, kind: Kind, ref: Ref)
    requires ref in Run(ops).Of(kind)
    ensures CameFromOne(ops, kind, ref, Run(ops).Of(kind)[ref].first)
  {
    var t, n := ops[..|ops| - 1], |ops| - 1;
    var p := Run(ops).Of(kind)[ref].first;
    StepProvenance(Run(t), ops[n], kind, ref);
    if ref in Run(t).Of(kind) && p == Run(t).Of(kind)[ref].first {
      ProvenanceIsOneSighting(t, kind, ref);
      var i :| 0 <= i < |t| && StampedAt(t, i, kind, ref, p);
      assert t[..i] == ops[..i];
      assert StampedAt(ops, i, kind, ref, p);
    } else {
      assert StampedAt(ops, n, kind, ref, p);
    }
  }

  /** First sight stays: later captures keep a record's provenance once it names a commit; only a repair changes it. */
  lemma {:induction false} FirstSightStays(ops: seq<Op>, more: seq<Op>, kind: Kind, ref: Ref)
    requires ref in Run(ops).Of(kind)
    requires kind == Decision || !IsBlank(Run(ops).Of(kind)[ref].first.commit)
    requires forall op :: op in more && op.Repair? ==> !(op.kind == kind && op.ref == ref)
    ensures ref in Run(ops + more).Of(kind) && Run(ops + more).Of(kind)[ref].first == Run(ops).Of(kind)[ref].first
  {
    if more == [] {
      assert ops + more == ops;
    } else {
      var n := |more| - 1;
      FirstSightStays(ops, more[..n], kind, ref);
      assert ops + more == (ops + more[..n]) + [more[n]];
      assert (ops + more)[..|ops + more| - 1] == ops + more[..n];
      assert more[n] in more;
      StepKeepsFirst(Run(ops + more[..n]), more[n], kind, ref);
    }
  }

  lemma {:induction false} StepKeepsFirst(w: World, op: Op, kind: Kind, ref: Ref)
    requires ref in w.Of(kind)
    requires kind == Decision || !IsBlank(w.Of(kind)[ref].first.commit)
    requires op.Repair? ==> !(op.kind == kind && op.ref == ref)
    ensures ref in Step(w, op).Of(kind) && Step(w, op).Of(kind)[ref].first == w.Of(kind)[ref].first
  {
  }

  // ---- the state stamp ---------------------------------------------------------------------

  /** The `n`-th operation writes this spec in a state it was not in. */
  ghost predicate ChangesState(ops: seq<Op>, n: nat, ref: Ref)
    requires n < |ops|
  {
    && Concerns(ops[n], Spec, ref) && ops[n].UpsertSpec?
    && (ref in Run(ops[..n]).specs ==> Run(ops[..n]).specs[ref].state != ops[n].cap.state)
  }

  /** The last such operation of the run. */
  ghost predicate LastChange(ops: seq<Op>, n: nat, ref: Ref)
    requires n < |ops|
  {
    ChangesState(ops, n, ref) && forall m :: n < m < |ops| ==> !ChangesState(ops, m, ref)
  }

  /** The stamp of a state is when the operation that brought it on observed it; no state, no stamp. */
  ghost predicate StampedBy(row: Row, op: Op)
    requires op.UpsertSpec?
  {
    row.state == op.cap.state && row.stateChangedAt == if op.cap.state.Some? then Some(op.observedAt) else None
  }

  lemma {:induction false} LaterChangesStay(ops: seq<Op>, n: nat, ref: Ref)
    requires n < |ops|
    ensures n < |ops| - 1 ==> (ChangesState(ops[..|ops| - 1], n, ref) <==> ChangesState(ops, n, ref))
  {
    if n < |ops| - 1 { assert ops[..|ops| - 1][..n] == ops[..n]; }
  }

  lemma {:induction false} OtherwiseUnchanged(ops: seq<Op>, ref: Ref)
    requires ops != [] && !ChangesState(ops, |ops| - 1, ref) && ref in Run(ops).specs
    ensures var before := Run(ops[..|ops| - 1]).specs;
            && ref in before && before[ref].state == Run(ops).specs[ref].state
            && before[ref].stateChangedAt == Run(ops).specs[ref].stateChangedAt
  {
  }

  lemma {:induction false} ChangeStamps(ops: seq<Op>, ref: Ref)
    requires ops != [] && ChangesState(ops, |ops| - 1, ref)
    ensures ref in Run(ops).specs && StampedBy(Run(ops).specs[ref], ops[|ops| - 1])
  {
  }

  /** A spec's state and its stamp are those of the last operation that changed the state. */
  lemma {:induction false} StampFollowsState(ops: seq<Op>, ref: Ref) returns (n: nat)
    requires ref in Run(ops).specs
    ensures n < |ops| && LastChange(ops, n, ref) && StampedBy(Run(ops).specs[ref], ops[n])
  {
    var last := |ops| - 1;
    if ChangesState(ops, last, ref) {
      ChangeStamps(ops, ref);
      n := last;
    } else {
      OtherwiseUnchanged(ops, ref);
      hide Run;
      n := StampFollowsState(ops[..last], ref);
      forall m: nat | m < last ensures ChangesState(ops[..last], m, ref) <==> ChangesState(ops, m, ref) {
        LaterChangesStay(ops, m, ref);
      }
    }
  }

  lemma {:induction false} StepKeepsCommit(w: World, op: Op, ref: Ref)
    requires ref in w.specs && w.specs[ref].lastCommit.Some?
    ensures ref in Step(w, op).specs && Step(w, op).specs[ref].lastCommit.Some?
  {
  }

  /** A commit on record is never blanked. */
  lemma {:induction false} CommitStays(ops: seq<Op>, more: seq<Op>, ref: Ref)
    requires ref in Run(ops).specs && Run(ops).specs[ref].lastCommit.Some?
    ensures ref in Run(ops + more).specs && Run(ops + more).specs[ref].lastCommit.Some?
  {
    if more == [] {
      assert ops + more == ops;
    } else {
      var n := |more| - 1;
      CommitStays(ops, more[..n], ref);
      assert ops + more == (ops + more[..n]) + [more[n]];
      assert (ops + more)[..|ops + more| - 1] == ops + more[..n];
      StepKeepsCommit(Run(ops + more[..n]), more[n], ref);
      hide Step;
    }
  }
}
