/** What a decision's or spec's row says in every reachable state, by the operations that came before. */
module KnowledgeRows {
  import opened Prelude
  import opened Feed
  import opened Knowledge

  predicate Captures(op: Op, kind: Kind, ref: Ref) {
    match op
    case UpsertDecision(repo, cap, _, _, _) => kind == Decision && ref == Ref(repo, cap.key)
    case UpsertSpec(repo, cap, _, _, _, _) => kind == Spec && ref == Ref(repo, cap.key)
    case _ => false
  }

  /** The last operation of the run that such a condition picks. */
  ghost predicate IsLast(ops: seq<Op>, n: nat, picks: Op -> bool) {
    n < |ops| && picks(ops[n]) && forall m :: n < m < |ops| ==> !picks(ops[m])
  }

  function CapturesOf(kind: Kind, ref: Ref): Op -> bool {
    (op: Op) => Captures(op, kind, ref)
  }

  ghost predicate SameElements(a: set<string>, b: seq<string>) {
    forall x :: x in a <==> x in b
  }

  /** The row carries what this capture said, and nothing of what it said before. */
  ghost predicate CarriesDecision(row: Row, op: Op) {
    && op.UpsertDecision?
    && row.text == op.cap.text && SameElements(row.globs, op.cap.globs) && row.links == {}
    && row.lastCommit == Some(op.sha) && row.updatedAt == op.at
    && row.state.None? && row.stateChangedAt.None?
  }

  ghost predicate CarriesSpec(row: Row, op: Op) {
    && op.UpsertSpec?
    && row.text == op.cap.text && SameElements(row.globs, op.cap.globs) && SameElements(row.links, op.cap.links)
    && row.updatedAt == op.at && row.state == op.cap.state
  }

  ghost predicate Carries(row: Row, op: Op, kind: Kind) {
    if kind == Decision then CarriesDecision(row, op) else CarriesSpec(row, op)
  }

  lemma {:induction false} StepCarries(w: World, op: Op, kind: Kind, ref: Ref)
    requires Captures(op, kind, ref)
    ensures ref in Step(w, op).Of(kind) && Carries(Step(w, op).Of(kind)[ref], op, kind)
  {
  }

  /** Whatever is not a capture of the record leaves what it carries alone, a repair included. */
  lemma {:induction false} StepLeaves(w: World, op: Op, kind: Kind, ref: Ref)
    requires !Captures(op, kind, ref)
    ensures ref in Step(w, op).Of(kind) <==> ref in w.Of(kind)
    ensures ref in w.Of(kind) ==>
              forall c :: Carries(w.Of(kind)[ref], c, kind) ==> Carries(Step(w, op).Of(kind)[ref], c, kind)
  {
  }

  /** A record is there exactly when it was once captured. */
  lemma {:induction false} RecordedIff(ops: seq<Op>, kind: Kind, ref: Ref)
    ensures ref in Run(ops).Of(kind) <==> exists n :: 0 <= n < |ops| && Captures(ops[n], kind, ref)
  {
    if ops != [] {
      var n := |ops| - 1;
      RecordedIff(ops[..n], kind, ref);
      if Captures(ops[n], kind, ref) {
        StepCarries(Run(ops[..n]), ops[n], kind, ref);
      } else {
        StepLeaves(Run(ops[..n]), ops[n], kind, ref);
        assert forall i :: 0 <= i < n ==> ops[..n][i] == ops[i];
      }
      hide Step;
    }
  }

  /** A row says what the last capture of its record said: text, globs, links, commit and time are replaced whole. */
  lemma {:induction false} RowsFollowCaptures(ops: seq<Op>, kind: Kind, ref: Ref) returns (n: nat)
    requires ref in Run(ops).Of(kind)
    ensures IsLast(ops, n, CapturesOf(kind, ref)) && Carries(Run(ops).Of(kind)[ref], ops[n], kind)
  {
    hide Step;
    hide Carries;
    hide Captures;
    var last := |ops| - 1;
    if Captures(ops[last], kind, ref) {
      StepCarries(Run(ops[..last]), ops[last], kind, ref);
      n := last;
    } else {
      StepLeaves(Run(ops[..last]), ops[last], kind, ref);
      n := RowsFollowCaptures(ops[..last], kind, ref);
    }
  }

  // ---- the last commit of a spec -----------------------------------------------------------

  /** A capture of the spec that names a commit. */
  function CommitsTo(ref: Ref): Op -> bool {
    (op: Op) => Captures(op, Spec, ref) && op.sha != ""
  }

  lemma {:induction false} StepCommit(w: World, op: Op, ref: Ref)
    ensures CommitsTo(ref)(op) ==> Step(w, op).specs[ref].lastCommit == Some(op.sha)
    ensures !CommitsTo(ref)(op) && ref in w.specs ==> Step(w, op).specs[ref].lastCommit == w.specs[ref].lastCommit
    ensures !CommitsTo(ref)(op) && ref !in w.specs && ref in Step(w, op).specs ==> Step(w, op).specs[ref].lastCommit == None
  {
  }

  lemma {:induction false} SameLast(ops: seq<Op>, picks: Op -> bool)
    requires ops != [] && !picks(ops[|ops| - 1])
    ensures forall i: nat :: IsLast(ops[..|ops| - 1], i, picks) <==> IsLast(ops, i, picks)
    ensures forall i: nat :: i < |ops| - 1 ==> ops[..|ops| - 1][i] == ops[i]
  {
    var t := ops[..|ops| - 1];
    forall i: nat ensures IsLast(t, i, picks) <==> IsLast(ops, i, picks) {
      if IsLast(t, i, picks) { assert forall m :: i < m < |t| ==> t[m] == ops[m]; }
      if IsLast(ops, i, picks) { assert i != |t|; }
    }
  }

  /** A spec's last commit is that of its last capture that named one, or none if none did. */
  lemma {:induction false} LastCommitIff(ops: seq<Op>, ref: Ref)
    requires ref in Run(ops).specs
    ensures forall sha :: Run(ops).specs[ref].lastCommit == Some(sha) <==>
                          exists n: nat :: IsLast(ops, n, CommitsTo(ref)) && ops[n].sha == sha
  {
    hide Step;
    hide Captures;
    var n := |ops| - 1;
    var t, op := ops[..n], ops[n];
    StepCommit(Run(t), op, ref);
    if CommitsTo(ref)(op) {
      assert IsLast(ops, n, CommitsTo(ref));
    } else if ref in Run(t).specs {
      LastCommitIff(t, ref);
      SameLast(ops, CommitsTo(ref));
    } else {
      NeverCaptured(t, ref);
    }
  }

  lemma {:induction false} NeverCaptured(ops: seq<Op>, ref: Ref)
    requires ref !in Run(ops).specs
    ensures forall n :: 0 <= n < |ops| ==> !CommitsTo(ref)(ops[n])
  {
    RecordedIff(ops, Spec, ref);
  }

  // ---- first sight of a spec ---------------------------------------------------------------

  /** The `n`-th operation names a commit for the spec: a capture that has one, or a repair of a record there is. */
  ghost predicate NamesAt(ops: seq<Op>, n: nat, ref: Ref)
    requires n < |ops|
  {
    CommitsTo(ref)(ops[n]) || (RepairsAt(ops, n, ref) && ops[n].commit != "")
  }

  ghost predicate RepairsAt(ops: seq<Op>, n: nat, ref: Ref)
    requires n < |ops|
  {
    ops[n].Repair? && ops[n].kind == Spec && ops[n].ref == ref && ref in Run(ops[..n]).specs
  }

  ghost predicate BlanksAt(ops: seq<Op>, n: nat, ref: Ref)
    requires n < |ops|
  {
    RepairsAt(ops, n, ref) && ops[n].commit == ""
  }

  /** Some operation named a commit and no repair blanked it since. */
  ghost predicate NamedAndKept(ops: seq<Op>, ref: Ref) {
    exists n :: 0 <= n < |ops| && NamesAt(ops, n, ref) && forall m :: n < m < |ops| ==> !BlanksAt(ops, m, ref)
  }

  ghost predicate HasFirst(ops: seq<Op>, ref: Ref) {
    ref in Run(ops).specs && !IsBlank(Run(ops).specs[ref].first.commit)
  }

  lemma {:induction false} StepFirst(ops: seq<Op>, ref: Ref)
    requires ops != []
    ensures var n := |ops| - 1;
            HasFirst(ops, ref) <==> NamesAt(ops, n, ref) || (HasFirst(ops[..n], ref) && !BlanksAt(ops, n, ref))
  {
  }

  lemma {:induction false} SamePrefix(ops: seq<Op>, n: nat, m: nat, ref: Ref)
    requires m < n <= |ops|
    ensures NamesAt(ops[..n], m, ref) <==> NamesAt(ops, m, ref)
    ensures BlanksAt(ops[..n], m, ref) <==> BlanksAt(ops, m, ref)
  {
    assert ops[..n][..m] == ops[..m];
  }

  /** The first real commit fills a spec's first sight: it is blank exactly when no commit was named and kept. */
  lemma {:induction false} FirstSightIff(ops: seq<Op>, ref: Ref)
    ensures HasFirst(ops, ref) <==> NamedAndKept(ops, ref)
  {
    if ops != [] {
      hide HasFirst;
      hide NamesAt;
      hide BlanksAt;
      var n := |ops| - 1;
      FirstSightIff(ops[..n], ref);
      StepFirst(ops, ref);
      forall m | 0 <= m < n
        ensures NamesAt(ops[..n], m, ref) <==> NamesAt(ops, m, ref)
        ensures BlanksAt(ops[..n], m, ref) <==> BlanksAt(ops, m, ref)
      {
        SamePrefix(ops, n, m, ref);
      }
    } else {
      assert !HasFirst(ops, ref);
    }
  }

  // ---- whose first sight it is -------------------------------------------------------------

  /** The `n`-th operation sets the record's provenance: it brings it in, fills a blank, or repairs it. */
  ghost predicate SetsFirst(ops: seq<Op>, n: nat, kind: Kind, ref: Ref)
    requires n < |ops|
  {
    var before := Run(ops[..n]).Of(kind);
    || (Captures(ops[n], kind, ref) && ref !in before)
    || (kind == Spec && CommitsTo(ref)(ops[n]) && !HasFirst(ops[..n], ref))
    || (ops[n].Repair? && ops[n].kind == kind && ops[n].ref == ref && ref in before)
  }

  lemma {:induction false} StepSetsFirst(ops: seq<Op>, kind: Kind, ref: Ref)
    requires ops != [] && ref in Run(ops).Of(kind)
    ensures var n := |ops| - 1;
            var before, first := Run(ops[..n]).Of(kind), Run(ops).Of(kind)[ref].first;
            if SetsFirst(ops, n, kind, ref) then StampedAt(ops, n, kind, ref, first)
            else ref in before && first == before[ref].first
  {
  }

  /** A record's first sight is that of the last operation that brought it in, filled it or repaired it. */
  lemma {:induction false} FirstSightIsLastSet(ops: seq<Op>, kind: Kind, ref: Ref) returns (n: nat)
    requires ref in Run(ops).Of(kind)
    ensures n < |ops| && SetsFirst(ops, n, kind, ref) && StampedAt(ops, n, kind, ref, Run(ops).Of(kind)[ref].first)
    ensures forall m :: n < m < |ops| ==> !SetsFirst(ops, m, kind, ref)
  {
    var last := |ops| - 1;
    StepSetsFirst(ops, kind, ref);
    hide SetsFirst;
    hide Run;
    if SetsFirst(ops, last, kind, ref) {
      n := last;
    } else {
      n := FirstSightIsLastSet(ops[..last], kind, ref);
      forall m: nat | m < last ensures SetsFirst(ops[..last], m, kind, ref) <==> SetsFirst(ops, m, kind, ref) {
        SameSetter(ops, m, kind, ref);
      }
      assert ops[..last][..n] == ops[..n];
    }
  }

  lemma {:induction false} SameSetter(ops: seq<Op>, m: nat, kind: Kind, ref: Ref)
    requires m < |ops| - 1
    ensures SetsFirst(ops[..|ops| - 1], m, kind, ref) <==> SetsFirst(ops, m, kind, ref)
  {
    assert ops[..|ops| - 1][..m] == ops[..m];
  }

  // ---- whose commit it is ------------------------------------------------------------------

  predicate RecordsSha(op: Op, sha: string) {
    op.RecordArtifact? && op.sha == sha
  }

  ghost predicate WipedAfter(ops: seq<Op>, n: nat) {
    exists m :: n < m < |ops| && ops[m].Nuke?
  }

  /** The `n`-th operation is the first to record the commit since the last wipe. */
  ghost predicate RecordedAt(ops: seq<Op>, n: nat, sha: string) {
    && n < |ops| && RecordsSha(ops[n], sha) && !WipedAfter(ops, n)
    && forall m :: 0 <= m < n && RecordsSha(ops[m], sha) ==> WipedAfter(ops[..n], m)
  }

  lemma {:induction false} WipedSnoc(ops: seq<Op>, n: nat)
    requires n < |ops| - 1
    ensures WipedAfter(ops, n) <==> WipedAfter(ops[..|ops| - 1], n) || ops[|ops| - 1].Nuke?
  {
    var t := ops[..|ops| - 1];
    assert forall m :: 0 <= m < |t| ==> t[m] == ops[m];
  }

  ghost predicate HeldAt(ops: seq<Op>, n: nat, sha: string) {
    n < |ops| && RecordsSha(ops[n], sha) && !WipedAfter(ops, n)
  }

  lemma {:induction false} HeldBefore(ops: seq<Op>, n: nat, sha: string)
    requires n < |ops| - 1
    ensures HeldAt(ops, n, sha) <==> HeldAt(ops[..|ops| - 1], n, sha) && !ops[|ops| - 1].Nuke?
  {
    WipedSnoc(ops, n);
    hide WipedAfter;
  }

  lemma {:induction false} HeldAtEnd(ops: seq<Op>, sha: string)
    requires ops != []
    ensures HeldAt(ops, |ops| - 1, sha) <==> RecordsSha(ops[|ops| - 1], sha)
    ensures forall n: nat :: HeldAt(ops, n, sha) ==> n < |ops|
  {
  }

  lemma {:induction false} ArtifactHeldIff(ops: seq<Op>, sha: string)
    ensures sha in Run(ops).artifacts <==> exists n: nat :: HeldAt(ops, n, sha)
  {
    if ops == [] {
      assert forall n: nat :: !HeldAt([], n, sha);
    } else {
      var last, t := |ops| - 1, ops[..|ops| - 1];
      ArtifactHeldIff(t, sha);
      HeldAtEnd(ops, sha);
      if t != [] { HeldAtEnd(t, sha); }
      StepArtifacts(Run(t), ops[last], sha);
      assert forall n: nat :: HeldAt(t, n, sha) ==> n < last;
      forall n: nat | n < last ensures HeldAt(ops, n, sha) <==> HeldAt(t, n, sha) && !ops[last].Nuke? {
        HeldBefore(ops, n, sha);
      }
      hide HeldAt;
      hide Step;
      hide SessionOf;
    }
  }

  ghost predicate SessionFits(a: Artifacts, ops: seq<Op>, sha: string) {
    && (sha in a <==> exists n: nat :: RecordedAt(ops, n, sha))
    && (forall n: nat :: RecordedAt(ops, n, sha) ==> SessionOf(a, sha) == ops[n].session)
    && (sha !in a ==> SessionOf(a, sha) == None)
  }

  lemma {:induction false} StepArtifacts(w: World, op: Op, sha: string)
    ensures var a, b := w.artifacts, Step(w, op).artifacts;
            if op.Nuke? then sha !in b
            else if RecordsSha(op, sha) && sha !in a then sha in b && SessionOf(b, sha) == op.session
            else (sha in b <==> sha in a) && SessionOf(b, sha) == SessionOf(a, sha)
  {
  }

  lemma {:induction false} RecordedBefore(ops: seq<Op>, n: nat, sha: string)
    requires n < |ops| - 1
    ensures var t := ops[..|ops| - 1];
            t[n] == ops[n] && (RecordedAt(ops, n, sha) <==> RecordedAt(t, n, sha) && !ops[|ops| - 1].Nuke?)
  {
    WipedSnoc(ops, n);
    assert ops[..|ops| - 1][..n] == ops[..n];
    hide WipedAfter;
  }

  /** A repair or a fill names the session that recorded the commit first, as far as the log still knows. */
  lemma {:induction false} SessionIsFirstRecorder(ops: seq<Op>, sha: string)
    ensures SessionFits(Run(ops).artifacts, ops, sha)
  {
    if ops != [] {
      var last, t := |ops| - 1, ops[..|ops| - 1];
      SessionIsFirstRecorder(t, sha);
      RecordedAtEnd(ops, sha);
      StepArtifacts(Run(t), ops[last], sha);
      forall n: nat | n < last ensures t[n] == ops[n] && (RecordedAt(ops, n, sha) <==> RecordedAt(t, n, sha) && !ops[last].Nuke?) {
        RecordedBefore(ops, n, sha);
      }
      RecordedInside(t, sha);
      hide WipedAfter;
      hide RecordedAt;
      hide Step;
      hide SessionOf;
    }
  }

  lemma {:induction false} RecordedInside(ops: seq<Op>, sha: string)
    ensures forall n: nat :: RecordedAt(ops, n, sha) ==> n < |ops|
  {
  }

  lemma {:induction false} RecordedAtEnd(ops: seq<Op>, sha: string)
    requires ops != []
    ensures var last := |ops| - 1;
            RecordedAt(ops, last, sha) <==> RecordsSha(ops[last], sha) && sha !in Run(ops[..last]).artifacts
    ensures forall n: nat :: RecordedAt(ops, n, sha) ==> n <= |ops| - 1
  {
    var t := ops[..|ops| - 1];
    ArtifactHeldIff(t, sha);
    assert !WipedAfter(ops, |ops| - 1);
    assert forall m :: 0 <= m < |t| ==> t[m] == ops[m];
    forall m: nat | m < |t| ensures HeldAt(t, m, sha) <==> RecordsSha(ops[m], sha) && !WipedAfter(t, m) {}
    forall m: nat ensures HeldAt(t, m, sha) ==> m < |t| {}
    hide HeldAt;
    hide WipedAfter;
    hide Run;
  }
}
