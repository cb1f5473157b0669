/** A session's orchestration facts, folded from its events. */
module Lineage {
  import opened Prelude
  import opened Paths
  import opened Events

  const MAX_REPOS: nat := 32

  datatype Facts = Facts(orchestrator: bool, parentSession: Option<string>, workspace: Option<string>,
                         trigger: Option<Trigger>, triggerName: Option<string>, repos: set<string>,
                         spawned: bool, scratch: bool, repoOutsideScratch: bool)

  const START: Facts := Facts(false, None, None, None, None, {}, false, false, false)

  /** The projection a session rollup carries on the wire. */
  datatype Wire = Wire(repoCanonical: Option<string>, isOrchestrator: bool, parentSession: Option<string>,
                       repos: Option<set<string>>, workspaceRef: Option<string>,
                       trigger: Option<Trigger>, triggerName: Option<string>)

  function WireOf(f: Facts, firstSeen: Option<string>): Wire {
    Wire(if f.orchestrator then None else firstSeen,
         f.orchestrator,
         f.parentSession,
         if (f.orchestrator || f.spawned) && f.repos != {} then Some(f.repos) else None,
         if f.orchestrator then f.workspace else None,
         f.trigger, f.triggerName)
  }

  /** What `observe` compares before and after. */
  function Shape(f: Facts): (bool, bool, bool, bool, nat, bool, bool) {
    (f.orchestrator, f.spawned, f.parentSession.Some?, f.workspace.Some?, |f.repos|, f.trigger.Some?, f.triggerName.Some?)
  }

  function FirstWins<T>(have: Option<T>, seen: Option<T>): Option<T> {
    if have.None? then seen else have
  }

  /** The cwd is known and lies in no scratch workspace. */
  predicate KnownOutside(cwd: Option<string>) {
    cwd.Some? && ScratchWorkspace(cwd.value).None?
  }

  predicate OutsideScratch(e: RawEvent) {
    e.project.Some? && KnownOutside(e.cwd)
  }

  function WithRepo(repos: set<string>, project: Option<string>): set<string> {
    if project.Some? && |repos| < MAX_REPOS then repos + {project.value} else repos
  }

  /** One event folded into the facts. */
  function Step(f: Facts, e: RawEvent): Facts {
    var spawned := f.spawned || e.lineage.spawned.Some?;
    var scratch := f.scratch || e.lineage.workspace.Some?;
    var outside := f.repoOutsideScratch || OutsideScratch(e);
    var repos := WithRepo(f.repos, e.project);
    Facts((spawned || (scratch && repos != {})) && !outside,
          FirstWins(f.parentSession, e.lineage.parentSession),
          FirstWins(f.workspace, e.lineage.workspace),
          FirstWins(f.trigger, e.lineage.trigger),
          FirstWins(f.triggerName, e.lineage.triggerName),
          repos, spawned, scratch, outside)
  }

  function FoldEvents(events: seq<RawEvent>): Facts {
    if events == [] then START else Step(FoldEvents(events[..|events| - 1]), events[|events| - 1])
  }

  class SessionLineage {
    var orchestrator: bool
    var parentSession: Option<string>
    var workspace: Option<string>
    var trigger: Option<Trigger>
    var triggerName: Option<string>
    var repos: set<string>
    var spawned: bool
    var scratch: bool
    var repoOutsideScratch: bool

    constructor ()
      ensures State() == START
    {
      orchestrator, spawned, scratch, repoOutsideScratch := false, false, false, false;
      parentSession, workspace, trigger, triggerName := None, None, None, None;
      repos := {};
    }

    function State(): Facts
      reads this
    {
      Facts(orchestrator, parentSession, workspace, trigger, triggerName, repos, spawned, scratch, repoOutsideScratch)
    }

    /** Folds `e` in and says whether anything the wire reads may have changed. */
    method Observe(e: RawEvent) returns (changed: bool)
      modifies this
      ensures State() == Step(old(State()), e)
      ensures changed <==> Shape(State()) != Shape(old(State()))
    {
      hide WithRepo;
      hide OutsideScratch;
      var before := Shape(State());
      ObserveEvidence(e);
      orchestrator := (spawned || (scratch && repos != {})) && !repoOutsideScratch;
      if parentSession.None? {
        parentSession := e.lineage.parentSession;
      }
      if workspace.None? {
        workspace := e.lineage.workspace;
      }
      var _ := ObserveTrigger(e.lineage.trigger, e.lineage.triggerName);
      changed := Shape(State()) != before;
    }

    /** The raw flags, which only turn on, and the repos, which only grow. */
    method ObserveEvidence(e: RawEvent)
      modifies this`spawned, this`scratch, this`repoOutsideScratch, this`repos
      ensures spawned == (old(spawned) || e.lineage.spawned.Some?)
      ensures scratch == (old(scratch) || e.lineage.workspace.Some?)
      ensures repoOutsideScratch == (old(repoOutsideScratch) || OutsideScratch(e))
      ensures repos == WithRepo(old(repos), e.project)
    {
      spawned := spawned || e.lineage.spawned.Some?;
      scratch := scratch || e.lineage.workspace.Some?;
      if !repoOutsideScratch && e.project.Some? {
        repoOutsideScratch := KnownOutside(e.cwd);
      }
      if e.project.Some? {
        if |repos| < MAX_REPOS && e.project.value !in repos {
          repos := repos + {e.project.value};
        }
      }
      assert repos == WithRepo(old(repos), e.project);
    }

    /** First non-null wins per field; nothing is ever cleared. */
    method ObserveTrigger(t: Option<Trigger>, name: Option<string>) returns (changed: bool)
      modifies this`trigger, this`triggerName
      ensures trigger == FirstWins(old(trigger), t) && triggerName == FirstWins(old(triggerName), name)
      ensures changed <==> trigger != old(trigger) || triggerName != old(triggerName)
    {
      var before := (trigger, triggerName.Some?);
      if trigger.None? {
        trigger := t;
      }
      if triggerName.None? {
        triggerName := name;
      }
      changed := before != (trigger, triggerName.Some?);
    }
  }

  // ---- the closed form of the verdict ------------------------------------------------------

  ghost predicate SomeSpawn(events: seq<RawEvent>) {
    exists i :: 0 <= i < |events| && events[i].lineage.spawned.Some?
  }

  ghost predicate SomeScratch(events: seq<RawEvent>) {
    exists i :: 0 <= i < |events| && events[i].lineage.workspace.Some?
  }

  ghost predicate SomeRepo(events: seq<RawEvent>) {
    exists i :: 0 <= i < |events| && events[i].project.Some?
  }

  ghost predicate SomeRepoOutside(events: seq<RawEvent>) {
    exists i :: 0 <= i < |events| && OutsideScratch(events[i])
  }

  ghost predicate Coordinates(events: seq<RawEvent>) {
    (SomeSpawn(events) || (SomeScratch(events) && SomeRepo(events))) && !SomeRepoOutside(events)
  }

  lemma {:induction false} FlagsAreMemory(events: seq<RawEvent>)
    ensures var f := FoldEvents(events);
            && (f.spawned <==> SomeSpawn(events))
            && (f.scratch <==> SomeScratch(events))
            && (f.repoOutsideScratch <==> SomeRepoOutside(events))
            && (f.repos != {} <==> SomeRepo(events))
  {
    if events != [] {
      FlagsAreMemory(events[..|events| - 1]);
      SomeSnoc(events);
      hide OutsideScratch;
      hide SomeSpawn;
      hide SomeScratch;
      hide SomeRepo;
      hide SomeRepoOutside;
    }
  }

  lemma {:induction false} SomeSnoc(events: seq<RawEvent>)
    requires events != []
    ensures var r, e := events[..|events| - 1], events[|events| - 1];
            && (SomeSpawn(events) <==> SomeSpawn(r) || e.lineage.spawned.Some?)
            && (SomeScratch(events) <==> SomeScratch(r) || e.lineage.workspace.Some?)
            && (SomeRepoOutside(events) <==> SomeRepoOutside(r) || OutsideScratch(e))
            && (SomeRepo(events) <==> SomeRepo(r) || e.project.Some?)
  {
    hide OutsideScratch;
    var n, r := |events| - 1, events[..|events| - 1];
    assert forall i :: 0 <= i < n ==> r[i] == events[i];
  }

  /** The verdict over a whole run, in any number of events. */
  lemma {:induction false} VerdictIsClosedForm(events: seq<RawEvent>)
    ensures FoldEvents(events).orchestrator <==> Coordinates(events)
  {
    FlagsAreMemory(events);
    if events != [] {
      var last := Step(FoldEvents(events[..|events| - 1]), events[|events| - 1]);
    }
  }

  /** The cwd, when it is known, lies in some scratch workspace, going by the names on it. */
  ghost predicate InScratch(cwd: Option<string>) {
    cwd.Some? ==> exists w :: InWorkspace(Names(Components(cwd.value)), w)
  }

  lemma {:induction false} InScratchIff(cwd: Option<string>)
    ensures InScratch(cwd) <==> !KnownOutside(cwd)
  {
    if cwd.Some? {
      forall w ensures ScratchWorkspace(cwd.value) == Some(w) <==> InWorkspace(Names(Components(cwd.value)), w) {
        ScratchWorkspaceIff(cwd.value, w);
      }
    }
  }

  /**
   The verdict by paths alone: a session orchestrates if and only if it spawned others, or worked from a
   scratch workspace on some repo, and no repo was seen from a known directory outside a workspace.
   */
  lemma {:induction false} VerdictByPaths(events: seq<RawEvent>)
    ensures FoldEvents(events).orchestrator <==>
            && (SomeSpawn(events) || (SomeScratch(events) && SomeRepo(events)))
            && forall i :: 0 <= i < |events| && events[i].project.Some? ==> InScratch(events[i].cwd)
  {
    VerdictIsClosedForm(events);
    forall i | 0 <= i < |events| ensures OutsideScratch(events[i]) <==> events[i].project.Some? && !InScratch(events[i].cwd) {
      InScratchIff(events[i].cwd);
    }
  }

  /** A scratch run on clones: whatever directories below workspaces its repos are seen from, it orchestrates. */
  lemma {:induction false} ScratchRunOrchestrates(events: seq<RawEvent>, dirs: seq<string>, subs: seq<string>)
    requires |dirs| == |subs| == |events| && SomeScratch(events) && SomeRepo(events)
    requires forall i :: 0 <= i < |events| && events[i].project.Some? ==>
               ScratchWorkspace(dirs[i]).Some? && events[i].cwd == Some(dirs[i] + "/" + subs[i])
    ensures FoldEvents(events).orchestrator
  {
    VerdictIsClosedForm(events);
    forall i | 0 <= i < |events| ensures !OutsideScratch(events[i]) {
      if events[i].project.Some? { BelowIsSameWorkspace(dirs[i], subs[i]); }
    }
  }

  /** Reordering the events of a session never changes its verdict. */
  lemma {:induction false} VerdictIgnoresOrder(a: seq<RawEvent>, b: seq<RawEvent>)
    requires multiset(a) == multiset(b)
    ensures FoldEvents(a).orchestrator == FoldEvents(b).orchestrator
  {
    VerdictIsClosedForm(a);
    VerdictIsClosedForm(b);
    SameMultisetSameMembers(a, b);
    SameMultisetSameMembers(b, a);
  }

  lemma {:induction false} SameMultisetSameMembers(a: seq<RawEvent>, b: seq<RawEvent>)
    requires multiset(a) == multiset(b)
    ensures SomeSpawn(a) ==> SomeSpawn(b)
    ensures SomeScratch(a) ==> SomeScratch(b)
    ensures SomeRepo(a) ==> SomeRepo(b)
    ensures SomeRepoOutside(a) ==> SomeRepoOutside(b)
  {
    forall i | 0 <= i < |a| ensures exists j :: 0 <= j < |b| && b[j] == a[i] {
      assert a[i] in multiset(b);
      assert a[i] in b;
    }
  }

  /** Over a growing run the verdict goes off, on, off at most once: once it turns off it stays off. */
  lemma {:induction false} VerdictFlipsOnceAtMost(events: seq<RawEvent>, i: nat, j: nat, k: nat)
    requires i <= j <= k <= |events|
    requires FoldEvents(events[..i]).orchestrator && !FoldEvents(events[..j]).orchestrator
    ensures !FoldEvents(events[..k]).orchestrator
    ensures !FoldEvents([]).orchestrator
  {
    VerdictIsClosedForm(events[..i]);
    VerdictIsClosedForm(events[..j]);
    VerdictIsClosedForm(events[..k]);
    PrefixKeepsFacts(events, i, j);
    PrefixKeepsFacts(events, j, k);
  }

  lemma {:induction false} PrefixKeepsFacts(events: seq<RawEvent>, i: nat, j: nat)
    requires i <= j <= |events|
    ensures SomeSpawn(events[..i]) ==> SomeSpawn(events[..j])
    ensures SomeScratch(events[..i]) ==> SomeScratch(events[..j])
    ensures SomeRepo(events[..i]) ==> SomeRepo(events[..j])
    ensures SomeRepoOutside(events[..i]) ==> SomeRepoOutside(events[..j])
  {
    assert forall x :: 0 <= x < i ==> events[..i][x] == events[..j][x];
  }

  /** Whenever any wire projection changes for a session's first-seen project, `Observe` returned true. */
  lemma {:induction false} ChangeUnderOneProject(f: Facts, e: RawEvent, firstSeen: Option<string>)
    requires WireOf(Step(f, e), firstSeen) != WireOf(f, firstSeen)
    ensures Shape(Step(f, e)) != Shape(f)
  {
    if |WithRepo(f.repos, e.project)| == |f.repos| {
      SubsetSameSize(f.repos, WithRepo(f.repos, e.project));
    }
  }

  /** The first project the events name. */
  function FirstSeen(events: seq<RawEvent>): Option<string> {
    if events == [] then None else FirstWins(FirstSeen(events[..|events| - 1]), events[|events| - 1].project)
  }

  lemma {:induction false} NothingSeenNoRepo(events: seq<RawEvent>)
    requires FirstSeen(events).None?
    ensures FoldEvents(events).repos == {}
  {
    if events != [] { NothingSeenNoRepo(events[..|events| - 1]); }
  }

  /** Whenever any wire projection changes, that of the first-seen project included, `Observe` returned true. */
  lemma {:induction false} WireChangeIsReported(events: seq<RawEvent>, e: RawEvent)
    requires WireOf(FoldEvents(events + [e]), FirstSeen(events + [e])) != WireOf(FoldEvents(events), FirstSeen(events))
    ensures Shape(FoldEvents(events + [e])) != Shape(FoldEvents(events))
  {
    assert (events + [e])[..|events|] == events;
    if FirstSeen(events + [e]) == FirstSeen(events) {
      ChangeUnderOneProject(FoldEvents(events), e, FirstSeen(events));
    } else {
      NothingSeenNoRepo(events);
    }
  }

  /** A live session: its facts, its project as shown, and the wire projection cached for both. */
  datatype Live = Live(facts: Facts, project: Option<string>, wire: Wire)

  /** The cache is refreshed only when `Observe` says so or a project appears or goes. */
  function Track(l: Live, e: RawEvent): Live {
    var facts := Step(l.facts, e);
    var project := if facts.orchestrator then None else FirstWins(l.project, e.project);
    var stale := Shape(facts) != Shape(l.facts) || project.Some? != l.project.Some?;
    Live(facts, project, if stale then WireOf(facts, project) else l.wire)
  }

  function TrackAll(events: seq<RawEvent>): Live {
    if events == [] then Live(START, None, WireOf(START, None))
    else Track(TrackAll(events[..|events| - 1]), events[|events| - 1])
  }

  /** The cached projection is always that of the facts and project of the moment. */
  lemma {:induction false} CachedWireIsFresh(events: seq<RawEvent>)
    ensures var l := TrackAll(events);
            l.facts == FoldEvents(events) && l.wire == WireOf(l.facts, l.project)
  {
    if events != [] {
      var t, e := events[..|events| - 1], events[|events| - 1];
      CachedWireIsFresh(t);
      var l := TrackAll(t);
      if WireOf(Step(l.facts, e), l.project) != WireOf(l.facts, l.project) {
        ChangeUnderOneProject(l.facts, e, l.project);
      }
    }
  }

  lemma {:induction false} SubsetSameSize(a: set<string>, b: set<string>)
    requires a <= b && |a| == |b|
    ensures a == b
  {
    assert |b - a| == |b| - |a|;
  }

  /** The repos kept are repos seen, all of them unless the cap was reached. */
  lemma {:induction false} ReposAreTheOnesSeen(events: seq<RawEvent>, r: string)
    ensures r in FoldEvents(events).repos ==> exists i :: 0 <= i < |events| && events[i].project == Some(r)
    ensures |FoldEvents(events).repos| < MAX_REPOS ==>
            forall i :: 0 <= i < |events| && events[i].project == Some(r) ==> r in FoldEvents(events).repos
    ensures |FoldEvents(events).repos| <= MAX_REPOS
  {
    if events != [] {
      var n, t := |events| - 1, events[..|events| - 1];
      ReposAreTheOnesSeen(t, r);
      var before, after := FoldEvents(t).repos, FoldEvents(events).repos;
      assert forall i :: 0 <= i < n ==> t[i] == events[i];
      assert |before| <= |after| by { assert after == before + (after - before); }
      if r in after && r !in before {
        assert events[n].project == Some(r);
      }
    }
  }

  /** `v` is what the earliest event that says anything says. */
  ghost predicate IsFirstSaid<T>(events: seq<RawEvent>, says: RawEvent -> Option<T>, v: Option<T>) {
    if v.None? then forall i :: 0 <= i < |events| ==> says(events[i]).None?
    else exists i :: 0 <= i < |events| && says(events[i]) == v && forall j :: 0 <= j < i ==> says(events[j]).None?
  }

  lemma {:induction false} FirstSaidStays<T>(events: seq<RawEvent>, e: RawEvent, says: RawEvent -> Option<T>, v: Option<T>)
    requires IsFirstSaid(events, says, v)
    ensures IsFirstSaid(events + [e], says, FirstWins(v, says(e)))
  {
    var s := events + [e];
    assert s[|events|] == e && forall i :: 0 <= i < |events| ==> s[i] == events[i];
    if v.Some? {
      var i :| 0 <= i < |events| && says(events[i]) == v && forall j :: 0 <= j < i ==> says(events[j]).None?;
      assert says(s[i]) == v && forall j :: 0 <= j < i ==> says(s[j]).None?;
    }
  }

  const PARENT: RawEvent -> Option<string> := (e: RawEvent) => e.lineage.parentSession
  const WORKSPACE: RawEvent -> Option<string> := (e: RawEvent) => e.lineage.workspace
  const TRIGGER: RawEvent -> Option<Trigger> := (e: RawEvent) => e.lineage.trigger
  const TRIGGER_NAME: RawEvent -> Option<string> := (e: RawEvent) => e.lineage.triggerName

  /** Links and triggers are the first ones seen, and never cleared. */
  lemma {:induction false} LinksAreTheFirst(events: seq<RawEvent>)
    ensures var f := FoldEvents(events);
            && IsFirstSaid(events, PARENT, f.parentSession) && IsFirstSaid(events, WORKSPACE, f.workspace)
            && IsFirstSaid(events, TRIGGER, f.trigger) && IsFirstSaid(events, TRIGGER_NAME, f.triggerName)
  {
    if events != [] {
      var t, e := events[..|events| - 1], events[|events| - 1];
      var f := FoldEvents(t);
      LinksAreTheFirst(t);
      assert events == t + [e];
      FirstSaidStays(t, e, PARENT, f.parentSession);
      FirstSaidStays(t, e, WORKSPACE, f.workspace);
      FirstSaidStays(t, e, TRIGGER, f.trigger);
      FirstSaidStays(t, e, TRIGGER_NAME, f.triggerName);
    }
  }

  // ---- what the wire shows -----------------------------------------------------------------

  lemma {:induction false} FirstSeenIsFirst(events: seq<RawEvent>)
    ensures IsFirstSaid(events, ProjectOf, FirstSeen(events))
  {
    if events != [] {
      var t, e := events[..|events| - 1], events[|events| - 1];
      FirstSeenIsFirst(t);
      FirstSaidStays(t, e, ProjectOf, FirstSeen(t));
      assert events == t + [e];
    }
  }

  /** An orchestrator shows its first workspace and no repo of its own. */
  ghost predicate ShowsCoordination(events: seq<RawEvent>, w: Wire) {
    w.isOrchestrator && w.repoCanonical.None? && IsFirstSaid(events, WORKSPACE, w.workspaceRef)
  }

  /** Any other session shows the first project it was seen in and no workspace. */
  ghost predicate ShowsProject(events: seq<RawEvent>, w: Wire) {
    !w.isOrchestrator && w.workspaceRef.None? && IsFirstSaid(events, ProjectOf, w.repoCanonical)
  }

  /** Links and triggers are everyone's; the repos are listed for orchestrators and for those that spawned. */
  lemma {:induction false} WireByRole(events: seq<RawEvent>)
    ensures var w := WireOf(FoldEvents(events), FirstSeen(events));
            && (if Coordinates(events) then ShowsCoordination(events, w) else ShowsProject(events, w))
            && IsFirstSaid(events, PARENT, w.parentSession)
            && IsFirstSaid(events, TRIGGER, w.trigger) && IsFirstSaid(events, TRIGGER_NAME, w.triggerName)
            && (w.repos.Some? <==> SomeRepo(events) && (Coordinates(events) || SomeSpawn(events)))
            && (w.repos.Some? ==> w.repos.value == FoldEvents(events).repos)
  {
    VerdictIsClosedForm(events);
    FlagsAreMemory(events);
    LinksAreTheFirst(events);
    FirstSeenIsFirst(events);
    hide FoldEvents;
    hide FirstSeen;
    hide Coordinates;
    hide SomeSpawn;
    hide SomeRepo;
    hide IsFirstSaid;
  }

  /** The longest prefix over which the session coordinated has `c` events; none if it never did. */
  ghost predicate CoordinatedUntil(events: seq<RawEvent>, c: nat) {
    && c <= |events| && (c == 0 || Coordinates(events[..c]))
    && forall j :: c < j <= |events| ==> !Coordinates(events[..j])
  }

  lemma {:induction false} CoordinatedSnoc(events: seq<RawEvent>, c: nat)
    requires events != [] && CoordinatedUntil(events[..|events| - 1], c) && !Coordinates(events)
    ensures CoordinatedUntil(events, c)
  {
    var n := |events| - 1;
    assert events[..n + 1] == events;
    forall j | 0 <= j <= n ensures events[..n][..j] == events[..j] {}
    hide Coordinates;
  }

  lemma {:induction false} ProjectSnoc(events: seq<RawEvent>)
    requires events != []
    ensures var before := TrackAll(events[..|events| - 1]).project;
            TrackAll(events).project ==
            if Coordinates(events) then None else FirstWins(before, events[|events| - 1].project)
  {
    CachedWireIsFresh(events[..|events| - 1]);
    VerdictIsClosedForm(events);
    hide Coordinates;
    hide WireOf;
    hide Shape;
  }

  lemma {:induction false} NothingLive(events: seq<RawEvent>)
    requires events == [] || Coordinates(events)
    ensures CoordinatedUntil(events, |events|) && IsFirstSaid(events[|events|..], ProjectOf, TrackAll(events).project)
  {
    assert events[..|events|] == events;
    if events != [] { ProjectSnoc(events); }
    hide Coordinates;
  }

  /** A live session's project is the first one named since it last coordinated. */
  lemma {:induction false} LiveProjectIs(events: seq<RawEvent>) returns (c: nat)
    ensures CoordinatedUntil(events, c) && IsFirstSaid(events[c..], ProjectOf, TrackAll(events).project)
  {
    hide CoordinatedUntil;
    hide Coordinates;
    hide IsFirstSaid;
    hide TrackAll;
    if events == [] || Coordinates(events) {
      NothingLive(events);
      c := |events|;
    } else {
      var t, e := events[..|events| - 1], events[|events| - 1];
      c := LiveProjectIs(t);
      ProjectSnoc(events);
      CoordinatedSnoc(events, c);
      PrefixIsWithin(t, c);
      FirstSaidStays(t[c..], e, ProjectOf, TrackAll(t).project);
      assert events[c..] == t[c..] + [e];
    }
  }

  lemma {:induction false} PrefixIsWithin(events: seq<RawEvent>, c: nat)
    requires CoordinatedUntil(events, c)
    ensures c <= |events|
  {
  }
}
